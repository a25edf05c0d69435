/** The validation rules of the bid form and of the new-listing form. The
    decimal parser (`Decimal(s)`) is a parameter: it yields the amount in
    cents, or None where `Decimal` raises `InvalidOperation`. */
module Forms {
  import opened Outcomes
  import opened Models

  /** Why a bid was refused, one per message the bid form can show. */
  datatype BidError =
    | BidRequired                 // "Bid cannot be empty"
    | BidNotANumber               // "Bid must be a valid number."
    | BidTooLow(highest: Cents)   // "Bid must be greater than the current highest bid"

  /** Validates the raw `bid_amount` field against the current price: the
      amount is accepted exactly when it is present, parses, and is strictly
      above `highest`; otherwise the first failing rule is reported. */
  function CheckBid(input: Option<string>, parse: string -> Option<Cents>, highest: Cents): (r: Result<Cents, BidError>)
    ensures r.Ok? <==> input.Some? && input.value != "" && parse(input.value).Some? && parse(input.value).value > highest
    ensures r.Ok? ==> r.value == parse(input.value).value && r.value > highest
    ensures r == Err(BidRequired) <==> input.None? || input.value == ""
    ensures r == Err(BidNotANumber) <==> input.Some? && input.value != "" && parse(input.value).None?
    ensures r.Err? && r.error.BidTooLow? ==>
              r.error.highest == highest && parse(input.value).Some? && parse(input.value).value <= highest
  {
    if input.None? || input.value == "" then Err(BidRequired)
    else match parse(input.value)
      case None => Err(BidNotANumber)
      case Some(amount) => if amount <= highest then Err(BidTooLow(highest)) else Ok(amount)
  }

  /** One message of the new-listing form. */
  datatype Violation =
    | TitleRequired         // "Title is required"
    | DescriptionRequired   // "Description is required"
    | StartBidRequired      // "Starting bid is required"
    | StartBidNotPositive   // "Starting bid must be greater than zero."
    | StartBidNotANumber    // "Starting bid must be a valid number."

  /** The position of a violation among the checks, which run in this order. */
  function CheckOrder(v: Violation): nat
  {
    match v
    case TitleRequired => 0
    case DescriptionRequired => 1
    case _ => 2
  }

  /** The starting-bid rule alone: present, a number, above zero. */
  function StartBidViolation(input: Option<string>, parse: string -> Option<Cents>): (r: Option<Violation>)
    ensures r.Some? ==> CheckOrder(r.value) == 2
    ensures r.None? <==> input.Some? && input.value != "" && parse(input.value).Some? && parse(input.value).value > 0
  {
    if input.None? || input.value == "" then Some(StartBidRequired)
    else match parse(input.value)
      case None => Some(StartBidNotANumber)
      case Some(amount) => if amount <= 0 then Some(StartBidNotPositive) else None
  }

  /** Every violation of the new-listing form, collected without stopping at
      the first, in the order the checks run. `title` and `description` are
      the stripped fields. */
  function ListingViolations(title: string, description: string, startBid: Option<string>,
                             parse: string -> Option<Cents>): (r: seq<Violation>)
    ensures TitleRequired in r <==> title == ""
    ensures DescriptionRequired in r <==> description == ""
    ensures StartBidRequired in r <==> startBid.None? || startBid.value == ""
    ensures StartBidNotANumber in r <==> startBid.Some? && startBid.value != "" && parse(startBid.value).None?
    ensures StartBidNotPositive in r <==>
              startBid.Some? && startBid.value != "" && parse(startBid.value).Some? && parse(startBid.value).value <= 0
    ensures forall i, j :: 0 <= i < j < |r| ==> CheckOrder(r[i]) < CheckOrder(r[j])
  {
    var sb := StartBidViolation(startBid, parse);
    (if title == "" then [TitleRequired] else [])
    + (if description == "" then [DescriptionRequired] else [])
    + (if sb.Some? then [sb.value] else [])
  }

  /** The form is accepted, with its parsed starting bid, exactly when no
      rule is violated; then the starting bid is above zero. */
  function CheckListing(title: string, description: string, startBid: Option<string>,
                        parse: string -> Option<Cents>): (r: Result<Cents, seq<Violation>>)
    ensures r.Ok? <==> title != "" && description != "" && StartBidViolation(startBid, parse).None?
    ensures r.Ok? ==> startBid.Some? && parse(startBid.value) == Some(r.value) && r.value > 0
    ensures r.Err? ==> r.error == ListingViolations(title, description, startBid, parse) && r.error != []
  {
    var violations := ListingViolations(title, description, startBid, parse);
    if violations == [] then Ok(parse(startBid.value).value) else Err(violations)
  }
}
