/** The state-changing views of the auction site: placing a bid, closing a
    listing, toggling a watch-list entry, commenting, and creating a
    listing. The database is an object whose tables the views update; each
    view's outcome (its flash message or its crash on a missing row) is
    returned as a value. */
module Views {
  import opened Outcomes
  import opened Models
  import opened Bidding
  import opened Forms
  import opened Text

  /** The ways a view can fail without changing anything. */
  datatype Failure =
    | ListingNotFound                            // `Listing.objects.get` raised DoesNotExist
    | CategoryNotFound                           // `Category.objects.get` raised DoesNotExist
    | BidRefused(reason: BidError)
    | NotOwner                                   // "Only the owner can close this listing."
    | InvalidListing(violations: seq<Violation>)

  /** A stored comment, and whether the "Comment cannot be empty" message
      was raised for it. */
  datatype CommentOutcome = Stored(emptyWarning: bool)

  /** A watch list with listing `l` flipped: removed if present, added if not. */
  function Toggle(watchlist: set<ListingId>, l: ListingId): (r: set<ListingId>)
    ensures l in r <==> l !in watchlist
    ensures forall other :: other != l ==> (other in r <==> other in watchlist)
  {
    if l in watchlist then watchlist - {l} else watchlist + {l}
  }

  /** Toggling the same listing twice gives back the original watch list. */
  lemma ToggleTwice(watchlist: set<ListingId>, l: ListingId)
    ensures Toggle(Toggle(watchlist, l), l) == watchlist
  {
  }

  class Marketplace {
    var users: map<UserId, User>
    var categories: map<CategoryId, Category>
    var listings: map<ListingId, Listing>
    var bids: seq<Bid>
    var comments: seq<Comment>
    /** The primary key the next created listing receives. */
    var nextListingId: ListingId

    function Snapshot(): Tables
      reads this
    {
      Tables(users, categories, listings, bids, comments)
    }

    ghost predicate Valid()
      reads this
    {
      && Sound(Snapshot())
      && forall id :: id in listings ==> id < nextListingId
    }

    /** The current price of an existing listing. */
    function Price(l: ListingId): Cents
      reads this
      requires l in listings
    {
      CurrentPrice(listings[l], bids, l)
    }

    constructor (t: Tables, next: ListingId)
      requires Sound(t)
      requires forall id :: id in t.listings ==> id < next
      ensures Valid()
      ensures Snapshot() == t && nextListingId == next
    {
      users, categories, listings := t.users, t.categories, t.listings;
      bids, comments := t.bids, t.comments;
      nextListingId := next;
    }

    /** `place_bid`: looks the listing up, validates the amount against the
        current price, and appends one bid when it is strictly higher. Neither
        the listing's state nor its owner is checked, and the listing itself
        is not modified. */
    method PlaceBid(bidder: UserId, l: ListingId, amount: Option<string>, parse: string -> Option<Cents>)
      returns (r: Result<Cents, Failure>)
      requires Valid() && bidder in users
      modifies this
      ensures Valid()
      ensures users == old(users) && categories == old(categories) && listings == old(listings)
      ensures comments == old(comments) && nextListingId == old(nextListingId)
      ensures l !in old(listings) ==> r == Err(ListingNotFound)
      ensures l in old(listings) ==>
                var check := CheckBid(amount, parse, old(Price(l)));
                r == (if check.Ok? then Ok(check.value) else Err(BidRefused(check.error)))
      ensures r.Ok? ==> && bids == old(bids) + [Bid(l, bidder, r.value)]
                        && r.value > old(Price(l))
                        && Price(l) == r.value
      ensures r.Err? ==> bids == old(bids)
      ensures forall other :: other in old(listings) && other != l ==> Price(other) == old(Price(other))
    {
      if l !in listings {
        return Err(ListingNotFound);
      }
      var highest := CurrentPrice(listings[l], bids, l);
      var check := CheckBid(amount, parse, highest);
      if check.Err? {
        return Err(BidRefused(check.error));
      }
      var bid := Bid(l, bidder, check.value);
      ghost var before := Snapshot();
      AcceptedBidKeepsSound(before, bid);
      AcceptedBidSetsPrice(listings[l], bids, bid);
      BidLeavesOtherListings(listings, bids, bid);
      bids := bids + [bid];
      assert Snapshot() == before.(bids := before.bids + [bid]);
      r := Ok(check.value);
    }

    /** `close_listing`: only the owner may close (an anonymous requester is
        None and never the owner). Closing deactivates the listing and, when
        it has bids, makes the bidder of the highest one the winner; with no
        bids the winner is left as it was. */
    method CloseListing(requester: Option<UserId>, l: ListingId) returns (r: Result<Option<UserId>, Failure>)
      requires Valid()
      modifies this
      ensures Valid()
      ensures users == old(users) && categories == old(categories) && bids == old(bids)
      ensures comments == old(comments) && nextListingId == old(nextListingId)
      ensures l !in old(listings) ==> r == Err(ListingNotFound) && listings == old(listings)
      ensures l in old(listings) && requester != Some(old(listings)[l].owner) ==>
                r == Err(NotOwner) && listings == old(listings)
      ensures l in old(listings) && requester == Some(old(listings)[l].owner) ==>
                var closed := Closed(old(listings)[l], bids, l);
                r == Ok(closed.winner) && listings == old(listings)[l := closed]
    {
      if l !in listings {
        return Err(ListingNotFound);
      }
      var listing := listings[l];
      if requester != Some(listing.owner) {
        return Err(NotOwner);
      }
      CloseKeepsSound(Snapshot(), l);
      var closed := Closed(listing, bids, l);
      listings := listings[l := closed];
      r := Ok(closed.winner);
    }

    /** `watchlist_toggle`: flips whether listing `l` is in the user's watch
        list and reports whether it is watched now. */
    method ToggleWatchlist(u: UserId, l: ListingId) returns (r: Result<bool, Failure>)
      requires Valid() && u in users
      modifies this
      ensures Valid()
      ensures categories == old(categories) && listings == old(listings) && bids == old(bids)
      ensures comments == old(comments) && nextListingId == old(nextListingId)
      ensures l !in old(listings) ==> r == Err(ListingNotFound) && users == old(users)
      ensures l in old(listings) ==>
                var before := old(users)[u];
                r == Ok(l !in before.watchlist)
                && users == old(users)[u := before.(watchlist := Toggle(before.watchlist, l))]
    {
      if l !in listings {
        return Err(ListingNotFound);
      }
      var user := users[u];
      users := users[u := user.(watchlist := Toggle(user.watchlist, l))];
      r := Ok(l in users[u].watchlist);
    }

    /** `add_comment`: stores one comment holding the stripped text. An empty
        text raises the "Comment cannot be empty" message, but the comment is
        stored all the same. */
    method AddComment(author: UserId, l: ListingId, text: string) returns (r: Result<CommentOutcome, Failure>)
      requires Valid() && author in users
      modifies this
      ensures Valid()
      ensures users == old(users) && categories == old(categories) && listings == old(listings)
      ensures bids == old(bids) && nextListingId == old(nextListingId)
      ensures l !in old(listings) ==> r == Err(ListingNotFound) && comments == old(comments)
      ensures l in old(listings) ==>
                r == Ok(Stored(AllSpace(text)))
                && comments == old(comments) + [Comment(author, l, Strip(text))]
    {
      var stripped := Strip(text);
      if l !in listings {
        return Err(ListingNotFound);
      }
      StripEmptyIffBlank(text);
      comments := comments + [Comment(author, l, stripped)];
      r := Ok(Stored(stripped == ""));
    }

    /** `create_listing`: strips title and description, collects every
        violation of the form, then looks the category up, and only then
        creates one active listing with no winner under a fresh key. */
    method CreateListing(owner: UserId, title: string, description: string, imageUrl: Option<string>,
                         startBid: Option<string>, category: Option<CategoryId>,
                         parse: string -> Option<Cents>)
      returns (r: Result<ListingId, Failure>)
      requires Valid() && owner in users
      modifies this
      ensures Valid()
      ensures users == old(users) && categories == old(categories)
      ensures bids == old(bids) && comments == old(comments)
      ensures r.Err? ==> listings == old(listings) && nextListingId == old(nextListingId)
      ensures var check := CheckListing(Strip(title), Strip(description), startBid, parse);
              && (check.Err? ==> r == Err(InvalidListing(check.error)))
              && (check.Ok? && category.Some? && category.value !in old(categories) ==> r == Err(CategoryNotFound))
              && (check.Ok? && (category.None? || category.value in old(categories)) ==>
                    && r == Ok(old(nextListingId))
                    && old(nextListingId) !in old(listings)
                    && listings == old(listings)[r.value :=
                         NewListing(Strip(title), Strip(description), imageUrl, category, check.value, owner)]
                    && nextListingId == old(nextListingId) + 1)
    {
      var cleanTitle := Strip(title);
      var cleanDescription := Strip(description);
      var check := CheckListing(cleanTitle, cleanDescription, startBid, parse);
      if check.Err? {
        return Err(InvalidListing(check.error));
      }
      if category.Some? && category.value !in categories {
        return Err(CategoryNotFound);
      }
      var id := InsertListing(NewListing(cleanTitle, cleanDescription, imageUrl, category, check.value, owner));
      r := Ok(id);
    }

    /** `Listing.objects.create`: stores a listing without a winner under the
        next primary key. */
    method InsertListing(listing: Listing) returns (id: ListingId)
      requires Valid()
      requires ListingRefsExist(Snapshot(), listing) && listing.winner == None
      modifies this
      ensures Valid()
      ensures id == old(nextListingId) && id !in old(listings)
      ensures listings == old(listings)[id := listing] && nextListingId == old(nextListingId) + 1
      ensures users == old(users) && categories == old(categories)
      ensures bids == old(bids) && comments == old(comments)
    {
      id := nextListingId;
      NewListingKeepsSound(Snapshot(), id, listing);
      listings := listings[id := listing];
      nextListingId := nextListingId + 1;
    }
  }
}
