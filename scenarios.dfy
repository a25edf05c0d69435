/** Walk-throughs of the auction views, proved from the views' contracts
    alone. Each step is a method over a described state, so that every
    proof sees one view call. */
module Scenarios {
  import opened Outcomes
  import opened Models
  import opened Bidding
  import opened Forms
  import opened Views
  import Text

  /** The decimal strings these walk-throughs type, in cents. */
  function TypedAmount(s: string): Option<Cents>
  {
    if s == "15.00" then Some(1500)
    else if s == "12.00" then Some(1200)
    else if s == "20.00" then Some(2000)
    else if s == "5" then Some(500)
    else None
  }

  /** Alice (1), Bob (2) and Carol (3). */
  function People(): map<UserId, User>
  {
    map[1 := User("alice", {}), 2 := User("bob", {}), 3 := User("carol", {})]
  }

  /** Alice's lamp, starting at 10.00. */
  function Lamp(): Listing
  {
    NewListing("Lamp", "Brass lamp", None, None, 1000, 1)
  }

  /** The site holds the three people, no categories, the lamp as listing 0
      in the given state, and the given bids. */
  ghost predicate LampSite(m: Marketplace, lamp: Listing, bids: seq<Bid>)
    reads m
  {
    && m.Valid()
    && m.users == People() && m.categories == map[]
    && m.listings == map[0 := lamp] && m.bids == bids && m.comments == []
  }

  method OpenLampSite() returns (m: Marketplace)
    ensures fresh(m) && LampSite(m, Lamp(), [])
  {
    var t := Tables(People(), map[], map[0 := Lamp()], [], []);
    assert Sound(t);
    m := new Marketplace(t, 1);
  }

  /** Bob bids 15.00 on the fresh lamp: accepted. */
  method BobBidsFifteen(m: Marketplace)
    requires LampSite(m, Lamp(), [])
    modifies m
    ensures LampSite(m, Lamp(), [Bid(0, 2, 1500)]) && m.Price(0) == 1500
  {
    var r := m.PlaceBid(2, 0, Some("15.00"), TypedAmount);
    assert r == Ok(1500);
  }

  /** Carol then bids 12.00: too low, nothing changes. */
  method CarolBidsTwelve(m: Marketplace)
    requires LampSite(m, Lamp(), [Bid(0, 2, 1500)]) && m.Price(0) == 1500
    modifies m
    ensures LampSite(m, Lamp(), [Bid(0, 2, 1500)]) && m.Price(0) == 1500
  {
    var r := m.PlaceBid(3, 0, Some("12.00"), TypedAmount);
    assert r == Err(BidRefused(BidTooLow(1500)));
  }

  /** Carol then bids 20.00: accepted. */
  method CarolBidsTwenty(m: Marketplace, lamp: Listing)
    requires LampSite(m, lamp, [Bid(0, 2, 1500)]) && m.Price(0) == 1500
    modifies m
    ensures LampSite(m, lamp, [Bid(0, 2, 1500), Bid(0, 3, 2000)]) && m.Price(0) == 2000
  {
    var r := m.PlaceBid(3, 0, Some("20.00"), TypedAmount);
    assert r == Ok(2000);
  }

  /** Alice closes after bids of 15.00 by Bob and 20.00 by Carol: Carol wins. */
  method AliceClosesAfterTwoBids(m: Marketplace)
    requires LampSite(m, Lamp(), [Bid(0, 2, 1500), Bid(0, 3, 2000)])
    modifies m
    ensures LampSite(m, Lamp().(isActive := false, winner := Some(3)), [Bid(0, 2, 1500), Bid(0, 3, 2000)])
  {
    var r := m.CloseListing(Some(1), 0);
    var closed := Closed(Lamp(), m.bids, 0);
    assert Bid(0, 3, 2000) in m.bids;
    assert closed.winner == Some(3);
  }

  /** Bid 15.00 is accepted, 12.00 is too low, 20.00 is accepted, and the
      owner's close makes the 20.00 bidder the winner. */
  method BiddingWar()
  {
    var m := OpenLampSite();
    BobBidsFifteen(m);
    CarolBidsTwelve(m);
    CarolBidsTwenty(m, Lamp());
    AliceClosesAfterTwoBids(m);
    assert !m.listings[0].isActive && m.listings[0].winner == Some(3);
  }

  /** With no bids, a non-owner or anonymous close changes nothing and the
      owner's close leaves the lamp inactive without a winner. */
  method CloseWithoutBids()
  {
    var m := OpenLampSite();
    var r0 := m.CloseListing(Some(2), 0);
    assert r0 == Err(NotOwner) && m.listings[0] == Lamp();
    var r1 := m.CloseListing(None, 0);
    assert r1 == Err(NotOwner) && m.listings[0] == Lamp();
    var r2 := m.CloseListing(Some(1), 0);
    assert r2 == Ok(None);
    assert !m.listings[0].isActive && m.listings[0].winner == None;
  }

  /** Alice closes after Bob's 15.00: Bob wins. */
  method AliceClosesAfterOneBid(m: Marketplace)
    requires LampSite(m, Lamp(), [Bid(0, 2, 1500)]) && m.Price(0) == 1500
    modifies m
    ensures LampSite(m, Lamp().(isActive := false, winner := Some(2)), [Bid(0, 2, 1500)]) && m.Price(0) == 1500
  {
    var r := m.CloseListing(Some(1), 0);
    assert Bid(0, 2, 1500) in m.bids;
  }

  /** A bid on a closed listing is still accepted, and the recorded winner
      stays the bidder from closing time. */
  method BidAfterClose()
  {
    var m := OpenLampSite();
    BobBidsFifteen(m);
    AliceClosesAfterOneBid(m);
    CarolBidsTwenty(m, Lamp().(isActive := false, winner := Some(2)));
    assert !m.listings[0].isActive && m.listings[0].winner == Some(2) && m.Price(0) == 2000;
  }

  lemma BlankTitleStrips()
    ensures Text.Strip("  ") == ""
  {
    assert Text.IsSpace(' ');
    assert "  "[1..] == " " && " "[1..] == "";
    assert Text.StripLeft("  ") == "";
  }

  lemma PlainDescriptionStrips()
    ensures Text.Strip("x") == "x"
  {
    assert Text.StripLeft("x") == "x" && Text.StripRight("x") == "x";
  }

  /** The form with a blank title, description "x" and starting bid "5"
      violates the title rule only. */
  lemma BlankTitleForm()
    ensures CheckListing("", "x", Some("5"), TypedAmount) == Err([TitleRequired])
  {
    assert TypedAmount("5") == Some(500);
    assert ListingViolations("", "x", Some("5"), TypedAmount) == [TitleRequired];
  }

  /** A form with a blank title is refused with exactly that violation, and
      nothing is created. */
  method BlankTitle()
  {
    var m := OpenLampSite();
    BlankTitleStrips();
    PlainDescriptionStrips();
    BlankTitleForm();
    var r := m.CreateListing(2, "  ", "x", None, Some("5"), None, TypedAmount);
    assert r == Err(InvalidListing([TitleRequired]));
    assert m.listings == map[0 := Lamp()];
  }

  /** Toggling the same listing twice restores the user's watch list. */
  method WatchTwice()
  {
    var m := OpenLampSite();
    var r1 := m.ToggleWatchlist(2, 0);
    assert r1 == Ok(true) && 0 in m.users[2].watchlist;
    var r2 := m.ToggleWatchlist(2, 0);
    assert r2 == Ok(false);
    assert m.users == People();
  }

  /** A text of a space, a tab and a space is blank and strips to nothing. */
  lemma BlankCommentText()
    ensures Text.AllSpace(" \t ") && Text.Strip(" \t ") == ""
  {
    assert Text.IsSpace(' ') && Text.IsSpace('\t');
    assert " \t "[1..] == "\t " && "\t "[1..] == " " && " "[1..] == "";
    assert Text.StripLeft(" \t ") == "";
  }

  /** A comment of white space only is reported as empty and stored anyway,
      with empty text. */
  method BlankComment()
  {
    var m := OpenLampSite();
    BlankCommentText();
    var r := m.AddComment(3, 0, " \t ");
    assert r == Ok(Stored(true));
    assert m.comments == [Comment(3, 0, "")];
  }
}
