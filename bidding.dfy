/** The bid ledger: the highest-bid lookup behind a listing's current price
    (`Bid.objects.filter(listing=...).order_by("-amount").first()`), and the
    invariants that accepting only higher bids gives the ledger. */
module Bidding {
  import opened Outcomes
  import opened Models

  /** The highest bid on listing `l`, or None when it has none. Among bids
      of equal amount the most recent one is chosen; under LedgerIncreasing
      there are no such ties (HighestIsLatest). */
  function HighestBid(bids: seq<Bid>, l: ListingId): (r: Option<Bid>)
    ensures r.None? <==> forall b :: b in bids ==> b.listing != l
    ensures r.Some? ==> r.value in bids && r.value.listing == l
    ensures r.Some? ==> forall b :: b in bids && b.listing == l ==> b.amount <= r.value.amount
  {
    if bids == [] then None
    else
      var earlier := HighestBid(bids[..|bids| - 1], l);
      var last := bids[|bids| - 1];
      assert bids == bids[..|bids| - 1] + [last];
      if last.listing == l && (earlier.None? || last.amount >= earlier.value.amount)
      then Some(last)
      else earlier
  }

  /** The current price of listing `l`: its highest bid, or its starting bid
      when nobody has bid yet. */
  function CurrentPrice(listing: Listing, bids: seq<Bid>, l: ListingId): (price: Cents)
    ensures (forall b :: b in bids ==> b.listing != l) ==> price == listing.startBid
    ensures (exists b :: b in bids && b.listing == l) ==>
              (exists b :: b in bids && b.listing == l && b.amount == price)
    ensures forall b :: b in bids && b.listing == l ==> b.amount <= price
  {
    match HighestBid(bids, l)
    case None => listing.startBid
    case Some(b) => b.amount
  }

  /** The most recent bid on listing `l`. */
  function LatestBid(bids: seq<Bid>, l: ListingId): (r: Option<Bid>)
    ensures r.None? <==> forall b :: b in bids ==> b.listing != l
    ensures r.Some? ==> r.value.listing == l && r.value in bids
  {
    if bids == [] then None
    else if bids[|bids| - 1].listing == l then Some(bids[|bids| - 1])
    else
      assert bids == bids[..|bids| - 1] + [bids[|bids| - 1]];
      LatestBid(bids[..|bids| - 1], l)
  }

  /** Per listing, the ledger read in insertion order is strictly increasing
      in amount: each bid was accepted only above the price before it. */
  ghost predicate LedgerIncreasing(bids: seq<Bid>)
  {
    forall i, j :: 0 <= i < j < |bids| && bids[i].listing == bids[j].listing ==>
      bids[i].amount < bids[j].amount
  }

  /** Every bid on an existing listing is above that listing's starting bid. */
  ghost predicate BidsAboveStart(listings: map<ListingId, Listing>, bids: seq<Bid>)
  {
    forall b :: b in bids && b.listing in listings ==> b.amount > listings[b.listing].startBid
  }

  /** A listing has a winner only once it is closed, and the winner has bid
      on it. */
  ghost predicate WinnersHaveBids(listings: map<ListingId, Listing>, bids: seq<Bid>)
  {
    forall id :: id in listings && listings[id].winner.Some? ==>
      && !listings[id].isActive
      && exists b :: b in bids && b.listing == id && b.user == listings[id].winner.value
  }

  /** The invariant of the auction database. */
  ghost predicate Sound(t: Tables)
  {
    && Consistent(t)
    && LedgerIncreasing(t.bids)
    && BidsAboveStart(t.listings, t.bids)
    && WinnersHaveBids(t.listings, t.bids)
  }

  /** With a strictly increasing ledger the highest bid is the most recent
      one, so the tie-break of the lookup never matters. */
  lemma {:induction false} HighestIsLatest(bids: seq<Bid>, l: ListingId)
    requires LedgerIncreasing(bids)
    ensures HighestBid(bids, l) == LatestBid(bids, l)
  {
    if bids != [] {
      var prefix := bids[..|bids| - 1];
      var last := bids[|bids| - 1];
      assert LedgerIncreasing(prefix);
      HighestIsLatest(prefix, l);
      var earlier := HighestBid(prefix, l);
      if last.listing == l && earlier.Some? {
        var i :| 0 <= i < |prefix| && prefix[i] == earlier.value;
        assert bids[i] == earlier.value;
      }
    }
  }

  /** The price of a listing never drops below its starting bid. */
  lemma PriceAtLeastStart(t: Tables, l: ListingId)
    requires BidsAboveStart(t.listings, t.bids) && l in t.listings
    ensures CurrentPrice(t.listings[l], t.bids, l) >= t.listings[l].startBid
  {
    var h := HighestBid(t.bids, l);
    if h.Some? {
      assert h.value in t.bids;
    }
  }

  /** A bid on `l` above its current price becomes its new price, and its
      highest and most recent bid. */
  lemma AcceptedBidSetsPrice(listing: Listing, bids: seq<Bid>, bid: Bid)
    requires bid.amount > CurrentPrice(listing, bids, bid.listing)
    ensures HighestBid(bids + [bid], bid.listing) == Some(bid)
    ensures CurrentPrice(listing, bids + [bid], bid.listing) == bid.amount
  {
    assert (bids + [bid])[..|bids|] == bids;
  }

  /** A bid on one listing leaves the price of every other listing alone. */
  lemma BidLeavesOtherPrices(listing: Listing, bids: seq<Bid>, bid: Bid, l: ListingId)
    requires l != bid.listing
    ensures CurrentPrice(listing, bids + [bid], l) == CurrentPrice(listing, bids, l)
  {
    assert (bids + [bid])[..|bids|] == bids;
  }

  /** A bid on one listing leaves the price of every other listing alone. */
  lemma BidLeavesOtherListings(listings: map<ListingId, Listing>, bids: seq<Bid>, bid: Bid)
    ensures forall l :: l in listings && l != bid.listing ==>
              CurrentPrice(listings[l], bids + [bid], l) == CurrentPrice(listings[l], bids, l)
  {
    forall l | l in listings && l != bid.listing
      ensures CurrentPrice(listings[l], bids + [bid], l) == CurrentPrice(listings[l], bids, l)
    {
      BidLeavesOtherPrices(listings[l], bids, bid, l);
    }
  }

  /** Appending a bid above the current price keeps the database sound. */
  lemma AcceptedBidKeepsSound(t: Tables, bid: Bid)
    requires Sound(t)
    requires bid.listing in t.listings && bid.user in t.users
    requires bid.amount > CurrentPrice(t.listings[bid.listing], t.bids, bid.listing)
    ensures Sound(t.(bids := t.bids + [bid]))
  {
    var r := t.(bids := t.bids + [bid]);
    PriceAtLeastStart(t, bid.listing);
    forall i, j | 0 <= i < j < |r.bids| && r.bids[i].listing == r.bids[j].listing
      ensures r.bids[i].amount < r.bids[j].amount
    {
      if j == |t.bids| {
        assert r.bids[i] in t.bids;
      } else {
        assert r.bids[i] == t.bids[i] && r.bids[j] == t.bids[j];
      }
    }
    forall id | id in r.listings && r.listings[id].winner.Some?
      ensures exists b :: b in r.bids && b.listing == id && b.user == r.listings[id].winner.value
    {
      var b :| b in t.bids && b.listing == id && b.user == t.listings[id].winner.value;
      assert b in r.bids;
    }
  }

  /** A listing as `close_listing` saves it: inactive, and won by the bidder
      of its highest bid when it has one; with no bids the winner stays as it
      was. */
  function Closed(listing: Listing, bids: seq<Bid>, l: ListingId): (r: Listing)
    ensures !r.isActive
    ensures r == listing.(isActive := false, winner := r.winner)
    ensures (forall b :: b in bids ==> b.listing != l) ==> r.winner == listing.winner
    ensures (exists b :: b in bids && b.listing == l) ==>
              exists b :: && b in bids && b.listing == l && r.winner == Some(b.user)
                          && forall c :: c in bids && c.listing == l ==> c.amount <= b.amount
  {
    match HighestBid(bids, l)
    case None => listing.(isActive := false)
    case Some(b) => listing.(isActive := false, winner := Some(b.user))
  }

  /** Rewriting one listing in place, with its references still existing and
      its starting bid unchanged, keeps the database consistent and every bid
      above its starting bid. */
  lemma ListingRewriteKeepsRefs(t: Tables, l: ListingId, updated: Listing)
    requires Consistent(t) && BidsAboveStart(t.listings, t.bids) && l in t.listings
    requires ListingRefsExist(t, updated) && updated.startBid == t.listings[l].startBid
    ensures Consistent(t.(listings := t.listings[l := updated]))
    ensures BidsAboveStart(t.listings[l := updated], t.bids)
  {
    var r := t.(listings := t.listings[l := updated]);
    forall id | id in r.listings ensures ListingRefsExist(r, r.listings[id]) {
      if id != l { assert ListingRefsExist(t, t.listings[id]); }
    }
  }

  /** Closing a listing keeps every winner a closed listing's bidder. */
  lemma CloseKeepsWinners(listings: map<ListingId, Listing>, bids: seq<Bid>, l: ListingId)
    requires WinnersHaveBids(listings, bids) && l in listings
    ensures WinnersHaveBids(listings[l := Closed(listings[l], bids, l)], bids)
  {
    var h := HighestBid(bids, l);
    if h.Some? {
      assert h.value in bids;
    }
  }

  /** Closing a listing keeps the database sound. */
  lemma CloseKeepsSound(t: Tables, l: ListingId)
    requires Sound(t) && l in t.listings
    ensures Sound(t.(listings := t.listings[l := Closed(t.listings[l], t.bids, l)]))
  {
    var closed := Closed(t.listings[l], t.bids, l);
    var h := HighestBid(t.bids, l);
    assert ListingRefsExist(t, t.listings[l]);
    if h.Some? {
      assert h.value in t.bids;
    }
    ListingRewriteKeepsRefs(t, l, closed);
    CloseKeepsWinners(t.listings, t.bids, l);
  }

  /** Adding a fresh listing with existing references and no winner keeps
      the database sound. */
  lemma NewListingKeepsSound(t: Tables, id: ListingId, listing: Listing)
    requires Sound(t) && id !in t.listings
    requires ListingRefsExist(t, listing) && listing.winner == None
    ensures Sound(t.(listings := t.listings[id := listing]))
  {
    var r := t.(listings := t.listings[id := listing]);
    forall k | k in r.listings ensures ListingRefsExist(r, r.listings[k]) {
      if k != id { assert ListingRefsExist(t, t.listings[k]); }
    }
    forall b | b in r.bids && b.listing in r.listings
      ensures b.amount > r.listings[b.listing].startBid
    {
      assert b.listing in t.listings;
    }
  }

  /** Filtering rows out of the ledger keeps it increasing. */
  lemma {:induction false} FilterKeepsLedgerIncreasing(bids: seq<Bid>, keep: Bid -> bool)
    requires LedgerIncreasing(bids)
    ensures LedgerIncreasing(Filter(bids, keep))
  {
    if bids != [] {
      var tail := bids[1..];
      assert LedgerIncreasing(tail) by {
        forall i, j | 0 <= i < j < |tail| && tail[i].listing == tail[j].listing
          ensures tail[i].amount < tail[j].amount
        {
          assert tail[i] == bids[i + 1] && tail[j] == bids[j + 1];
        }
      }
      FilterKeepsLedgerIncreasing(tail, keep);
      var rest := Filter(tail, keep);
      var r := Filter(bids, keep);
      if keep(bids[0]) {
        assert r == [bids[0]] + rest;
        forall i, j | 0 <= i < j < |r| && r[i].listing == r[j].listing
          ensures r[i].amount < r[j].amount
        {
          if i == 0 {
            assert r[j] in tail;
            var k :| 0 <= k < |tail| && tail[k] == r[j];
            assert bids[k + 1] == r[j];
          } else {
            assert r[i] == rest[i - 1] && r[j] == rest[j - 1];
          }
        }
      } else {
        assert r == rest;
      }
    }
  }

  /** Deleting a category keeps the database sound. */
  lemma DeleteCategoryKeepsSound(t: Tables, c: CategoryId)
    requires Sound(t)
    ensures Sound(DeleteCategory(t, c))
  {
    var r := DeleteCategory(t, c);
    DeleteCategoryKeepsConsistent(t, c);
    forall b | b in r.bids && b.listing in r.listings
      ensures b.amount > r.listings[b.listing].startBid
    {
      assert r.listings[b.listing].startBid == t.listings[b.listing].startBid;
    }
    forall id | id in r.listings && r.listings[id].winner.Some?
      ensures !r.listings[id].isActive
      ensures exists b :: b in r.bids && b.listing == id && b.user == r.listings[id].winner.value
    {
      assert r.listings[id].winner == t.listings[id].winner;
      assert r.listings[id].isActive == t.listings[id].isActive;
    }
  }

  /** Deleting a listing, with its cascade, keeps the database sound. */
  lemma DeleteListingKeepsSound(t: Tables, l: ListingId)
    requires Sound(t)
    ensures Sound(DeleteListing(t, l))
  {
    var r := DeleteListing(t, l);
    DeleteListingKeepsConsistent(t, l);
    FilterKeepsLedgerIncreasing(t.bids, (b: Bid) => b.listing != l);
    forall id | id in r.listings && r.listings[id].winner.Some?
      ensures exists b :: b in r.bids && b.listing == id && b.user == r.listings[id].winner.value
    {
      var b :| b in t.bids && b.listing == id && b.user == t.listings[id].winner.value;
      assert b in r.bids;
    }
  }

  /** Deleting a user, with its cascade and the nulled winners, keeps the
      database sound. */
  lemma DeleteUserKeepsSound(t: Tables, u: UserId)
    requires Sound(t)
    ensures Sound(DeleteUser(t, u))
  {
    var r := DeleteUser(t, u);
    var owned := OwnedBy(t, u);
    DeleteUserKeepsConsistent(t, u);
    FilterKeepsLedgerIncreasing(t.bids, (b: Bid) => b.user != u && b.listing !in owned);
    forall b | b in r.bids && b.listing in r.listings
      ensures b.amount > r.listings[b.listing].startBid
    {
      assert b in t.bids;
      assert r.listings[b.listing].startBid == t.listings[b.listing].startBid;
    }
    forall id | id in r.listings && r.listings[id].winner.Some?
      ensures !r.listings[id].isActive
      ensures exists b :: b in r.bids && b.listing == id && b.user == r.listings[id].winner.value
    {
      var w := r.listings[id].winner.value;
      assert t.listings[id].winner == Some(w) && w != u;
      assert r.listings[id].isActive == t.listings[id].isActive;
      var b :| b in t.bids && b.listing == id && b.user == w;
      assert b in r.bids;
    }
  }
}
