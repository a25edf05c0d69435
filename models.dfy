/** The records of the auction site, their field defaults, and the deletion
    rules (CASCADE / SET_NULL) that the database applies to the references
    between them, written out as functions over the tables. */
module Models {
  import opened Outcomes

  type UserId = nat
  type CategoryId = nat
  type ListingId = nat

  /** A money amount in hundredths: `DecimalField(max_digits=10,
      decimal_places=2)` holds exactly the integers of cents below 10^10
      in absolute value. */
  type Cents = int

  const DecimalPlaces: nat := 2
  const MaxDigits: nat := 10
  const TitleMaxLength: nat := 30
  const CategoryNameMaxLength: nat := 64
  const DefaultStartBid: Cents := 0
  const DefaultCommentText: string := ""

  /** What the amount columns can store. */
  predicate FitsAmountColumn(c: Cents)
  {
    -10_000_000_000 < c < 10_000_000_000
  }

  /** What the title column can store. */
  predicate FitsTitleColumn(title: string)
  {
    |title| <= TitleMaxLength
  }

  /** An account; only the watch list belongs to the auction core. */
  datatype User = User(username: string, watchlist: set<ListingId>)

  datatype Category = Category(name: string)

  datatype Listing = Listing(
    title: string,
    description: string,
    imageUrl: Option<string>,
    category: Option<CategoryId>,
    startBid: Cents,
    isActive: bool,
    owner: UserId,
    winner: Option<UserId>)

  datatype Bid = Bid(listing: ListingId, user: UserId, amount: Cents)

  datatype Comment = Comment(user: UserId, listing: ListingId, text: string)

  /** The persisted state. Bids and comments are kept in insertion order. */
  datatype Tables = Tables(
    users: map<UserId, User>,
    categories: map<CategoryId, Category>,
    listings: map<ListingId, Listing>,
    bids: seq<Bid>,
    comments: seq<Comment>)

  /** A listing as the database creates it: the given fields, active, and
      with no winner. */
  function NewListing(title: string, description: string, imageUrl: Option<string>,
                      category: Option<CategoryId>, startBid: Cents, owner: UserId): (l: Listing)
    ensures l.isActive && l.winner == None
    ensures l.title == title && l.description == description && l.imageUrl == imageUrl
    ensures l.category == category && l.startBid == startBid && l.owner == owner
  {
    Listing(title, description, imageUrl, category, startBid, true, owner, None)
  }

  /** Every foreign key of a listing points at an existing row. */
  ghost predicate ListingRefsExist(t: Tables, l: Listing)
  {
    && l.owner in t.users
    && (l.winner.Some? ==> l.winner.value in t.users)
    && (l.category.Some? ==> l.category.value in t.categories)
  }

  /** Referential integrity of the whole database. */
  ghost predicate Consistent(t: Tables)
  {
    && (forall id :: id in t.listings ==> ListingRefsExist(t, t.listings[id]))
    && (forall b :: b in t.bids ==> b.listing in t.listings && b.user in t.users)
    && (forall c :: c in t.comments ==> c.listing in t.listings && c.user in t.users)
    && (forall u :: u in t.users ==> t.users[u].watchlist <= t.listings.Keys)
  }

  /** The rows of `s` that `keep` accepts, in their original order. */
  function Filter<T(==,!new)>(s: seq<T>, keep: T -> bool): (r: seq<T>)
    ensures |r| <= |s|
    ensures forall x :: x in r <==> x in s && keep(x)
  {
    if s == [] then []
    else (if keep(s[0]) then [s[0]] else []) + Filter(s[1..], keep)
  }

  /** Filtering keeps every accepted row as many times as it occurs, so
      equal rows are not merged, and drops every other row. */
  lemma {:induction false} FilterCounts<T(!new)>(s: seq<T>, keep: T -> bool)
    ensures forall x :: multiset(Filter(s, keep))[x] == (if keep(x) then multiset(s)[x] else 0)
  {
    if s != [] {
      FilterCounts(s[1..], keep);
      assert s == [s[0]] + s[1..];
      var head := if keep(s[0]) then [s[0]] else [];
      assert Filter(s, keep) == head + Filter(s[1..], keep);
      assert multiset(s) == multiset([s[0]]) + multiset(s[1..]);
      assert multiset(Filter(s, keep)) == multiset(head) + multiset(Filter(s[1..], keep));
    }
  }

  /** Deleting a category (`on_delete=SET_NULL` on `Listing.category`): the
      listings that referred to it survive with no category; nothing else
      changes. */
  function DeleteCategory(t: Tables, c: CategoryId): (r: Tables)
    ensures r.categories == t.categories - {c}
    ensures r.listings.Keys == t.listings.Keys
    ensures forall id :: id in t.listings ==>
              r.listings[id].category == (if t.listings[id].category == Some(c) then None else t.listings[id].category)
              && r.listings[id] == t.listings[id].(category := r.listings[id].category)
    ensures r.users == t.users && r.bids == t.bids && r.comments == t.comments
  {
    t.(categories := t.categories - {c},
       listings := map id | id in t.listings ::
         if t.listings[id].category == Some(c) then t.listings[id].(category := None) else t.listings[id])
  }

  /** Deleting a listing (`on_delete=CASCADE` on `Bid.listing` and
      `Comment.listing`): its bids and comments go with it, and it leaves
      every watch list; every other row survives. */
  function DeleteListing(t: Tables, l: ListingId): (r: Tables)
    ensures r.listings.Keys == t.listings.Keys - {l}
    ensures forall id :: id in r.listings ==> r.listings[id] == t.listings[id]
    ensures forall b :: b in r.bids <==> b in t.bids && b.listing != l
    ensures forall b :: multiset(r.bids)[b] == (if b.listing != l then multiset(t.bids)[b] else 0)
    ensures forall c :: c in r.comments <==> c in t.comments && c.listing != l
    ensures forall c :: multiset(r.comments)[c] == (if c.listing != l then multiset(t.comments)[c] else 0)
    ensures r.users.Keys == t.users.Keys
    ensures forall u :: u in r.users ==>
              r.users[u].username == t.users[u].username
              && r.users[u].watchlist == t.users[u].watchlist - {l}
    ensures r.categories == t.categories
  {
    FilterCounts(t.bids, (b: Bid) => b.listing != l);
    FilterCounts(t.comments, (c: Comment) => c.listing != l);
    Tables(
      map u | u in t.users :: t.users[u].(watchlist := t.users[u].watchlist - {l}),
      t.categories,
      t.listings - {l},
      Filter(t.bids, (b: Bid) => b.listing != l),
      Filter(t.comments, (c: Comment) => c.listing != l))
  }

  /** The listings a user owns. */
  function OwnedBy(t: Tables, u: UserId): (ids: set<ListingId>)
    ensures forall id :: id in ids <==> id in t.listings && t.listings[id].owner == u
  {
    set id | id in t.listings && t.listings[id].owner == u
  }

  /** Deleting a user: the listings they own go (`on_delete=CASCADE` on
      `Listing.owner`) together with those listings' bids and comments, their
      own bids and comments go (`CASCADE` on `Bid.user`, `Comment.user`), and
      every listing they had won survives with no winner (`SET_NULL` on
      `Listing.winner`). */
  function DeleteUser(t: Tables, u: UserId): (r: Tables)
    ensures r.users.Keys == t.users.Keys - {u}
    ensures forall v :: v in r.users ==>
              r.users[v].username == t.users[v].username
              && r.users[v].watchlist == t.users[v].watchlist - OwnedBy(t, u)
    ensures forall id :: id in r.listings <==> id in t.listings && t.listings[id].owner != u
    ensures forall id :: id in r.listings ==>
              r.listings[id].winner == (if t.listings[id].winner == Some(u) then None else t.listings[id].winner)
              && r.listings[id] == t.listings[id].(winner := r.listings[id].winner)
    ensures forall b :: b in r.bids <==> b in t.bids && b.user != u && b.listing !in OwnedBy(t, u)
    ensures forall b :: multiset(r.bids)[b] ==
              (if b.user != u && b.listing !in OwnedBy(t, u) then multiset(t.bids)[b] else 0)
    ensures forall c :: c in r.comments <==> c in t.comments && c.user != u && c.listing !in OwnedBy(t, u)
    ensures forall c :: multiset(r.comments)[c] ==
              (if c.user != u && c.listing !in OwnedBy(t, u) then multiset(t.comments)[c] else 0)
    ensures r.categories == t.categories
  {
    var owned := OwnedBy(t, u);
    FilterCounts(t.bids, (b: Bid) => b.user != u && b.listing !in owned);
    FilterCounts(t.comments, (c: Comment) => c.user != u && c.listing !in owned);
    Tables(
      map v | v in t.users && v != u :: t.users[v].(watchlist := t.users[v].watchlist - owned),
      t.categories,
      map id | id in t.listings && id !in owned ::
        if t.listings[id].winner == Some(u) then t.listings[id].(winner := None) else t.listings[id],
      Filter(t.bids, (b: Bid) => b.user != u && b.listing !in owned),
      Filter(t.comments, (c: Comment) => c.user != u && c.listing !in owned))
  }

  /** Setting a category's references to null keeps the database consistent. */
  lemma DeleteCategoryKeepsConsistent(t: Tables, c: CategoryId)
    requires Consistent(t)
    ensures Consistent(DeleteCategory(t, c))
  {
    var r := DeleteCategory(t, c);
    forall id | id in r.listings ensures ListingRefsExist(r, r.listings[id]) {
      assert ListingRefsExist(t, t.listings[id]);
    }
  }

  /** Cascading a listing's deletion leaves no dangling reference to it. */
  lemma DeleteListingKeepsConsistent(t: Tables, l: ListingId)
    requires Consistent(t)
    ensures Consistent(DeleteListing(t, l))
  {
    var r := DeleteListing(t, l);
    forall id | id in r.listings ensures ListingRefsExist(r, r.listings[id]) {
      assert ListingRefsExist(t, t.listings[id]);
    }
  }

  /** Cascading a user's deletion leaves no dangling reference to the user
      or to the listings they owned. */
  lemma DeleteUserKeepsConsistent(t: Tables, u: UserId)
    requires Consistent(t)
    ensures Consistent(DeleteUser(t, u))
  {
    var r := DeleteUser(t, u);
    forall id | id in r.listings ensures ListingRefsExist(r, r.listings[id]) {
      assert ListingRefsExist(t, t.listings[id]);
    }
    forall b | b in r.bids ensures b.listing in r.listings && b.user in r.users {
      assert b in t.bids;
    }
    forall c | c in r.comments ensures c.listing in r.listings && c.user in r.users {
      assert c in t.comments;
    }
  }
}
