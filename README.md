# Auction engine model

A Dafny model of the bidding and auction-lifecycle engine of a small Django
auction site: users list items with a starting bid, others place strictly
increasing bids, the owner closes the auction and the highest bidder becomes
the winner, and users comment on and watch listings.

Layout, one module per file:

- `outcomes.dfy` (`Outcomes`): `Option` and `Result`.
- `text.dfy` (`Text`): Python's `str.strip()`, which the views apply to titles,
  descriptions and comments.
- `models.dfy` (`Models`): the records of `auctions/models.py` (`User` with its
  watch list, `Category`, `Listing`, `Bid`, `Comment`), their defaults and
  column bounds, the whole database as a `Tables` value, its referential
  integrity (`Consistent`), and the CASCADE / SET_NULL deletion rules as
  functions over the tables.
- `bidding.dfy` (`Bidding`): the highest-bid lookup and the current price, the
  invariant the bidding rule gives the ledger (`Sound`: referential integrity,
  a per-listing strictly increasing ledger, every bid above the starting bid,
  and every winner a bidder on a closed listing), and proofs that every view
  and every deletion keeps it.
- `forms.dfy` (`Forms`): the bid-form and listing-form validation rules.
- `views.dfy` (`Views`): the class `Marketplace`, whose fields are the tables,
  with one method per state-changing view: `PlaceBid`, `CloseListing`,
  `ToggleWatchlist`, `AddComment`, `CreateListing`.
- `scenarios.dfy` (`Scenarios`): worked walk-throughs proved from the view
  contracts alone. Bids of 15.00 and 20.00 are accepted and 12.00 is refused,
  and the owner's close makes the 20.00 bidder the winner. A close with no
  bids leaves no winner. A bid after close is accepted and the winner stays.
  A blank title is refused. A double toggle restores the watch list. A blank
  comment is stored.

Money is integer cents (`DecimalField(max_digits=10, decimal_places=2)`).
`Decimal(s)` is a parameter `parse: string -> Option<Cents>`: `None` stands
for `InvalidOperation`. A row lookup that raises `DoesNotExist` in the source
is an `Err(ListingNotFound)` / `Err(CategoryNotFound)` result that changes
nothing. Each flash message is a value in the result.
`@login_required` becomes the precondition that the acting user exists.
`close_listing` has no such decorator, so its requester is an
`Option<UserId>`, and an anonymous requester (`None`) is never the owner.

Behaviours of the code the model keeps:

- `add_comment` shows "Comment cannot be empty" for a blank comment but
  still stores it with empty text (views.py:182-190). `AddComment` appends
  the comment and returns `Stored(true)` when that message was raised.
- A listing's starting bid must be above zero when created through the form
  (views.py:56), not merely non-negative. The column default is 0.
- The order `order_by("-amount").first()` gives to equal amounts is left to
  the database. `HighestBid` picks the most recent one. In a sound ledger,
  where each listing's bids strictly increase, `HighestIsLatest` proves the
  highest bid is the most recent one, so the tie-break never matters.
- `place_bid` checks neither `is_active` nor ownership. A bid on a closed
  listing is accepted and does not change the recorded winner.

## Model

| member | source | states |
|---|---|---|
| Text.Strip | auctions/views.py:39-40 | the stripped text is a slice of the input with only white space around it, and it neither starts nor ends with white space |
| Text.StripEmptyIffBlank | auctions/views.py:47-50 | a stripped field is empty exactly when the raw field is all white space |
| Text.StripIdempotent | auctions/views.py:178 | stripping a stripped text changes nothing |
| Models.NewListing | auctions/models.py:14-23 | a created listing keeps the given fields, is active and has no winner |
| Models.DeleteCategory | auctions/models.py:18 | deleting a category removes exactly that category and keeps every listing; those that referred to it get no category, and nothing else changes |
| Models.DeleteListing | auctions/models.py:28-39 | deleting a listing removes exactly its bids and comments and removes it from every watch list. Every other bid and comment survives as many times as it occurred, and other rows are unchanged |
| Models.FilterCounts | auctions/models.py:29-39 | a cascade keeps each surviving bid or comment row as many times as it occurs, and drops every deleted one |
| Models.DeleteUser | auctions/models.py:21-38 | deleting a user removes the listings they own with their bids and comments, and removes the user's own bids and comments. Every other bid and comment survives as many times as it occurred. Listings they won survive with no winner |
| Models.DeleteCategoryKeepsConsistent | auctions/models.py:18 | SET_NULL on a category leaves no dangling reference |
| Models.DeleteListingKeepsConsistent | auctions/models.py:28-39 | the listing cascade leaves no dangling reference |
| Models.DeleteUserKeepsConsistent | auctions/models.py:21-38 | the user cascade and the SET_NULL on winners leave no dangling reference |
| Bidding.HighestBid | auctions/views.py:146 | the lookup finds a bid of the listing with the maximum amount, and finds none only when the listing has no bids |
| Bidding.CurrentPrice | auctions/views.py:145-151 | the price is the starting bid when the listing has no bids, and otherwise the maximum amount bid on it |
| Bidding.HighestIsLatest | auctions/views.py:154-167 | in a ledger built by accepting only higher bids, the highest bid of a listing is its most recent one |
| Bidding.PriceAtLeastStart | auctions/views.py:148-151 | while every bid is above the starting bid, the price never drops below the starting bid |
| Bidding.AcceptedBidSetsPrice | auctions/views.py:159-167 | an accepted bid becomes the listing's highest bid and its new price |
| Bidding.BidLeavesOtherPrices | auctions/views.py:163-167 | a bid on one listing does not change another listing's price |
| Bidding.BidLeavesOtherListings | auctions/views.py:163-167 | the same, for every other listing at once |
| Bidding.AcceptedBidKeepsSound | auctions/views.py:159-167 | appending a bid above the current price keeps the database invariant, including the strictly increasing ledger |
| Bidding.Closed | auctions/views.py:199-206 | a closed listing is inactive; with bids its winner is the bidder of a maximum-amount bid, without bids the winner is unchanged; no other field changes |
| Bidding.ListingRewriteKeepsRefs | auctions/views.py:199-206 | saving a listing whose references exist and whose starting bid is unchanged keeps referential integrity and the bids-above-start rule |
| Bidding.CloseKeepsWinners | auctions/views.py:199-206 | after a close every winner is a bidder on a closed listing |
| Bidding.CloseKeepsSound | auctions/views.py:199-206 | closing keeps the database invariant |
| Bidding.NewListingKeepsSound | auctions/views.py:68-75 | inserting a fresh listing without a winner keeps the database invariant |
| Bidding.FilterKeepsLedgerIncreasing | auctions/models.py:29-30 | removing bids by a cascade keeps each listing's ledger strictly increasing |
| Bidding.DeleteCategoryKeepsSound | auctions/models.py:18 | deleting a category keeps the database invariant |
| Bidding.DeleteListingKeepsSound | auctions/models.py:28-39 | deleting a listing keeps the database invariant |
| Bidding.DeleteUserKeepsSound | auctions/models.py:21-38 | deleting a user keeps the database invariant; a surviving winner still has a bid on the listing |
| Forms.CheckBid | auctions/views.py:153-170 | a bid is accepted exactly when the field is present, non-empty, parses, and is strictly above the current price; otherwise the reason is "required", "not a number", or "too low", checked in that order |
| Forms.StartBidViolation | auctions/views.py:51-59 | the starting bid passes exactly when present, non-empty, parsed and above zero |
| Forms.ListingViolations | auctions/views.py:46-59 | every violated rule of the listing form is reported, each exactly when its condition holds, in the order the checks run |
| Forms.CheckListing | auctions/views.py:46-62 | the listing form is accepted exactly when no rule is violated, and then yields the parsed starting bid, which is above zero; otherwise it yields the full non-empty violation list |
| Views.Toggle | auctions/views.py:116-122 | the listing's membership flips and every other listing's membership is unchanged |
| Views.ToggleTwice | auctions/views.py:116-122 | toggling twice restores the watch list |
| Views.Marketplace.PlaceBid | auctions/views.py:139-172 | a missing listing changes nothing. Otherwise the outcome is CheckBid against the old price. On success exactly one bid (listing, bidder, amount) is appended, and the price rises to that amount. On refusal the ledger is unchanged. Listings, comments, users and other listings' prices never change. The invariant is kept |
| Views.Marketplace.CloseListing | auctions/views.py:193-210 | a missing listing or a requester who is not the owner (anonymous included) changes nothing. The owner's close stores `Closed` of the listing and returns its winner. Nothing else changes. The invariant is kept |
| Views.Marketplace.ToggleWatchlist | auctions/views.py:113-127 | a missing listing changes nothing. Otherwise only the acting user's watch list changes, by `Toggle`, and the result reports the new membership |
| Views.Marketplace.AddComment | auctions/views.py:174-191 | a missing listing changes nothing. Otherwise exactly one comment with the stripped text is appended, also when that text is empty, and the result is `Stored(w)`, where `w` says whether the empty-comment message was raised |
| Views.Marketplace.CreateListing | auctions/views.py:35-76 | a form with violations returns all of them and creates nothing. A missing category creates nothing. Otherwise exactly one listing is created under a fresh key, from the stripped title and description, the parsed starting bid and the acting user as owner, active and with no winner. The invariant is kept |
| Views.Marketplace.InsertListing | auctions/views.py:68-75 | the insert stores the listing under the next key, which was unused, and changes no other table |
| Scenarios.BlankTitleForm | auctions/views.py:47-48 | a form with a blank title, a description and a valid starting bid reports exactly the title violation |
| Scenarios.BobBidsFifteen | auctions/views.py:154-167 | on a listing starting at 10.00 with no bids, a bid of 15.00 is appended and the price becomes 15.00 |
| Scenarios.CarolBidsTwelve | auctions/views.py:159-160 | at a price of 15.00, a bid of 12.00 is refused and the ledger is unchanged |
| Scenarios.CarolBidsTwenty | auctions/views.py:159-167 | at a price of 15.00, a bid of 20.00 is appended whatever the listing's state |
| Scenarios.AliceClosesAfterTwoBids | auctions/views.py:199-206 | after bids of 15.00 and 20.00, the owner's close deactivates the listing and makes the 20.00 bidder the winner |
| Scenarios.AliceClosesAfterOneBid | auctions/views.py:199-206 | after one bid, the owner's close makes that bidder the winner |

## Left out

- Page rendering and read-only queries (`index`, `category_page`, `listing`,
  `watchlist`): they only render data.
- Authentication views (`login_view`, `logout_view`, `register`): they wrap
  Django's `authenticate`, `login` and `create_user`. No operation creates
  users or categories. A `Marketplace` starts from any sound database.
- URL routing (`auctions/urls.py`), redirects and the flash-message store.
  Flash messages are result values. The model assumes no messages are left
  over from an earlier request when `create_listing` checks for them.
- HTTP method checks. A non-POST `place_bid`, `add_comment` or
  `create_listing` does nothing or only renders. `close_listing` and
  `watchlist_toggle` have no method check and act on any method, GET
  included.
- Decimal parsing: it is the `parse` parameter. Amounts with more than two
  decimal places, and the database's rounding or rejection of them, are
  outside the model.
- Column bounds: no view checks the 30-character title limit or the
  10-digit amount limit. Whether the database rejects an oversized value
  depends on the backend. `Models.FitsTitleColumn` and
  `Models.FitsAmountColumn` record the bounds, but no operation enforces them.
- Missing form fields: `.strip()` on a missing `title`, `description` or
  `add_comment` field raises `AttributeError`. The model takes these fields as
  strings.
- A non-numeric category id raises `ValueError`. The model takes
  `Option<CategoryId>`, where None stands for an empty field.
- `image_url` is stored as given. URL validation does not run on
  `objects.create`.
- The race between two concurrent bids: each view is atomic in the model.
- Timestamps (`created_at`, `Bid.timestamp`, `Comment.timestamp`), the
  display order of comments, and the `__str__` methods.
- Deletions are functions over `Tables` and not `Marketplace` methods. No view
  deletes anything; the database applies these rules.
- Default field values that no view relies on: `DefaultStartBid` (0) and
  `DefaultCommentText` (""). The views always pass both fields.
