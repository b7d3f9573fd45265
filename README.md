# Order lifecycle and card check of the h3-travel booking backend

This project models the two parts of the h3-travel backend that hold real logic:

- **The card-number check** (`backend/utils/luhn.go`). It is the mod-10 "double-add-double" formula of ISO/IEC 7812-1, Annex B. Module `Luhn` defines the check as a recursive specification, `LuhnValid`. The weighted sum `LuhnSum` is taken from the left, and the digit at offset k from the right is doubled iff k is odd. The method `ValidateCardNumber` is the source's right-to-left loop, with `sum` and `alt`. Its loop invariants prove that it returns exactly `LuhnValid`. The card is a sequence of bytes because the Go code indexes a string by byte.
- **The order lifecycle** (`backend/controllers/order_controller.go`). Module `Orders` holds the offer and order tables as maps, plus the next order id. The pure functions `Place`, `Cancel` (with `CancelRequest` reading the path segment), `GetUserOrders` and `RemoveOffer` give each handler's effect as one atomic step on a `Db` value. The class `Store` holds the same tables as mutable fields. Its methods `CreateOrder` and `CancelOrder` update the fields in place, as the handlers do, and are proved equal to `Place` and `CancelRequest`. The handlers' HTTP responses become a `Result` whose errors are `InvalidInput`, `InvalidCard`, `NotFound`, `Unavailable`, `InvalidState`, `Unauthenticated` and `StorageError`.

Decisions that follow the code:

- The controller uses `Voyage`/`VoyageID` and the models use `Travel`/`TravelID`. Both are one `Offer` entity here. Likewise the end-to-end test posts the key `voyage_id` while `CreateOrderInput` declares the tag `travel_id`; the model treats both as the one offer-id field the controller reads.
- Stock is Go's `int`, 64 bits wide (`Int64`). Placement decrements only a stock of at least 1, so it cannot wrap. The restock on cancel is `Stock+1`, which wraps from the largest int to the most negative one (`Inc64`). Order and user ids are unbounded `nat`s: the ids are `uint` and would wrap only after 2^64 inserts.
- `CancelOrder` reads the order id from the path as text. A string of decimal digits names that id (`DecimalValue`), and the decimal text of every id names that id (`DecimalRoundTrip`). Any other string matches no row and gives NotFound.
- `CreateOrder` and `CancelOrder` read the caller with gin's `GetUint`, which gives 0 when the request carries no identity. The model does the same (`UserId`). Only `GetUserOrders` answers `Unauthenticated`.
- The `binding:"required"` tags on `CreateOrderInput` reject an offer id of 0 and an empty card before the card check runs. The model reports this as `InvalidInput` (400). So an empty card, which the card check alone accepts, never reaches it through this handler.
- Deleting an offer is a soft delete that hides the row from every lookup. A deleted offer is therefore absent from `offers`. `CancelOrder` ignores the failed lookup. It still marks the order cancelled and answers success, and the restock has no row to update.
- The code inserts the order first and decrements the stock afterwards, with no transaction. A design where stock is reserved inside a transaction is not what the code does. The model follows the code: a failed insert leaves the stock alone, and the decrement and the status save always succeed.
- Nothing in the code keeps stock non-negative. The admin path can store any value. The model proves the conditional fact: if no stock is negative, placing never makes one negative, and cancelling makes one negative exactly when it restocks an offer holding the largest int.

## Model

| member | source | states |
|---|---|---|
| `Luhn.ValidateCardNumber` | backend/utils/luhn.go:3-24 | The right-to-left loop returns true exactly when every byte is a digit and the weighted sum is a multiple of 10 (`LuhnValid`). |
| `Luhn.Contribution` | backend/utils/luhn.go:13-19 | A digit contributes between 0 and 9. An undoubled digit contributes itself. |
| `Luhn.ContributionIsDigitSum` | backend/utils/luhn.go:15-18 | A doubled digit contributes the sum of the decimal digits of its double, which is why 9 is subtracted above 9. |
| `Luhn.LuhnSumBound` | backend/utils/luhn.go:13-20 | The weighted sum of an all-digit string lies between 0 and 9 times its length. |
| `Luhn.NonDigitRejected` | backend/utils/luhn.go:9-12 | A byte outside '0'..'9' at any position makes the check fail. |
| `Luhn.EmptyAccepted` | backend/utils/luhn.go:4-23 | The empty string passes, because its sum is 0. |
| `Luhn.FullWidthDigitRejected` | backend/utils/luhn.go:9-11 | The three UTF-8 bytes of a full-width digit fail the check wherever they appear, because indexing is by byte. |
| `Luhn.LuhnSumAppend` | backend/utils/luhn.go:14-21 | Appending a digit on the right adds exactly its value: the last digit is never doubled, and the earlier digits keep their weights. |
| `Luhn.LuhnSumConcat` | backend/utils/luhn.go:14-21 | Appending an even number of digits keeps every earlier digit's doubling, so the weighted sums add. |
| `Luhn.SingleDigitErrorDetected` | backend/utils/luhn.go:13-23 | Replacing any one digit of a passing number by a different digit makes it fail. |
| `Luhn.CheckDigitExistsUnique` | backend/utils/luhn.go:13-23 | Every all-digit payload has exactly one check digit that makes it pass. |
| `Luhn.Card4242Accepted` | backend/tests/order_controller_test.go:57-60 | "4242424242424242", the card of the mocked order test, passes. |
| `Luhn.Card4111Accepted` | backend/tests/order_test.go:32-35 | "4111111111111111", the card of the end-to-end order test, passes. |
| `Luhn.Card4241Rejected` | backend/utils/luhn.go:23 | "4242424242424241" fails: its weighted sum is 79. |
| `Luhn.LettersRejected` | backend/utils/luhn.go:9-12 | "abc123" fails. |
| `Orders.Inc64` | backend/controllers/order_controller.go:124 | Go's `Stock+1` on a 64-bit int: the result is the one 64-bit value congruent to stock + 1 modulo 2^64, and it is stock + 1 below the largest int. |
| `Orders.UserId` | backend/controllers/order_controller.go:53 | The caller's id is the one the request carries, or 0 when it carries none, as gin's `GetUint` gives. |
| `Orders.DecimalValue` | backend/controllers/order_controller.go:105-108 | A one-digit path names the order with that digit's value. |
| `Orders.DecimalText` | backend/controllers/order_controller.go:105-108 | The decimal text of an id is a non-empty string of decimal digits, so it is a path that names an order. |
| `Orders.DecimalRoundTrip` | backend/controllers/order_controller.go:105-108 | Reading back the decimal text of any id gives that id. |
| `Orders.CancelByDecimalText` | backend/controllers/order_controller.go:105-108 | A cancel request whose path is the decimal text of id n cancels order n, for every n. |
| `Orders.Place` | backend/controllers/order_controller.go:26-67 | A refused placement leaves the database unchanged. A successful one needs a valid card and an active offer with at least one unit. |
| `Orders.MissingInputRefused` | backend/controllers/order_controller.go:28-31 | An offer id of 0 or an empty card gives InvalidInput, whatever the tables hold, and nothing changes. |
| `Orders.InvalidCardRefused` | backend/controllers/order_controller.go:33-37 | A card that fails the check gives InvalidCard before any offer lookup, even for an unknown offer, and nothing changes. |
| `Orders.UnknownOfferRefused` | backend/controllers/order_controller.go:40-44 | An unknown or deleted offer gives NotFound, and nothing changes. |
| `Orders.UnavailableOfferRefused` | backend/controllers/order_controller.go:46-49 | With a valid card, an offer with stock at or below 0, or one that is inactive, gives Unavailable, and nothing changes. |
| `Orders.FailedInsertKeepsStock` | backend/controllers/order_controller.go:58-61 | A failed order insert gives StorageError, and the stock is not decremented. |
| `Orders.PlaceSucceeds` | backend/controllers/order_controller.go:52-66 | On success there is exactly one new order, with a fresh id, the caller, the requested offer and status Paid. That offer's stock is one less. Every other offer and order is unchanged. |
| `Orders.PlacePreservesValid` | backend/controllers/order_controller.go:58-61 | Order ids stay at least 1 and below the next id, so each insert gets a fresh id. |
| `Orders.StockStaysNonNegative` | backend/controllers/order_controller.go:46-124 | If no offer has negative stock, placing does not create one. Cancelling creates one exactly when it succeeds and restocks an offer holding the largest int. |
| `Orders.RestockWrapsAtMax` | backend/controllers/order_controller.go:118-124 | Cancelling a paid order whose offer holds the largest int succeeds and leaves that offer at the most negative int. |
| `Orders.LastUnitSoldOnce` | backend/controllers/order_controller.go:46-64 | Once a placement takes an offer's only unit, stock is 0, and the next placement on it, by anyone with a valid card, gives Unavailable. |
| `Orders.Cancel` | backend/controllers/order_controller.go:103-127 | A refused cancel leaves the database unchanged. A successful one was on a paid order owned by the caller. |
| `Orders.CancelRequest` | backend/controllers/order_controller.go:105-111 | A path that is not a decimal id gives NotFound and changes nothing. A decimal path cancels the order it names. |
| `Orders.CancelByOtherUserRefused` | backend/controllers/order_controller.go:104-111 | An order that is absent or owned by someone else gives NotFound, and nothing changes. |
| `Orders.CancelOfCancelledRefused` | backend/controllers/order_controller.go:113-116 | Cancelling an order that is not paid gives InvalidState, and nothing changes. |
| `Orders.CancelSucceeds` | backend/controllers/order_controller.go:118-126 | Cancelling the caller's paid order marks it Cancelled. If its offer still exists, that offer gets one unit back, by Go's wrapping `Stock+1`. Nothing else changes. |
| `Orders.SecondCancelRefused` | backend/controllers/order_controller.go:113-119 | After a successful cancel, a second cancel of the same order gives InvalidState and changes nothing. |
| `Orders.CancelledIsFinal` | backend/controllers/order_controller.go:113-119 | No placement and no cancel changes or removes an order that is already cancelled. |
| `Orders.PlaceThenCancelRestoresStock` | backend/controllers/order_controller.go:118-124 | Placing an order and then cancelling it as the same caller succeeds, and the offer table is left exactly as it was. |
| `Orders.GetUserOrders` | backend/controllers/order_controller.go:79-89 | A request without identity gives Unauthenticated. Otherwise the listing holds exactly the caller's orders, in any status, as stored. |
| `Orders.ListingFollowsLifecycle` | backend/controllers/order_controller.go:52-119 | After a placement the caller's listing shows the new order as Paid. After cancelling it, the listing shows it as Cancelled. |
| `Orders.PlaceLeavesOthersListing` | backend/controllers/order_controller.go:87 | A placement by one user leaves every other user's listing unchanged. |
| `Orders.RemoveOffer` | backend/controllers/travel_controller.go:149 | Deleting an offer removes exactly that id from the offers every lookup sees. Every other offer keeps its value, and the orders and the next id are unchanged. |
| `Orders.CancelAfterOfferRemoved` | backend/controllers/order_controller.go:121-126 | Cancelling an order whose offer was deleted still succeeds and marks it Cancelled. The restock is skipped. |
| `Orders.MockedCreateScenario` | backend/tests/order_controller_test.go:19-75 | User 1 orders offer 2 (stock 10) into an empty order table with card 4242424242424242. This gives order 1, Paid, and leaves stock 9. |
| `Orders.MockedCancelScenario` | backend/tests/order_controller_test.go:119-169 | User 1 cancels their paid order 1 on offer 2 (stock 9) through path "1". This gives order 1, Cancelled, and stock 10. |
| `Orders.EndToEndTestAsWritten` | backend/tests/order_test.go:31-56 | With no identity, the order is stored for user 0, and the listing gives Unauthenticated. The cancel path U+0001, were it to reach the handler, would give NotFound with nothing changed. |
| `Orders.Store.CreateOrder` | backend/controllers/order_controller.go:26-67 | The handler's in-place update equals `Place`. On success it adds the new order under a fresh id and decrements that one offer's stock. On error nothing changes. |
| `Orders.Store.CancelOrder` | backend/controllers/order_controller.go:103-127 | The handler's in-place update, from the path segment, equals `CancelRequest`. On success that order alone becomes Cancelled. On error nothing changes. |
| `Orders.Store.DeleteOffer` | backend/controllers/travel_controller.go:141-154 | The soft delete's effect on the tables equals `RemoveOffer`. |
| `Orders.OrderRoundTrip` | backend/tests/order_test.go:18-57 | The test as its assertions intend, against a store: with the user's identity, a placement with card 4111111111111111 gives order 1 as Paid, the listing is exactly that order, cancelling through path "1" gives it back as Cancelled, and the stock is 10 again. |

## Left out

- Concurrency and transactions. The stock is read and then written with no lock, so concurrent placements can oversell. Each handler is modelled as one atomic step, so this race is not modelled.
- The gorm calls whose errors the code ignores always succeed in the model: the stock decrement, the status save and the restock. Only the order insert can fail, through a boolean parameter.
- HTTP and JSON. Gin binding is reduced to its `required` check, which becomes InvalidInput. Status codes and JSON bodies are not modelled.
- `CancelOrder`'s path is read as a decimal id. The database's own coercion of other text (leading signs, spaces, overflow beyond 64 bits) is not modelled. Such a path gives NotFound.
- Offer title, description and price (`Price float64`, floating point) are not modelled, because the order logic never reads them.
- The admin handlers for creating, listing and updating offers are left out. They are plain CRUD, and `UpdateTravel` relies on gorm's zero-value skipping. Deletion is kept as `RemoveOffer`.
- Sign-up, login, password hashing, JWT signing and role checks are left out. They are foreign crypto and library calls. The caller's identity is a parameter.
- Routing, middleware, server start-up and Swagger are left out.
- Orders.StockStaysNonNegative: this is stated only when no stock is negative beforehand, because nothing in the code stops the admin path from storing a negative stock.

## Findings

| source | as written | input that shows it | evidently intended | confidence | as-written member | corrected member |
|---|---|---|---|---|---|---|
| backend/tests/order_test.go:47-56 | The list and cancel requests carry no identity, and the cancel path is `string(rune(order.ID))`, the character with code 1, not the text "1". | The test itself: order 1 is placed with no identity, then `GET /orders/user` and `PUT /orders/\u0001/cancel` are sent. The listing answers 401 against the 200 asserted at line 50. The cancel request is never built: `httptest.NewRequest` panics on the control character in the URL at line 53. | The owner lists the new order and cancels it by its decimal id, and each request answers 200. | not executed | `Orders.EndToEndTestAsWritten` | `Orders.OrderRoundTrip` |
