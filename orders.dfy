/// The order lifecycle of the booking backend (backend/controllers/order_controller.go):
/// placing an order against an offer's stock, listing a caller's orders and
/// cancelling a paid order. The database is modelled as two tables held in
/// maps plus the next identifier the order table hands out; each handler runs
/// as one atomic step.
module Orders {
  import opened Luhn

  datatype Option<T> = None | Some(value: T)

  /** The identity the authentication layer put in the request, if any. */
  type Caller = Option<nat>

  /** An order's status. The source stores a free string and only ever
      writes "paid" and "cancelled". */
  datatype Status = Paid | Cancelled

  /** Go's `int`, 64 bits wide on the platforms the backend targets. */
  type Int64 = x: int | -0x8000_0000_0000_0000 <= x < 0x8000_0000_0000_0000

  const MinInt64: Int64 := -0x8000_0000_0000_0000
  const MaxInt64: Int64 := 0x7FFF_FFFF_FFFF_FFFF

  /** Go's `x + 1` on an `int`: two's-complement arithmetic, so the result is
      the one 64-bit value congruent to x + 1 modulo 2^64, and the largest
      value wraps to the smallest. */
  function Inc64(x: Int64): (r: Int64)
    ensures (r - (x + 1)) % 0x1_0000_0000_0000_0000 == 0
    ensures x < MaxInt64 ==> r == x + 1
  {
    if x == MaxInt64 then MinInt64 else x + 1
  }

  /** A bookable offer (the source's Travel, also called Voyage). Title,
      description and price play no part in the order logic. */
  datatype Offer = Offer(stock: Int64, active: bool)

  /** An order: who placed it, which offer it refers to, and its status. */
  datatype Order = Order(userId: nat, offerId: nat, status: Status)

  /** The outcomes the handlers report instead of HTTP responses. */
  datatype Error =
    | InvalidInput     // 400: request binding failed (missing offer id or card)
    | InvalidCard      // 400: the card fails the Luhn check
    | NotFound         // 404: no such offer, or no such order owned by the caller
    | Unavailable      // 400: offer out of stock or inactive
    | InvalidState     // 400: the order is not paid
    | Unauthenticated  // 401: no identity in the request
    | StorageError     // 500: the order insert failed

  datatype Result<T> = Ok(value: T) | Err(error: Error)

  /** The offer and order tables, and the identifier the next inserted order gets. */
  datatype Db = Db(offers: map<nat, Offer>, orders: map<nat, Order>, nextId: nat) {

    /** Order identifiers start at 1 and are all below the next one handed out. */
    ghost predicate Valid() {
      nextId >= 1 && forall id :: id in orders ==> 1 <= id < nextId
    }

    /** The inventory invariant: no offer has negative stock. */
    ghost predicate StockNonNegative() {
      forall id :: id in offers ==> offers[id].stock >= 0
    }
  }

  /** The database after a handler ran, and what the handler answered. */
  datatype Step<T> = Step(db: Db, result: Result<T>)

  /** The user id the handlers read with gin's GetUint, which yields 0 when
      the request carries no identity. */
  function UserId(caller: Caller): (r: nat)
    ensures caller == Some(r) || (caller.None? && r == 0)
  {
    if caller.Some? then caller.value else 0
  }

  /** A cancel request names its order by a path segment. A string of decimal
      digits names that id; any other string matches no row. */
  predicate IsDecimal(path: string) {
    path != [] && forall i :: 0 <= i < |path| ==> '0' <= path[i] <= '9'
  }

  /** The number a string of decimal digits denotes. */
  function DecimalValue(path: string): (r: nat)
    requires IsDecimal(path)
    ensures |path| == 1 ==> r == path[0] as int - '0' as int
  {
    var last := path[|path| - 1] as int - '0' as int;
    if |path| == 1 then last else 10 * DecimalValue(path[..|path| - 1]) + last
  }

  /** The decimal text of an id, as a client writes it into the path. */
  function DecimalText(n: nat): (r: string)
    ensures IsDecimal(r)
  {
    var last := ('0' as int + n % 10) as char;
    if n < 10 then [last] else DecimalText(n / 10) + [last]
  }

  /** Reading back the decimal text of an id gives that id. */
  lemma {:induction false} DecimalRoundTrip(n: nat)
    ensures DecimalValue(DecimalText(n)) == n
  {
    if n >= 10 {
      var t := DecimalText(n);
      assert t[..|t| - 1] == DecimalText(n / 10);
      DecimalRoundTrip(n / 10);
    }
  }

  /** CreateOrder: bind the input, check the card, look the offer up, refuse
      an empty or inactive offer, insert a paid order, then decrement the
      offer's stock. The insert is the one storage call whose failure the
      source reports; `insertFails` stands for it. The decrement cannot wrap:
      it runs only on a stock of at least 1. */
  function Place(db: Db, caller: Caller, offerId: nat, card: seq<Byte>, insertFails: bool): (r: Step<(nat, Order)>)
    ensures r.result.Err? ==> r.db == db
    ensures r.result.Ok? ==>
      LuhnValid(card) && offerId in db.offers
      && db.offers[offerId].active && db.offers[offerId].stock >= 1
  {
    if offerId == 0 || card == [] then Step(db, Err(InvalidInput))
    else if !LuhnValid(card) then Step(db, Err(InvalidCard))
    else if offerId !in db.offers then Step(db, Err(NotFound))
    else
      var offer := db.offers[offerId];
      if offer.stock <= 0 || !offer.active then Step(db, Err(Unavailable))
      else if insertFails then Step(db, Err(StorageError))
      else
        var id := db.nextId;
        var order := Order(UserId(caller), offerId, Paid);
        var offers := db.offers[offerId := offer.(stock := offer.stock - 1)];
        Step(Db(offers, db.orders[id := order], id + 1), Ok((id, order)))
  }

  /** GetUserOrders: a request without identity is refused; otherwise the
      answer holds exactly the caller's orders, in any status, as stored. */
  function GetUserOrders(db: Db, caller: Caller): (r: Result<map<nat, Order>>)
    ensures r.Err? <==> caller.None?
    ensures caller.None? ==> r == Err(Unauthenticated)
    ensures r.Ok? ==>
      forall id :: id in r.value <==> id in db.orders && db.orders[id].userId == caller.value
    ensures r.Ok? ==> forall id :: id in r.value ==> r.value[id] == db.orders[id]
  {
    if caller.None? then Err(Unauthenticated)
    else Ok(map id | id in db.orders && db.orders[id].userId == caller.value :: db.orders[id])
  }

  /** CancelOrder: look the order up by id and owner, refuse anything but a
      paid order, mark it cancelled, then give one unit back to its offer.
      When the offer has been deleted the restock finds no row and is skipped.
      The restock is Go's `Stock+1`, which wraps at the largest int. */
  function Cancel(db: Db, caller: Caller, orderId: nat): (r: Step<(nat, Order)>)
    ensures r.result.Err? ==> r.db == db
    ensures r.result.Ok? ==>
      orderId in db.orders && db.orders[orderId].userId == UserId(caller)
      && db.orders[orderId].status == Paid
  {
    var user := UserId(caller);
    if orderId !in db.orders || db.orders[orderId].userId != user then Step(db, Err(NotFound))
    else
      var order := db.orders[orderId];
      if order.status != Paid then Step(db, Err(InvalidState))
      else
        var cancelled := order.(status := Cancelled);
        var offers :=
          if order.offerId in db.offers
          then db.offers[order.offerId := db.offers[order.offerId].(stock := Inc64(db.offers[order.offerId].stock))]
          else db.offers;
        Step(Db(offers, db.orders[orderId := cancelled], db.nextId), Ok((orderId, cancelled)))
  }

  /** The CancelOrder handler from its path segment: a path that is not a
      decimal id matches no order and gives NotFound with nothing changed. */
  function CancelRequest(db: Db, caller: Caller, path: string): (r: Step<(nat, Order)>)
    ensures !IsDecimal(path) ==> r == Step(db, Err(NotFound))
    ensures IsDecimal(path) ==> r == Cancel(db, caller, DecimalValue(path))
  {
    if IsDecimal(path) then Cancel(db, caller, DecimalValue(path)) else Step(db, Err(NotFound))
  }

  /** A request whose path is the decimal text of an id cancels that id. */
  lemma CancelByDecimalText(db: Db, caller: Caller, n: nat)
    ensures CancelRequest(db, caller, DecimalText(n)) == Cancel(db, caller, n)
  {
    DecimalRoundTrip(n);
  }

  /** DeleteTravel is a soft delete: the row disappears from every lookup. */
  function RemoveOffer(db: Db, offerId: nat): (r: Db)
    ensures offerId !in r.offers
    ensures forall id :: id in r.offers <==> id in db.offers && id != offerId
    ensures forall id :: id in r.offers ==> r.offers[id] == db.offers[id]
    ensures r.orders == db.orders && r.nextId == db.nextId
  {
    db.(offers := db.offers - {offerId})
  }

  // ---------------------------------------------------------------------
  // Properties of the lifecycle
  // ---------------------------------------------------------------------

  /** Request binding is checked first: a missing offer id or card is refused
      whatever the tables hold. */
  lemma MissingInputRefused(db: Db, caller: Caller, offerId: nat, card: seq<Byte>, insertFails: bool)
    requires offerId == 0 || card == []
    ensures Place(db, caller, offerId, card, insertFails) == Step(db, Err(InvalidInput))
  {
  }

  /** A card that fails the check is refused before the offer is looked up,
      so even an unknown offer gives InvalidCard, and nothing changes. */
  lemma InvalidCardRefused(db: Db, caller: Caller, offerId: nat, card: seq<Byte>, insertFails: bool)
    requires offerId != 0 && card != [] && !LuhnValid(card)
    ensures Place(db, caller, offerId, card, insertFails) == Step(db, Err(InvalidCard))
  {
  }

  /** An unknown (or deleted) offer gives NotFound and nothing changes. */
  lemma UnknownOfferRefused(db: Db, caller: Caller, offerId: nat, card: seq<Byte>, insertFails: bool)
    requires offerId != 0 && card != [] && LuhnValid(card) && offerId !in db.offers
    ensures Place(db, caller, offerId, card, insertFails) == Step(db, Err(NotFound))
  {
  }

  /** With a valid card, an offer without stock or switched off gives
      Unavailable and nothing changes. */
  lemma UnavailableOfferRefused(db: Db, caller: Caller, offerId: nat, card: seq<Byte>, insertFails: bool)
    requires offerId != 0 && card != [] && LuhnValid(card) && offerId in db.offers
    requires db.offers[offerId].stock <= 0 || !db.offers[offerId].active
    ensures Place(db, caller, offerId, card, insertFails) == Step(db, Err(Unavailable))
  {
  }

  /** A failed insert gives StorageError and leaves the stock alone. */
  lemma FailedInsertKeepsStock(db: Db, caller: Caller, offerId: nat, card: seq<Byte>)
    requires offerId != 0 && card != [] && LuhnValid(card) && offerId in db.offers
    requires db.offers[offerId].stock >= 1 && db.offers[offerId].active
    ensures Place(db, caller, offerId, card, true) == Step(db, Err(StorageError))
  {
  }

  /** A successful placement adds exactly one order, with a fresh id, the
      caller as owner, the requested offer and status paid; that offer loses
      one unit of stock and every other offer and order is unchanged. */
  lemma PlaceSucceeds(db: Db, caller: Caller, offerId: nat, card: seq<Byte>)
    requires db.Valid()
    requires offerId != 0 && card != [] && LuhnValid(card) && offerId in db.offers
    requires db.offers[offerId].stock >= 1 && db.offers[offerId].active
    ensures var r := Place(db, caller, offerId, card, false);
      r.result.Ok? && r.result.value.0 !in db.orders
      && r.result.value.1 == Order(UserId(caller), offerId, Paid)
      && r.db.orders.Keys == db.orders.Keys + {r.result.value.0}
      && r.db.orders[r.result.value.0] == r.result.value.1
      && (forall id :: id in db.orders ==> r.db.orders[id] == db.orders[id])
      && r.db.offers.Keys == db.offers.Keys
      && r.db.offers[offerId].stock == db.offers[offerId].stock - 1
      && r.db.offers[offerId].active
      && (forall id :: id in db.offers && id != offerId ==> r.db.offers[id] == db.offers[id])
  {
  }

  /** Placing keeps identifiers well formed. */
  lemma PlacePreservesValid(db: Db, caller: Caller, offerId: nat, card: seq<Byte>, insertFails: bool)
    requires db.Valid()
    ensures Place(db, caller, offerId, card, insertFails).db.Valid()
  {
  }

  /** Whether cancelling this order would restock an offer that holds the
      largest int. */
  ghost predicate RestocksAtMax(db: Db, orderId: nat) {
    orderId in db.orders && db.orders[orderId].offerId in db.offers
    && db.offers[db.orders[orderId].offerId].stock == MaxInt64
  }

  /** Placement never drives stock below zero: it only succeeds on an offer
      with at least one unit. Cancelling keeps stock non-negative exactly
      when it does not restock an offer holding the largest int, where Go's
      `Stock+1` wraps to the most negative value. */
  lemma StockStaysNonNegative(db: Db, caller: Caller, offerId: nat, orderId: nat, card: seq<Byte>, insertFails: bool)
    requires db.StockNonNegative()
    ensures Place(db, caller, offerId, card, insertFails).db.StockNonNegative()
    ensures var r := Cancel(db, caller, orderId);
      r.db.StockNonNegative() <==> !(r.result.Ok? && RestocksAtMax(db, orderId))
  {
    var r := Cancel(db, caller, orderId);
    if r.result.Ok? && RestocksAtMax(db, orderId) {
      var o := db.orders[orderId].offerId;
      assert r.db.offers[o].stock == MinInt64;
    }
  }

  /** The restock wraps: cancelling a paid order on an offer that holds the
      largest int succeeds and leaves that offer with the most negative one. */
  lemma RestockWrapsAtMax(db: Db, caller: Caller, orderId: nat)
    requires orderId in db.orders && db.orders[orderId].userId == UserId(caller)
    requires db.orders[orderId].status == Paid
    requires RestocksAtMax(db, orderId)
    ensures var r := Cancel(db, caller, orderId);
      r.result.Ok? && r.db.offers[db.orders[orderId].offerId].stock == MinInt64
  {
  }

  /** The last unit is sold once: after a placement takes an offer's only
      unit, the next placement on it, by anyone, is refused as Unavailable
      and the stock stays at zero. */
  lemma LastUnitSoldOnce(db: Db, a: Caller, b: Caller, offerId: nat, card1: seq<Byte>, card2: seq<Byte>, insertFails: bool)
    requires offerId in db.offers && db.offers[offerId].stock == 1
    requires Place(db, a, offerId, card1, false).result.Ok?
    requires card2 != [] && LuhnValid(card2)
    ensures var db1 := Place(db, a, offerId, card1, false).db;
      db1.offers[offerId].stock == 0
      && Place(db1, b, offerId, card2, insertFails) == Step(db1, Err(Unavailable))
  {
  }

  /** Only the owner can reach an order: anyone else gets NotFound, exactly
      as for an order that does not exist, and nothing changes. */
  lemma CancelByOtherUserRefused(db: Db, caller: Caller, orderId: nat)
    requires orderId !in db.orders || db.orders[orderId].userId != UserId(caller)
    ensures Cancel(db, caller, orderId) == Step(db, Err(NotFound))
  {
  }

  /** Only a paid order can be cancelled; a cancelled one gives InvalidState
      and nothing changes. */
  lemma CancelOfCancelledRefused(db: Db, caller: Caller, orderId: nat)
    requires orderId in db.orders && db.orders[orderId].userId == UserId(caller)
    requires db.orders[orderId].status == Cancelled
    ensures Cancel(db, caller, orderId) == Step(db, Err(InvalidState))
  {
  }

  /** Cancelling the owner's paid order marks it cancelled, gives one unit
      back to its offer if the offer still exists (with Go's 64-bit
      wrap-around), and changes nothing else. */
  lemma CancelSucceeds(db: Db, caller: Caller, orderId: nat)
    requires orderId in db.orders && db.orders[orderId].userId == UserId(caller)
    requires db.orders[orderId].status == Paid
    ensures var r := Cancel(db, caller, orderId);
      var o := db.orders[orderId];
      r.result == Ok((orderId, o.(status := Cancelled)))
      && r.db.orders == db.orders[orderId := o.(status := Cancelled)]
      && r.db.nextId == db.nextId
      && r.db.offers.Keys == db.offers.Keys
      && (o.offerId in db.offers ==>
            r.db.offers[o.offerId] == db.offers[o.offerId].(stock := Inc64(db.offers[o.offerId].stock)))
      && (forall id :: id in db.offers && id != o.offerId ==> r.db.offers[id] == db.offers[id])
  {
  }

  /** A second cancel of the same order fails with InvalidState and leaves
      the stock where the first cancel put it. */
  lemma SecondCancelRefused(db: Db, caller: Caller, orderId: nat)
    requires Cancel(db, caller, orderId).result.Ok?
    ensures var db1 := Cancel(db, caller, orderId).db;
      Cancel(db1, caller, orderId) == Step(db1, Err(InvalidState))
  {
  }

  /** Status only moves forward: no handler turns a cancelled order back
      into a paid one, or removes an order. */
  lemma CancelledIsFinal(db: Db, caller: Caller, offerId: nat, orderId: nat, card: seq<Byte>, insertFails: bool, id: nat)
    requires db.Valid()
    requires id in db.orders && db.orders[id].status == Cancelled
    ensures var p := Place(db, caller, offerId, card, insertFails).db;
      id in p.orders && p.orders[id] == db.orders[id]
    ensures var c := Cancel(db, caller, orderId).db;
      id in c.orders && c.orders[id] == db.orders[id]
  {
  }

  /** Place then cancel is a round trip on the inventory: the new order can
      be cancelled by the same caller and every offer's stock is back where
      it started. */
  lemma PlaceThenCancelRestoresStock(db: Db, caller: Caller, offerId: nat, card: seq<Byte>)
    requires db.Valid()
    requires Place(db, caller, offerId, card, false).result.Ok?
    ensures var p := Place(db, caller, offerId, card, false);
      var c := Cancel(p.db, caller, p.result.value.0);
      c.result.Ok? && c.result.value.1.status == Cancelled
      && c.db.offers == db.offers
  {
  }

  /** After a placement, the caller's listing holds the new order as paid;
      after cancelling it, the listing shows it as cancelled. */
  lemma ListingFollowsLifecycle(db: Db, user: nat, offerId: nat, card: seq<Byte>)
    requires db.Valid()
    requires Place(db, Some(user), offerId, card, false).result.Ok?
    ensures var p := Place(db, Some(user), offerId, card, false);
      var id := p.result.value.0;
      var c := Cancel(p.db, Some(user), id);
      GetUserOrders(p.db, Some(user)).value[id] == Order(user, offerId, Paid)
      && GetUserOrders(c.db, Some(user)).value[id] == Order(user, offerId, Cancelled)
  {
  }

  /** A placement by one user leaves every other user's listing unchanged. */
  lemma PlaceLeavesOthersListing(db: Db, caller: Caller, other: nat, offerId: nat, card: seq<Byte>, insertFails: bool)
    requires db.Valid() && other != UserId(caller)
    ensures GetUserOrders(Place(db, caller, offerId, card, insertFails).db, Some(other))
         == GetUserOrders(db, Some(other))
  {
    var p := Place(db, caller, offerId, card, insertFails);
    if p.result.Ok? {
      assert GetUserOrders(p.db, Some(other)).value == GetUserOrders(db, Some(other)).value;
    }
  }

  /** Cancelling an order whose offer was deleted still succeeds; the restock
      is skipped, so the offer table is left as it was. */
  lemma CancelAfterOfferRemoved(db: Db, caller: Caller, orderId: nat)
    requires orderId in db.orders && db.orders[orderId].userId == UserId(caller)
    requires db.orders[orderId].status == Paid
    ensures var d := RemoveOffer(db, db.orders[orderId].offerId);
      var c := Cancel(d, caller, orderId);
      c.result.Ok? && c.db.offers == d.offers
      && c.db.orders[orderId].status == Cancelled
  {
  }

  /** The mocked create test: user 1 orders offer 2 (ten in stock) with card
      4242424242424242 into an empty order table and gets order 1, paid,
      leaving nine in stock. */
  lemma MockedCreateScenario()
    ensures var db := Db(map[2 := Offer(10, true)], map[], 1);
      var p := Place(db, Some(1), 2, AsciiBytes("4242424242424242"), false);
      p.result == Ok((1, Order(1, 2, Paid))) && p.db.offers[2] == Offer(9, true)
  {
    Card4242Accepted();
  }

  /** The mocked cancel test: user 1 cancels their paid order 1 on offer 2
      (nine in stock) through path "1"; the order comes back cancelled and
      the offer holds ten again. */
  lemma MockedCancelScenario()
    ensures var db := Db(map[2 := Offer(9, true)], map[1 := Order(1, 2, Paid)], 2);
      var c := CancelRequest(db, Some(1), "1");
      c.result == Ok((1, Order(1, 2, Cancelled))) && c.db.offers[2] == Offer(10, true)
  {
  }

  /** The end-to-end order test as written: its router sets no identity, so
      the order is stored for user 0 and the listing is refused as
      Unauthenticated. Its cancel path string(rune(1)) is the one character
      U+0001; building a request with that control character in its URL
      panics before any handler runs. Were that path to reach the handler,
      it would name no order and give NotFound with nothing changed. */
  lemma EndToEndTestAsWritten()
    ensures var db := Db(map[1 := Offer(10, true)], map[], 1);
      var p := Place(db, None, 1, AsciiBytes("4111111111111111"), false);
      p.result == Ok((1, Order(0, 1, Paid)))
      && GetUserOrders(p.db, None) == Err(Unauthenticated)
      && CancelRequest(p.db, None, [1 as char]) == Step(p.db, Err(NotFound))
  {
    Card4111Accepted();
  }

  // ---------------------------------------------------------------------
  // The store the handlers update in place
  // ---------------------------------------------------------------------

  /** The database as the handlers see it: two tables they update in place
      and the order table's identifier counter. */
  class Store {
    var offers: map<nat, Offer>
    var orders: map<nat, Order>
    var nextId: nat

    /** The tables as a value. */
    function Snapshot(): Db
      reads this
    {
      Db(offers, orders, nextId)
    }

    ghost predicate Valid()
      reads this
    {
      Snapshot().Valid()
    }

    /** A database holding the given offers and no orders. */
    constructor (initial: map<nat, Offer>)
      ensures Valid()
      ensures Snapshot() == Db(initial, map[], 1)
    {
      offers := initial;
      orders := map[];
      nextId := 1;
    }

    /** The CreateOrder handler. */
    method CreateOrder(caller: Caller, offerId: nat, card: seq<Byte>, insertFails: bool) returns (r: Result<(nat, Order)>)
      requires Valid()
      modifies this
      ensures Valid()
      ensures Step(Snapshot(), r) == Place(old(Snapshot()), caller, offerId, card, insertFails)
      ensures r.Err? ==> Snapshot() == old(Snapshot())
      ensures r.Ok? ==> r.value.0 !in old(orders) && orders == old(orders)[r.value.0 := r.value.1]
      ensures r.Ok? ==> offers == old(offers)[offerId := old(offers)[offerId].(stock := old(offers)[offerId].stock - 1)]
    {
      if offerId == 0 || card == [] {
        return Err(InvalidInput);
      }
      var ok := ValidateCardNumber(card);
      if !ok {
        return Err(InvalidCard);
      }
      if offerId !in offers {
        return Err(NotFound);
      }
      var offer := offers[offerId];
      if offer.stock <= 0 || !offer.active {
        return Err(Unavailable);
      }
      var order := Order(UserId(caller), offerId, Paid);
      if insertFails {
        return Err(StorageError);
      }
      var id := nextId;
      orders := orders[id := order];
      nextId := nextId + 1;
      offers := offers[offerId := offer.(stock := offer.stock - 1)];
      return Ok((id, order));
    }

    /** The CancelOrder handler, given the order id's path segment. */
    method CancelOrder(caller: Caller, path: string) returns (r: Result<(nat, Order)>)
      requires Valid()
      modifies this
      ensures Valid()
      ensures Step(Snapshot(), r) == CancelRequest(old(Snapshot()), caller, path)
      ensures r.Err? ==> Snapshot() == old(Snapshot())
      ensures r.Ok? ==> orders == old(orders)[r.value.0 := old(orders)[r.value.0].(status := Cancelled)]
      ensures nextId == old(nextId)
    {
      var user := UserId(caller);
      if !IsDecimal(path) {
        return Err(NotFound);
      }
      var orderId := DecimalValue(path);
      if orderId !in orders || orders[orderId].userId != user {
        return Err(NotFound);
      }
      var order := orders[orderId];
      if order.status != Paid {
        return Err(InvalidState);
      }
      order := order.(status := Cancelled);
      orders := orders[orderId := order];
      if order.offerId in offers {
        var offer := offers[order.offerId];
        offers := offers[order.offerId := offer.(stock := Inc64(offer.stock))];
      }
      return Ok((orderId, order));
    }

    /** The DeleteTravel handler's effect on the order logic. */
    method DeleteOffer(offerId: nat)
      requires Valid()
      modifies this
      ensures Valid()
      ensures Snapshot() == RemoveOffer(old(Snapshot()), offerId)
    {
      offers := offers - {offerId};
    }
  }

  /** The end-to-end order test as its assertions intend, run against the
      store: the requests carry the user's identity and the cancel path is
      the order id in decimal. Placing, listing and cancelling all succeed
      and the stock is back at ten. */
  method OrderRoundTrip(user: nat)
    returns (placed: Result<(nat, Order)>, listing: Result<map<nat, Order>>,
             cancelled: Result<(nat, Order)>, stock: int)
    ensures placed == Ok((1, Order(user, 1, Paid)))
    ensures listing == Ok(map[1 := Order(user, 1, Paid)])
    ensures cancelled == Ok((1, Order(user, 1, Cancelled)))
    ensures stock == 10
  {
    var store := new Store(map[1 := Offer(10, true)]);
    Card4111Accepted();
    placed := store.CreateOrder(Some(user), 1, AsciiBytes("4111111111111111"), false);
    listing := GetUserOrders(store.Snapshot(), Some(user));
    assert listing.value == map[1 := Order(user, 1, Paid)];
    cancelled := store.CancelOrder(Some(user), "1");
    stock := store.offers[1].stock;
  }
}
