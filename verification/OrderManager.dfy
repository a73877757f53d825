/** The back-test order manager: it checks a request, splits a close over today's and yesterday's lots,
    and fills every accepted order in full at its own price. */
module OrderManager {
  import opened Position
  import opened OrderData
  import PM = PositionManager

  /** `requestID` fills the upper half of the 64-bit union it shares with the mask, which is 0. */
  function Key(requestId: uint32): nat {
    requestId * UINT32_RANGE
  }

  datatype State = State(
    acc: Account,
    orders: map<nat, Order>,
    requestId: uint32,
    notified: seq<Order>)

  datatype Outcome = Accepted(requestId: nat) | UnknownRequest

  // ---------- what a close may be filled from ----------

  /** The lots a close in direction `side` is matched with: yesterday's and today's of the other direction. */
  function YstLots(b: Book, side: LongShort): Lots {
    if side.Long? then b.shortYst else b.longYst
  }

  function TodayLots(b: Book, side: LongShort): Lots {
    if side.Long? then b.shortToday else b.longToday
  }

  /** The 32-bit sum a close's quantity is compared with. */
  function Inventory(b: Book, side: LongShort): uint32 {
    (TotalQty(YstLots(b, side)) + TotalQty(TodayLots(b, side))) % UINT32_RANGE
  }

  function Check(mult: Multipliers, acc: Account, req: Request): ErrorCode
    requires IsSecurity(req.kind) || IsFuture(req.kind)
  {
    var b := BookOf(mult, acc, req.inst);
    if IsSecurity(req.kind) then
      if req.longShort.Long? && acc.cash < req.qty as real * req.price then NotEnoughCash
      else if req.longShort.Short? && req.qty > TotalQty(b.longYst) then NotEnoughInventory
      else NoError
    else if req.openClose.Open? || req.longShort.NoLongShort? then NoError
    else if req.qty > Inventory(b, req.longShort) then NotEnoughInventory
    else NoError
  }

  /** The check looks the position up, creating it, on the branches that read it. */
  function AfterCheck(mult: Multipliers, acc: Account, req: Request): Account {
    var looked := if IsSecurity(req.kind) then req.longShort.Short?
                 else !req.openClose.Open? && !req.longShort.NoLongShort?;
    if looked then Touch(mult, acc, req.inst) else acc
  }

  function NewOrder(req: Request, id: nat, orderId: nat, qty: uint32, openClose: OpenClose, error: ErrorCode): Order
    requires IsSecurity(req.kind) || IsFuture(req.kind)
  {
    Order(id, orderId, ExchangeOf(req.kind), req.inst, qty, req.price, 0, 0.0, openClose, req.longShort,
          if error.NoError? then OrderNew else OrderRejected, error)
  }

  /** generateFutureOrder: a close is split over today's lots first, then yesterday's. */
  function FutureOrders(mult: Multipliers, acc: Account, req: Request, id: nat, error: ErrorCode): seq<Order>
    requires IsFuture(req.kind)
  {
    if !error.NoError? || req.openClose.Open? then [NewOrder(req, id, id, req.qty, req.openClose, error)]
    else
      var today := TotalQty(TodayLots(BookOf(mult, acc, req.inst), req.longShort));
      var closeToday := Min(today, req.qty);
      (if today > 0 then [NewOrder(req, id, id, closeToday, CloseToday, error)] else [])
      + (if req.qty - closeToday > 0 then [NewOrder(req, id, id + 1, req.qty - closeToday, CloseYst, error)] else [])
  }

  function AfterGenerate(mult: Multipliers, acc: Account, req: Request, error: ErrorCode): Account {
    if error.NoError? && !req.openClose.Open? then Touch(mult, acc, req.inst) else acc
  }

  // ---------- filling ----------

  function Filled(o: Order): Order {
    o.(filledQty := o.qty, tradePrice := o.price, status := OrderFilled)
  }

  /** Record an order and announce it. */
  function Announce(s: State, o: Order): State {
    s.(orders := s.orders[o.orderId := o], notified := s.notified + [o])
  }

  /** Announce an order and, when it was accepted, fill it and announce it again. */
  function Place(mult: Multipliers, s: State, o: Order): State {
    var announced := Announce(s, o);
    if o.error.NoError? then Announce(announced.(acc := UpdateOrder(mult, s.acc, Filled(o))), Filled(o)) else announced
  }

  function PlaceAll(mult: Multipliers, s: State, orders: seq<Order>): State
    decreases |orders|
  {
    if orders == [] then s else PlaceAll(mult, Place(mult, s, orders[0]), orders[1..])
  }

  function SubmittedOrders(mult: Multipliers, acc: Account, req: Request, id: nat): seq<Order>
    requires IsSecurity(req.kind) || IsFuture(req.kind)
  {
    var error := Check(mult, acc, req);
    if IsSecurity(req.kind) then [NewOrder(req, id, id, req.qty, NoOpenClose, error)]
    else FutureOrders(mult, acc, req, id, error)
  }

  /** The account when the orders of a request are about to be placed: only empty books were added. */
  function BeforePlacing(mult: Multipliers, acc: Account, req: Request): Account
    requires IsSecurity(req.kind) || IsFuture(req.kind)
  {
    var checked := AfterCheck(mult, acc, req);
    if IsFuture(req.kind) then AfterGenerate(mult, checked, req, Check(mult, acc, req)) else checked
  }

  function NextRequest(s: State): State {
    s.(requestId := (s.requestId + 2) % UINT32_RANGE)
  }

  function HandleNew(mult: Multipliers, s: State, req: Request, id: nat): State
    requires IsSecurity(req.kind) || IsFuture(req.kind)
  {
    PlaceAll(mult, s.(acc := BeforePlacing(mult, s.acc, req)), SubmittedOrders(mult, s.acc, req, id))
  }

  function Submit(mult: Multipliers, s: State, req: Request): State {
    if IsSecurity(req.kind) || IsFuture(req.kind) then HandleNew(mult, NextRequest(s), req, Key(s.requestId))
    else NextRequest(s)
  }

  /** A day start: the account is marked to market, and the orders of the day before are dropped. */
  ghost function NextDay(s: State): State {
    s.(acc := StartDay(s.acc), orders := map[])
  }

  /** What generateFutureOrder leaves of the quantity in the caller's request: today's part of a close is taken off. */
  function LeftInRequest(mult: Multipliers, acc: Account, req: Request, error: ErrorCode): uint32 {
    if !error.NoError? || req.openClose.Open? then req.qty
    else req.qty - Min(TotalQty(TodayLots(BookOf(mult, acc, req.inst), req.longShort)), req.qty)
  }

  /** The quantity the caller finds in its request after submitting it. */
  function Remaining(mult: Multipliers, acc: Account, req: Request): uint32 {
    if IsFuture(req.kind) then LeftInRequest(mult, acc, req, Check(mult, acc, req)) else req.qty
  }

  class FakeOrderManager {
    const posMgr: PM.TestPositionManager
    var requests: map<nat, Request>
    var orders: map<nat, Order>
    var requestID: uint32
    var notified: seq<Order>     // what NotifyOrder has announced

    ghost predicate Valid()
      reads this, posMgr
    {
      posMgr.Valid()
    }

    ghost function View(): State
      reads this, posMgr, posMgr.allPositions.Values
    {
      State(posMgr.View(), orders, requestID, notified)
    }

    constructor (posMgr: PM.TestPositionManager)
      requires posMgr.Valid()
      ensures this.posMgr == posMgr && Valid() && View() == State(posMgr.View(), map[], 0, []) && requests == map[]
    {
      this.posMgr := posMgr;
      requests := map[];
      orders, requestID, notified := map[], 0, [];
    }

    /** The position manager's own day start is TestPositionManager.OnStartDay. */
    method OnStartDay()
      modifies this`orders
      ensures View() == old(View()).(orders := map[])
    {
      orders := map[];
    }

    method GenerateRequest() returns (id: nat)
      modifies this`requestID
      ensures id == Key(old(requestID)) && requestID == (old(requestID) + 2) % UINT32_RANGE
    {
      id := Key(requestID);
      requestID := (requestID + 2) % UINT32_RANGE;
    }

    /** The quantity of one queue of the instrument, creating the position when it is missing. */
    method QueryLots(inst: uint32, side: LongShort, today: bool) returns (qty: uint32)
      requires Valid()
      modifies posMgr`allPositions
      ensures Valid() && posMgr.View() == Touch(posMgr.mult, old(posMgr.View()), inst)
      ensures fresh(posMgr.allPositions.Values - old(posMgr.allPositions.Values))
      ensures var b := BookOf(posMgr.mult, old(posMgr.View()), inst);
        qty == TotalQty(if today then TodayLots(b, side) else YstLots(b, side))
    {
      var pos := posMgr.GetPosition(inst);
      var amount;
      if side.Long? {
        qty, amount := pos.GetTotalQty(if today then pos.shortPosition else pos.shortPositionYst);
      } else {
        qty, amount := pos.GetTotalQty(if today then pos.longPosition else pos.longPositionYst);
      }
    }

    method QueryInventory(inst: uint32, side: LongShort) returns (qty: uint32)
      requires Valid()
      modifies posMgr`allPositions
      ensures Valid() && posMgr.View() == Touch(posMgr.mult, old(posMgr.View()), inst)
      ensures fresh(posMgr.allPositions.Values - old(posMgr.allPositions.Values))
      ensures qty == Inventory(BookOf(posMgr.mult, old(posMgr.View()), inst), side)
    {
      hide EmptyBook;
      ghost var acc := posMgr.View();
      var ystQty := QueryLots(inst, side, false);
      TouchTwice(posMgr.mult, acc, inst);
      var todayQty := QueryLots(inst, side, true);
      qty := (ystQty + todayQty) % UINT32_RANGE;
    }

    method CheckNewOrderRequestValid(req: Request) returns (error: ErrorCode)
      requires Valid() && (IsSecurity(req.kind) || IsFuture(req.kind))
      modifies posMgr`allPositions
      ensures Valid() && posMgr.View() == AfterCheck(posMgr.mult, old(posMgr.View()), req)
      ensures fresh(posMgr.allPositions.Values - old(posMgr.allPositions.Values))
      ensures error == Check(posMgr.mult, old(posMgr.View()), req)
    {
      if IsSecurity(req.kind) {
        error := CheckSecurity(req);
      } else {
        error := CheckFuture(req);
      }
    }

    method CheckSecurity(req: Request) returns (error: ErrorCode)
      requires Valid() && IsSecurity(req.kind)
      modifies posMgr`allPositions
      ensures Valid() && posMgr.View() == AfterCheck(posMgr.mult, old(posMgr.View()), req)
      ensures fresh(posMgr.allPositions.Values - old(posMgr.allPositions.Values))
      ensures error == Check(posMgr.mult, old(posMgr.View()), req)
    {
      error := NoError;
      if req.longShort.Long? {
        var needCash := req.qty as real * req.price;
        if posMgr.cash < needCash {
          error := NotEnoughCash;
        }
      } else if req.longShort.Short? {
        var ystQty := QueryLots(req.inst, Short, false);
        if req.qty > ystQty {
          error := NotEnoughInventory;
        }
      }
    }

    method CheckFuture(req: Request) returns (error: ErrorCode)
      requires Valid() && IsFuture(req.kind)
      modifies posMgr`allPositions
      ensures Valid() && posMgr.View() == AfterCheck(posMgr.mult, old(posMgr.View()), req)
      ensures fresh(posMgr.allPositions.Values - old(posMgr.allPositions.Values))
      ensures error == Check(posMgr.mult, old(posMgr.View()), req)
    {
      error := NoError;
      if !req.openClose.Open? && !req.longShort.NoLongShort? {
        var inventory := QueryInventory(req.inst, req.longShort);
        if req.qty > inventory {
          error := NotEnoughInventory;
        }
      }
    }

    method GenerateFutureOrder(req: Request, id: nat, error: ErrorCode)
      returns (result: seq<Order>, left: uint32)
      requires Valid() && IsFuture(req.kind)
      modifies posMgr`allPositions
      ensures Valid() && posMgr.View() == AfterGenerate(posMgr.mult, old(posMgr.View()), req, error)
      ensures fresh(posMgr.allPositions.Values - old(posMgr.allPositions.Values))
      ensures result == FutureOrders(posMgr.mult, old(posMgr.View()), req, id, error)
      ensures left == LeftInRequest(posMgr.mult, old(posMgr.View()), req, error)
    {
      left := req.qty;
      if !error.NoError? || req.openClose.Open? {
        result := [NewOrder(req, id, id, req.qty, req.openClose, error)];
      } else {
        result := [];
        var todayQty := QueryLots(req.inst, req.longShort, true);
        if todayQty > 0 {
          var closeTodayQty := Min(todayQty, left);
          result := result + [NewOrder(req, id, id, closeTodayQty, CloseToday, error)];
          left := left - closeTodayQty;
        }
        if left > 0 {
          result := result + [NewOrder(req, id, id + 1, left, CloseYst, error)];
        }
      }
    }

    method AnnounceOrder(o: Order)
      modifies this`orders, this`notified
      ensures View() == Announce(old(View()), o)
    {
      orders := orders[o.orderId := o];
      notified := notified + [o];
    }

    method UpdatePosition(o: Order)
      requires Valid()
      modifies posMgr`allPositions, posMgr.allPositions.Values
      ensures Valid() && View() == old(View()).(acc := UpdateOrder(posMgr.mult, old(View()).acc, o))
      ensures fresh(posMgr.allPositions.Values - old(posMgr.allPositions.Values))
    {
      posMgr.OnUpdateOrder(o);
    }

    method PlaceOrder(o: Order)
      requires Valid()
      modifies this`orders, this`notified, posMgr`allPositions, posMgr.allPositions.Values
      ensures Valid() && View() == Place(posMgr.mult, old(View()), o)
      ensures fresh(posMgr.allPositions.Values - old(posMgr.allPositions.Values))
    {
      AnnounceOrder(o);
      if o.error.NoError? {
        var filled := o.(filledQty := o.qty, tradePrice := o.price, status := OrderFilled);
        UpdatePosition(filled);
        AnnounceOrder(filled);
      }
    }

    method PlaceOrders(all: seq<Order>)
      requires Valid()
      modifies this`orders, this`notified, posMgr`allPositions, posMgr.allPositions.Values
      ensures Valid() && View() == PlaceAll(posMgr.mult, old(View()), all)
      ensures fresh(posMgr.allPositions.Values - old(posMgr.allPositions.Values))
    {
      var i := 0;
      while i < |all|
        invariant 0 <= i <= |all| && Valid()
        invariant fresh(posMgr.allPositions.Values - old(posMgr.allPositions.Values))
        invariant PlaceAll(posMgr.mult, View(), all[i..]) == PlaceAll(posMgr.mult, old(View()), all)
      {
        PlaceOrder(all[i]);
        i := i + 1;
      }
    }

    method HandleSecurityNew(req: Request, id: nat)
      requires Valid() && IsSecurity(req.kind)
      modifies this`orders, this`notified, posMgr`allPositions, posMgr.allPositions.Values
      ensures Valid() && View() == HandleNew(posMgr.mult, old(View()), req, id)
      ensures fresh(posMgr.allPositions.Values - old(posMgr.allPositions.Values))
    {
      var error := CheckNewOrderRequestValid(req);
      PlaceOrders([NewOrder(req, id, id, req.qty, NoOpenClose, error)]);
    }

    method HandleFutureNew(req: Request, id: nat) returns (left: uint32)
      requires Valid() && IsFuture(req.kind)
      modifies this`orders, this`notified, posMgr`allPositions, posMgr.allPositions.Values
      ensures Valid() && View() == HandleNew(posMgr.mult, old(View()), req, id)
      ensures fresh(posMgr.allPositions.Values - old(posMgr.allPositions.Values))
      ensures left == Remaining(posMgr.mult, old(posMgr.View()), req)
    {
      hide Check, AfterCheck, FutureOrders, LeftInRequest, PlaceAll, BookOf, Touch;
      ghost var acc := posMgr.View();
      var error := CheckNewOrderRequestValid(req);
      CheckShowsSame(posMgr.mult, acc, req, id, error);
      var all;
      all, left := GenerateFutureOrder(req, id, error);
      PlaceOrders(all);
    }

    /** The request is recorded as it came in; `left` is the quantity its caller finds in it afterwards. */
    method SubmitRequest(req: Request) returns (outcome: Outcome, left: uint32)
      requires Valid()
      modifies this, posMgr`allPositions, posMgr.allPositions.Values
      ensures Valid() && View() == Submit(posMgr.mult, old(View()), req)
      ensures fresh(posMgr.allPositions.Values - old(posMgr.allPositions.Values))
      ensures requests == old(requests)[Key(old(requestID)) := req]
      ensures left == Remaining(posMgr.mult, old(posMgr.View()), req)
      ensures outcome == if req.kind.OtherRequest? then UnknownRequest else Accepted(Key(old(requestID)))
    {
      hide HandleNew, Check, LeftInRequest;
      ghost var s := View();
      left := req.qty;
      var id := GenerateRequest();
      requests := requests[id := req];
      assert View() == NextRequest(s) && id == Key(s.requestId);
      if IsSecurity(req.kind) {
        HandleSecurityNew(req, id);
      } else if IsFuture(req.kind) {
        left := HandleFutureNew(req, id);
      } else if req.kind.OtherRequest? {
        return UnknownRequest, left;
      }
      outcome := Accepted(id);
    }
  }

  /** The check creates at most an empty position, which the splitting does not notice. */
  lemma CheckShowsSame(mult: Multipliers, acc: Account, req: Request, id: nat, error: ErrorCode)
    requires IsFuture(req.kind)
    ensures FutureOrders(mult, AfterCheck(mult, acc, req), req, id, error) == FutureOrders(mult, acc, req, id, error)
    ensures LeftInRequest(mult, AfterCheck(mult, acc, req), req, error) == LeftInRequest(mult, acc, req, error)
  {
    TouchTwice(mult, acc, req.inst);
    hide BookOf, Touch, TotalQty;
  }

  lemma TouchTwice(mult: Multipliers, acc: Account, inst: uint32)
    ensures BookOf(mult, Touch(mult, acc, inst), inst) == BookOf(mult, acc, inst)
    ensures Touch(mult, Touch(mult, acc, inst), inst) == Touch(mult, acc, inst)
  {
  }
}
