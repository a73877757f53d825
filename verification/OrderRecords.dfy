/** What the order manager records and announces, request by request and over whole back-tests. */
module OrderRecords {
  import opened Position
  import opened PositionLaws
  import opened OrderData
  import opened OrderManager
  import opened AccountLaws
  import opened Conservation
  import B = Buckets

  /** The exchange each kind of request goes to. */
  predicate GoesTo(kind: RequestType, exchange: Exchange) {
    || (kind.SseNewOrder? && exchange.SSE?)
    || (kind.SzeNewOrder? && exchange.SZE?)
    || (kind.CffexNewOrder? && exchange.CFFEX?)
    || (kind.DceNewOrder? && exchange.DCE?)
    || (kind.ShfeNewOrder? && exchange.SHFE?)
    || (kind.CzceNewOrder? && exchange.CZCE?)
  }

  /** The fields an order takes over from its request. */
  predicate OrderedBy(o: Order, req: Request, id: nat, key: nat) {
    && o.requestId == id && o.orderId == key
    && o.inst == req.inst && o.price == req.price && o.longShort == req.longShort
    && GoesTo(req.kind, o.exchange)
  }

  predicate FilledInFull(o: Order) {
    o.status.OrderFilled? && o.filledQty == o.qty && o.tradePrice == o.price && o.error.NoError?
  }

  predicate TurnedDown(o: Order) {
    o.status.OrderRejected? && o.filledQty == 0 && o.tradePrice == 0.0 && !o.error.NoError?
  }

  /** What is filled of the order under a key. */
  function FilledAt(s: State, key: nat): nat {
    if key in s.orders then s.orders[key].filledQty else 0
  }

  /** An order as it was before its fill. */
  function Unfilled(o: Order): Order {
    o.(filledQty := 0, tradePrice := 0.0, status := OrderNew)
  }

  /** The two announcements of a filled order. */
  function AnnouncedAt(s: State, key: nat): seq<Order> {
    if key in s.orders then [Unfilled(s.orders[key]), s.orders[key]] else []
  }

  // ---------- one or two orders ----------

  lemma PlacedOne(mult: Multipliers, s: State, o: Order)
    requires o.error.NoError?
    ensures var s' := PlaceAll(mult, s, [o]);
      s'.orders == s.orders[o.orderId := Filled(o)] && s'.notified == s.notified + [o, Filled(o)]
  {
    hide UpdateOrder;
    assert [o][1..] == [];
    assert PlaceAll(mult, s, [o]) == PlaceAll(mult, Place(mult, s, o), []);
  }

  lemma PlacedTwo(mult: Multipliers, s: State, o: Order, o': Order)
    requires o.error.NoError? && o'.error.NoError? && o.orderId != o'.orderId
    ensures var s' := PlaceAll(mult, s, [o, o']);
      && s'.orders == s.orders[o.orderId := Filled(o)][o'.orderId := Filled(o')]
      && s'.notified == s.notified + [o, Filled(o), o', Filled(o')]
  {
    hide UpdateOrder;
    assert [o, o'][1..] == [o'];
    PlacedOne(mult, Place(mult, s, o), o');
    assert PlaceAll(mult, s, [o, o']) == PlaceAll(mult, Place(mult, s, o), [o']);
  }

  lemma PlacedNone(mult: Multipliers, s: State)
    ensures PlaceAll(mult, s, []) == s
  {
  }

  lemma PlacedRejected(mult: Multipliers, s: State, o: Order)
    requires !o.error.NoError?
    ensures var s' := PlaceAll(mult, s, [o]);
      s'.orders == s.orders[o.orderId := o] && s'.notified == s.notified + [o] && s'.acc == s.acc
  {
    assert [o][1..] == [];
    assert PlaceAll(mult, s, [o]) == PlaceAll(mult, Place(mult, s, o), []);
  }

  /** The keys of the n-th request are new. */
  lemma NewKeys(s: State, n: nat)
    requires n < HALF_RANGE && KeysInv(s, n)
    ensures Key(s.requestId) !in s.orders && Key(s.requestId) + 1 !in s.orders
  {
    hide Counter, Key;
    KeyOfCounter(n);
  }

  /** Any request but an accepted close: one order under the first key. */
  lemma SingleOrder(mult: Multipliers, acc: Account, req: Request, id: nat)
    requires IsSecurity(req.kind) || IsFuture(req.kind)
    requires !(IsClose(req) && Check(mult, acc, req).NoError?)
    ensures var orders := SubmittedOrders(mult, acc, req, id);
      && |orders| == 1 && orders == [orders[0]] && OrderedBy(orders[0], req, id, id)
      && orders[0].qty == req.qty && orders[0].filledQty == 0 && orders[0].tradePrice == 0.0
      && orders[0].error == Check(mult, acc, req)
      && orders[0].status == (if orders[0].error.NoError? then OrderNew else OrderRejected)
      && (IsFuture(req.kind) ==> orders[0].openClose == req.openClose)
  {
    hide Check, BookOf;
  }

  predicate PartOfClose(o: Order, req: Request, id: nat, key: nat, qty: nat) {
    && OrderedBy(o, req, id, key) && o.qty == qty && o.filledQty == 0 && o.tradePrice == 0.0
    && o.error.NoError? && o.status.OrderNew? && o.openClose == if key == id then CloseToday else CloseYst
  }

  /** An accepted close: an order for today's part and one for the rest, each only where there is something to order. */
  lemma CloseParts(mult: Multipliers, acc: Account, req: Request, id: nat)
    requires IsClose(req) && Check(mult, acc, req).NoError?
    ensures var today := TotalQty(TodayLots(BookOf(mult, acc, req.inst), req.longShort));
      var k := Min(today, req.qty); var orders := SubmittedOrders(mult, acc, req, id);
      && |orders| == (if today > 0 then 1 else 0) + (if req.qty > k then 1 else 0)
      && (today > 0 ==> PartOfClose(orders[0], req, id, id, k))
      && (req.qty > k ==> PartOfClose(orders[|orders| - 1], req, id, id + 1, req.qty - k))
  {
    hide TotalQty, BookOf, Check;
  }

  // ---------- an accepted request ----------

  /** What an accepted request leaves behind: its orders, filled in full at its price, and their announcements. */
  ghost predicate Carried(s: State, s': State, req: Request, id: nat) {
    && (forall k :: k in s.orders ==> k in s'.orders && s'.orders[k] == s.orders[k])
    && (forall k :: k in s'.orders && k !in s.orders ==>
          (k == id || k == id + 1) && OrderedBy(s'.orders[k], req, id, k) && FilledInFull(s'.orders[k]))
    && id !in s.orders && id + 1 !in s.orders
    && FilledAt(s', id) + FilledAt(s', id + 1) == req.qty
    && s'.notified == s.notified + AnnouncedAt(s', id) + AnnouncedAt(s', id + 1)
  }

  /** The open/close flags, and how the quantity of a close is divided. */
  predicate Flagged(s': State, req: Request, id: nat, today: nat) {
    if IsClose(req) then
      && FilledAt(s', id) == Min(today, req.qty) && (id in s'.orders <==> today > 0)
      && (id + 1 in s'.orders <==> req.qty > today)
      && (id in s'.orders ==> s'.orders[id].openClose == CloseToday)
      && (id + 1 in s'.orders ==> s'.orders[id + 1].openClose == CloseYst)
    else
      id in s'.orders && id + 1 !in s'.orders && (IsFuture(req.kind) ==> s'.orders[id].openClose == Open)
  }

  predicate Fresh(o: Order, req: Request, id: nat) {
    && OrderedBy(o, req, id, o.orderId)
    && o.filledQty == 0 && o.tradePrice == 0.0 && o.error.NoError? && o.status.OrderNew?
  }

  lemma CarriedByOne(s: State, s': State, req: Request, id: nat, o: Order)
    requires id !in s.orders && id + 1 !in s.orders && (o.orderId == id || o.orderId == id + 1)
    requires Fresh(o, req, id) && o.qty == req.qty
    requires s'.orders == s.orders[o.orderId := Filled(o)] && s'.notified == s.notified + [o, Filled(o)]
    ensures Carried(s, s', req, id)
  {
    assert Unfilled(Filled(o)) == o;
  }

  lemma CarriedByTwo(s: State, s': State, req: Request, id: nat, o: Order, o': Order)
    requires id !in s.orders && id + 1 !in s.orders && o.orderId == id && o'.orderId == id + 1
    requires Fresh(o, req, id) && Fresh(o', req, id) && o.qty + o'.qty == req.qty
    requires s'.orders == s.orders[id := Filled(o)][id + 1 := Filled(o')]
    requires s'.notified == s.notified + [o, Filled(o), o', Filled(o')]
    ensures Carried(s, s', req, id)
  {
    assert Unfilled(Filled(o)) == o && Unfilled(Filled(o')) == o';
    assert s'.notified == s.notified + [o, Filled(o)] + [o', Filled(o')];
  }

  lemma AcceptedIsCarried(mult: Multipliers, s: State, req: Request, n: nat)
    requires n < HALF_RANGE && KeysInv(s, n)
    requires (IsSecurity(req.kind) || IsFuture(req.kind)) && Check(mult, s.acc, req).NoError?
    ensures Carried(s, Submit(mult, s, req), req, Key(s.requestId))
    ensures Flagged(Submit(mult, s, req), req, Key(s.requestId),
                    TotalQty(TodayLots(BookOf(mult, s.acc, req.inst), req.longShort)))
  {
    hide SubmittedOrders, BeforePlacing, Check, Key, PlaceAll, TotalQty, BookOf, KeysInv, Carried;
    NewKeys(s, n);
    if IsClose(req) {
      CloseIsCarried(mult, s, req);
    } else {
      var id := Key(s.requestId);
      SingleOrder(mult, s.acc, req, id);
      var o := SubmittedOrders(mult, s.acc, req, id)[0];
      PlacedOne(mult, NextRequest(s).(acc := BeforePlacing(mult, s.acc, req)), o);
      CarriedByOne(s, Submit(mult, s, req), req, id, o);
    }
  }

  lemma CloseIsCarried(mult: Multipliers, s: State, req: Request)
    requires Key(s.requestId) !in s.orders && Key(s.requestId) + 1 !in s.orders
    requires IsClose(req) && Check(mult, s.acc, req).NoError?
    ensures Carried(s, Submit(mult, s, req), req, Key(s.requestId))
    ensures Flagged(Submit(mult, s, req), req, Key(s.requestId),
                    TotalQty(TodayLots(BookOf(mult, s.acc, req.inst), req.longShort)))
  {
    hide SubmittedOrders, BeforePlacing, Check, Key, PlaceAll, TotalQty, BookOf, Carried, OrderedBy;
    var id, s' := Key(s.requestId), Submit(mult, s, req);
    var orders := SubmittedOrders(mult, s.acc, req, id);
    var placed := NextRequest(s).(acc := BeforePlacing(mult, s.acc, req));
    CloseParts(mult, s.acc, req, id);
    if |orders| == 2 {
      assert orders == [orders[0], orders[1]];
      KeyOf(orders[0], req, id, id);
      KeyOf(orders[1], req, id, id + 1);
      PlacedTwo(mult, placed, orders[0], orders[1]);
      CarriedByTwo(s, s', req, id, orders[0], orders[1]);
    } else if |orders| == 1 {
      assert orders == [orders[0]];
      KeyOf(orders[0], req, id, if orders[0].openClose.CloseToday? then id else id + 1);
      PlacedOne(mult, placed, orders[0]);
      CarriedByOne(s, s', req, id, orders[0]);
    } else {
      assert orders == [];
      PlacedNone(mult, placed);
      CarriedByNone(s, s', req, id);
    }
  }

  lemma KeyOf(o: Order, req: Request, id: nat, key: nat)
    requires OrderedBy(o, req, id, key)
    ensures o.orderId == key
  {
  }

  lemma CarriedByNone(s: State, s': State, req: Request, id: nat)
    requires id !in s.orders && id + 1 !in s.orders && req.qty == 0
    requires s'.orders == s.orders && s'.notified == s.notified
    ensures Carried(s, s', req, id)
  {
  }

  lemma ReasonOf(mult: Multipliers, acc: Account, req: Request)
    requires (IsSecurity(req.kind) || IsFuture(req.kind)) && !Check(mult, acc, req).NoError?
    ensures Check(mult, acc, req)
         == if IsSecurity(req.kind) && req.longShort.Long? then NotEnoughCash else NotEnoughInventory
  {
  }

  /** A rejected request is recorded as it came in and announced once; nothing is filled. */
  lemma RejectedIsRecorded(mult: Multipliers, s: State, req: Request)
    requires (IsSecurity(req.kind) || IsFuture(req.kind)) && !Check(mult, s.acc, req).NoError?
    ensures var s' := Submit(mult, s, req); var id := Key(s.requestId);
      && id in s'.orders && OrderedBy(s'.orders[id], req, id, id) && TurnedDown(s'.orders[id])
      && s'.orders[id].qty == req.qty
      && s'.orders[id].error
         == (if IsSecurity(req.kind) && req.longShort.Long? then NotEnoughCash else NotEnoughInventory)
      && s'.orders == s.orders[id := s'.orders[id]] && s'.notified == s.notified + [s'.orders[id]]
  {
    hide SubmittedOrders, BeforePlacing, Check, Key, PlaceAll;
    var id := Key(s.requestId);
    SingleOrder(mult, s.acc, req, id);
    ReasonOf(mult, s.acc, req);
    var placed := NextRequest(s).(acc := BeforePlacing(mult, s.acc, req));
    PlacedRejected(mult, placed, SubmittedOrders(mult, s.acc, req, id)[0]);
  }

  // ---------- over a run ----------

  /** Every recorded order is filled in full or turned down: none is left open. */
  ghost predicate Settled(s: State) {
    forall k :: k in s.orders ==> s.orders[k].orderId == k && (FilledInFull(s.orders[k]) || TurnedDown(s.orders[k]))
  }

  lemma {:induction false} PlaceAllSettles(mult: Multipliers, s: State, orders: seq<Order>)
    requires Settled(s)
    requires forall o :: o in orders ==> !o.error.NoError? ==> TurnedDown(o)
    ensures Settled(PlaceAll(mult, s, orders))
    decreases |orders|
  {
    hide UpdateOrder;
    if orders != [] {
      assert orders[0] in orders;
      PlaceAllSettles(mult, Place(mult, s, orders[0]), orders[1..]);
    }
  }

  lemma SubmittedAreNewOrRejected(mult: Multipliers, acc: Account, req: Request, id: nat)
    requires IsSecurity(req.kind) || IsFuture(req.kind)
    ensures forall o :: o in SubmittedOrders(mult, acc, req, id) ==> !o.error.NoError? ==> TurnedDown(o)
  {
    hide Check, BookOf, TotalQty;
  }

  /** Over any back-test from an empty account no recorded order is ever left open. */
  lemma {:induction false} NoOrderLeftOpen(mult: Multipliers, s: State, events: seq<Event>)
    requires Settled(s)
    ensures Settled(RunEvents(mult, s, events))
    decreases |events|
  {
    hide Settled, SubmittedOrders, PlaceAll;
    if events != [] {
      match events[0] {
        case SubmitRequest(req) =>
          if IsSecurity(req.kind) || IsFuture(req.kind) {
            var placed := NextRequest(s).(acc := BeforePlacing(mult, s.acc, req));
            SameOrders(s, placed);
            SubmittedAreNewOrRejected(mult, s.acc, req, Key(s.requestId));
            PlaceAllSettles(mult, placed, SubmittedOrders(mult, s.acc, req, Key(s.requestId)));
          } else {
            SameOrders(s, NextRequest(s));
          }
        case Tick(inst, price) => SameOrders(s, StepEvent(mult, s, events[0]));
        case NewDay => NoOrders(StepEvent(mult, s, events[0]));
      }
      NoOrderLeftOpen(mult, StepEvent(mult, s, events[0]), events[1..]);
    }
  }

  lemma SameOrders(s: State, s': State)
    requires Settled(s) && s'.orders == s.orders
    ensures Settled(s')
  {
  }

  lemma NoOrders(s: State)
    requires s.orders == map[]
    ensures Settled(s)
  {
  }

  lemma {:induction false} RunThen(mult: Multipliers, s: State, events: seq<Event>, e: Event)
    ensures RunEvents(mult, s, events + [e]) == StepEvent(mult, RunEvents(mult, s, events), e)
    decreases |events|
  {
    hide StepEvent;
    if events == [] {
      assert [e][1..] == [] && events + [e] == [e];
    } else {
      assert (events + [e])[1..] == events[1..] + [e];
      RunThen(mult, StepEvent(mult, s, events[0]), events[1..], e);
    }
  }

  /** Whatever happened before, a day starts without orders. */
  lemma DayStartsWithoutOrders(mult: Multipliers, s: State, events: seq<Event>)
    ensures RunEvents(mult, s, events + [NewDay]).orders == map[]
  {
    hide RunEvents;
    RunThen(mult, s, events, NewDay);
  }

  // ---------- executions ----------

  /** Everything executed is of this instrument and at this price, and adds up to this quantity. */
  predicate ExecutedAt(log: seq<Execution>, inst: uint32, qty: int, price: real) {
    (forall k :: 0 <= k < |log| ==> log[k].inst == inst && log[k].price == price) && Net(log, inst) == qty
  }

  lemma NetOfTwo(log: seq<Execution>, x: Execution, i: uint32)
    ensures Net([x] + log, i) == Net(log, i) + if x.inst == i then x.qty else 0
    decreases |log|
  {
    if log == [] {
      assert [x] + log == [x] && [x][..0] == [];
    } else {
      NetOfTwo(log[..|log| - 1], x, i);
      assert ([x] + log)[..|log|] == [x] + log[..|log| - 1];
    }
  }

  lemma NothingExecuted(i: uint32, price: real)
    ensures ExecutedAt([], i, 0, price)
  {
  }

  /** The orders of one instrument and price execute at that price what the net position moves by. */
  lemma {:induction false} OrdersExecute(mult: Multipliers, s: State, orders: seq<Order>, i: uint32, price: real)
    requires forall k :: 0 <= k < |orders| ==> orders[k].inst == i && orders[k].price == price
    requires WellFormed(BookOf(mult, s.acc, i))
    ensures ExecutedAt(OrderExecutions(mult, s, orders), i,
                       NetUnits(BookOf(mult, PlaceAll(mult, s, orders).acc, i)) - NetUnits(BookOf(mult, s.acc, i)),
                       price)
    decreases |orders|
  {
    hide WellFormed, NetUnits, PositionPnl, AddTrade, Executed, TradeOf, Net;
    if orders == [] {
      NothingExecuted(i, price);
    } else {
      var o, s1 := orders[0], Place(mult, s, orders[0]);
      var b := BookOf(mult, s.acc, i);
      if o.error.NoError? {
        var t := TradeOf(Filled(o));
        TradeLaw(b, t, 0.0);
        OrdersExecute(mult, s1, orders[1..], i, price);
        NetOfTwo(OrderExecutions(mult, s1, orders[1..]), Execution(i, Executed(b, t), price), i);
      } else {
        OrdersExecute(mult, s1, orders[1..], i, price);
        assert OrderExecutions(mult, s, orders) == OrderExecutions(mult, s1, orders[1..]);
      }
    }
  }

  /** What a sale that names no direction, and so was not checked, asks for beyond the lots it is matched with. */
  function Unfound(b: Book, req: Request): nat {
    var lots := if IsSecurity(req.kind) then Units(b.longYst) else TotalQty(b.longToday) + Units(b.longYst);
    if !req.longShort.NoLongShort? || (IsFuture(req.kind) && req.openClose.Open?) || req.qty <= lots then 0
    else req.qty - lots
  }

  /** What an accepted request executes, all of it at its price: its whole quantity when it names a direction, bought
      for Long and sold for Short; without a direction it sells what there is. */
  lemma RequestExecutes(mult: Multipliers, s: State, req: Request)
    requires IsSecurity(req.kind) || IsFuture(req.kind)
    requires Check(mult, s.acc, req).NoError? && WellFormed(BookOf(mult, s.acc, req.inst))
    ensures ExecutedAt(EventExecutions(mult, s, SubmitRequest(req)), req.inst,
                       if req.longShort.Long? then req.qty else Unfound(BookOf(mult, s.acc, req.inst), req) - req.qty,
                       req.price)
  {
    hide WellFormed, NetUnits, BookOf, Check, SubmittedOrders, PlaceAll, BeforePlacing, Submit;
    hide OrderExecutions, ExecutedAt, Unfound, B.AfterOrders, B.Totals, B.AfterAccepted;
    SubmitPlaces(mult, s, req);
    B.BooksBeforePlacing(mult, s.acc, req, req.inst);
    B.OrdersOfRequest(mult, s.acc, req, Key(s.requestId));
    OrdersExecute(mult, NextRequest(s).(acc := BeforePlacing(mult, s.acc, req)),
                  SubmittedOrders(mult, s.acc, req, Key(s.requestId)), req.inst, req.price);
    RequestMoves(mult, s, req);
  }

  lemma RequestMoves(mult: Multipliers, s: State, req: Request)
    requires (IsSecurity(req.kind) || IsFuture(req.kind)) && Check(mult, s.acc, req).NoError?
    ensures var b := BookOf(mult, s.acc, req.inst);
      NetUnits(BookOf(mult, Submit(mult, s, req).acc, req.inst))
      == NetUnits(b) + if req.longShort.Long? then req.qty else Unfound(b, req) - req.qty
  {
    hide NetUnits, BookOf, Check, Submit, Unfound, B.AfterAccepted, B.Accepts, B.Net, B.Totals;
    B.SubmitRefines(mult, s, req, req.inst);
    B.AcceptsIsCheck(mult, s.acc, req);
    B.NetIsNetUnits(BookOf(mult, s.acc, req.inst));
    B.NetIsNetUnits(BookOf(mult, Submit(mult, s, req).acc, req.inst));
    AcceptedMoves(BookOf(mult, s.acc, req.inst), req, s.acc.cash >= req.qty as real * req.price);
  }

  lemma SubmitPlaces(mult: Multipliers, s: State, req: Request)
    requires IsSecurity(req.kind) || IsFuture(req.kind)
    ensures Submit(mult, s, req) == PlaceAll(mult, NextRequest(s).(acc := BeforePlacing(mult, s.acc, req)),
                                             SubmittedOrders(mult, s.acc, req, Key(s.requestId)))
  {
    hide PlaceAll, BeforePlacing, SubmittedOrders;
  }

  lemma AcceptedMoves(b: Book, req: Request, enoughCash: bool)
    requires (IsSecurity(req.kind) || IsFuture(req.kind)) && B.Accepts(B.Totals(b), req, enoughCash)
    ensures var c := B.Totals(b);
      B.Net(B.AfterAccepted(c, req)) == B.Net(c) + if req.longShort.Long? then req.qty else Unfound(b, req) - req.qty
  {
    hide Units;
    var c := B.Totals(b);
    ModOfSum(c.shortYst, c.shortToday);
    ModOfSum(c.longYst, c.longToday);
    ModBound(c.longYst);
  }

  lemma ModOfSum(a: nat, b: nat)
    ensures (a + b) % UINT32_RANGE <= a + b % UINT32_RANGE
  {
    ModBound(a + b % UINT32_RANGE);
    assert a + b == (a + b % UINT32_RANGE) + UINT32_RANGE * (b / UINT32_RANGE);
  }
}
