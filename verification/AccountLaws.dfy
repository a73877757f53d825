/** Laws of the order manager over whole runs: close splitting and order keys. */
module AccountLaws {
  import opened Position
  import opened PositionLaws
  import opened OrderData
  import opened OrderManager

  // ---------- close splitting ----------

  predicate IsClose(req: Request) {
    IsFuture(req.kind) && !req.openClose.Open?
  }

  function TotalOrdered(orders: seq<Order>): nat {
    if orders == [] then 0 else orders[0].qty + TotalOrdered(orders[1..])
  }

  /** What the fill of an order finds no position for: nothing when it opens one. */
  function Missing(b: Book, o: Order): nat {
    var t := TradeOf(Filled(o));
    if t.isOpen then 0 else Unmatched(ClosedQueue(b, t), o.qty)
  }

  /** What the fills of `orders` cannot match when book b is current; the orders of one request draw on
      different queues. */
  function Leftover(b: Book, orders: seq<Order>): nat {
    if orders == [] then 0 else Missing(b, orders[0]) + Leftover(b, orders[1..])
  }

  lemma {:induction false} UnmatchedIs(lots: Lots, qty: uint32)
    ensures Unmatched(lots, qty) == qty - Min(qty, Units(lots))
    decreases |lots|
  {
    if qty != 0 && lots != [] {
      UnmatchedIs(lots[1..], qty - Min(lots[0].qty, qty));
    }
  }

  lemma ModBound(n: nat)
    ensures n % UINT32_RANGE <= n
    ensures n < UINT32_RANGE ==> n % UINT32_RANGE == n
  {
  }

  /** The orders of an accepted close: at most one against today's lots and one against yesterday's,
      of the requested quantity in all. */
  lemma CloseOrderShapes(mult: Multipliers, acc: Account, req: Request, id: nat)
    requires IsClose(req) && Check(mult, acc, req).NoError?
    ensures var b := BookOf(mult, acc, req.inst); var orders := SubmittedOrders(mult, acc, req, id);
      var today := Min(TotalQty(TodayLots(b, req.longShort)), req.qty);
      && |orders| <= 2
      && (forall k :: 0 <= k < |orders| ==>
            && orders[k].error.NoError? && orders[k].inst == req.inst && orders[k].longShort == req.longShort
            && (orders[k].openClose.CloseToday? || orders[k].openClose.CloseYst?)
            && orders[k].exchange == ExchangeOf(req.kind) && orders[k].price == req.price
            && orders[k].qty == (if orders[k].openClose.CloseToday? then today else req.qty - today)
            && orders[k].orderId == id + if orders[k].openClose.CloseToday? then 0 else 1)
      && (|orders| == 2 ==> orders[0].openClose.CloseToday? && orders[1].openClose.CloseYst?)
      && (today > 0 ==> |orders| > 0 && orders[0].openClose.CloseToday?)
      && (req.qty - today > 0 ==> |orders| > 0 && orders[|orders| - 1].openClose.CloseYst?)
  {
    hide Units, TotalQty, BookOf, Check;
  }

  lemma CloseOrders(mult: Multipliers, acc: Account, req: Request, id: nat)
    requires IsClose(req) && Check(mult, acc, req).NoError?
    ensures var b := BookOf(mult, acc, req.inst); var orders := SubmittedOrders(mult, acc, req, id);
      var today := Min(TotalQty(TodayLots(b, req.longShort)), req.qty);
      && |orders| <= 2 && TotalOrdered(orders) == req.qty
      && (forall k :: 0 <= k < |orders| ==>
            && orders[k].error.NoError? && orders[k].inst == req.inst && orders[k].longShort == req.longShort
            && (orders[k].openClose.CloseToday? || orders[k].openClose.CloseYst?)
            && orders[k].qty == (if orders[k].openClose.CloseToday? then today else req.qty - today)
            && orders[k].orderId == id + if orders[k].openClose.CloseToday? then 0 else 1)
      && (|orders| == 2 ==> orders[0].openClose != orders[1].openClose)
      && Leftover(b, orders) == (req.qty - today) - Min(req.qty - today, Units(YstLots(b, req.longShort)))
  {
    hide Units, TotalQty, BookOf, Leftover, Check, SubmittedOrders, TodayLots, YstLots;
    CloseOrderShapes(mult, acc, req, id);
    CloseSums(mult, acc, req, id);
  }

  lemma CloseSums(mult: Multipliers, acc: Account, req: Request, id: nat)
    requires IsClose(req) && Check(mult, acc, req).NoError?
    ensures var b := BookOf(mult, acc, req.inst); var orders := SubmittedOrders(mult, acc, req, id);
      var yst := req.qty - Min(TotalQty(TodayLots(b, req.longShort)), req.qty);
      TotalOrdered(orders) == req.qty && Leftover(b, orders) == yst - Min(yst, Units(YstLots(b, req.longShort)))
  {
    CloseOrderShapes(mult, acc, req, id);
    hide Units, TotalQty, BookOf, Leftover, TotalOrdered, Check, SubmittedOrders, TodayLots, YstLots;
    var b := BookOf(mult, acc, req.inst);
    TodayWithin(b, req.longShort);
    SumsOf(b, SubmittedOrders(mult, acc, req, id), req, Min(TotalQty(TodayLots(b, req.longShort)), req.qty));
  }

  lemma SumsOf(b: Book, orders: seq<Order>, req: Request, today: nat)
    requires IsClose(req) && |orders| <= 2 && today <= Units(TodayLots(b, req.longShort)) && today <= req.qty
    requires forall k :: 0 <= k < |orders| ==>
      && orders[k].exchange == ExchangeOf(req.kind) && orders[k].longShort == req.longShort
      && (orders[k].openClose.CloseToday? || orders[k].openClose.CloseYst?)
      && orders[k].qty == if orders[k].openClose.CloseToday? then today else req.qty - today
    requires |orders| == 2 ==> orders[0].openClose.CloseToday? && orders[1].openClose.CloseYst?
    requires today > 0 ==> |orders| > 0 && orders[0].openClose.CloseToday?
    requires req.qty - today > 0 ==> |orders| > 0 && orders[|orders| - 1].openClose.CloseYst?
    ensures TotalOrdered(orders) == req.qty
    ensures Leftover(b, orders) == (req.qty - today) - Min(req.qty - today, Units(YstLots(b, req.longShort)))
  {
    hide Units, Missing, TodayLots, YstLots;
    if |orders| == 2 {
      MissingInClose(b, orders[0], req);
      MissingInClose(b, orders[1], req);
      SumTwo(b, orders[0], orders[1]);
      assert orders == [orders[0], orders[1]];
    } else if |orders| == 1 {
      MissingInClose(b, orders[0], req);
      SumTwo(b, orders[0], orders[0]);
      assert orders == [orders[0]];
    }
  }

  lemma MissingInClose(b: Book, o: Order, req: Request)
    requires IsFuture(req.kind) && o.exchange == ExchangeOf(req.kind) && o.longShort == req.longShort
    requires o.openClose.CloseYst? || (o.openClose.CloseToday? && o.qty <= Units(TodayLots(b, req.longShort)))
    ensures Missing(b, o) == if o.openClose.CloseToday? then 0
                             else o.qty - Min(o.qty, Units(YstLots(b, req.longShort)))
  {
    hide Units, Unmatched;
    UnmatchedIs(ClosedQueue(b, TradeOf(Filled(o))), o.qty);
  }

  lemma TodayWithin(b: Book, side: LongShort)
    ensures TotalQty(TodayLots(b, side)) <= Units(TodayLots(b, side))
  {
    ModBound(Units(TodayLots(b, side)));
  }

  lemma SumTwo(b: Book, x: Order, y: Order)
    ensures TotalOrdered([x]) == x.qty && TotalOrdered([x, y]) == x.qty + y.qty
    ensures Leftover(b, [x]) == Missing(b, x)
    ensures Leftover(b, [x, y]) == Missing(b, x) + Missing(b, y)
  {
    hide Missing;
    assert [x, y][1..] == [y] && [x][1..] == [] && [y][1..] == [];
  }

  /** For a Long or Short request the split conserves quantity and stays inside its buckets, whatever the
      sizes: even when the 32-bit sums wrap, an accepted close never reaches the unmatched branch.
      Without wrap-around it is accepted exactly when the lots cover it. */
  lemma CloseIsCovered(mult: Multipliers, acc: Account, req: Request, id: nat)
    requires IsClose(req) && !req.longShort.NoLongShort?
    ensures var b := BookOf(mult, acc, req.inst); var orders := SubmittedOrders(mult, acc, req, id);
      var yst, today := Units(YstLots(b, req.longShort)), Units(TodayLots(b, req.longShort));
      && (Check(mult, acc, req).NoError? ==>
            && TotalOrdered(orders) == req.qty && |orders| <= 2 && Leftover(b, orders) == 0
            && forall k :: 0 <= k < |orders| ==>
                 orders[k].qty <= if orders[k].openClose.CloseToday? then today else yst)
      && (yst + today < UINT32_RANGE ==> (Check(mult, acc, req).NoError? <==> req.qty <= yst + today))
  {
    hide Units, Unmatched;
    var b := BookOf(mult, acc, req.inst);
    var yst, today := Units(YstLots(b, req.longShort)), Units(TodayLots(b, req.longShort));
    ModBound(yst);
    ModBound(today);
    ModBound(TotalQty(YstLots(b, req.longShort)) + TotalQty(TodayLots(b, req.longShort)));
    if Check(mult, acc, req).NoError? {
      CloseOrders(mult, acc, req, id);
    }
  }

  /** Exactly when an accepted request leaves something unmatched: it names neither direction, so no check was made,
      and it sells more of a security than yesterday's lots hold, or closes more futures than the long lots it is
      matched with. */
  lemma LeftoverIff(mult: Multipliers, acc: Account, req: Request, id: nat)
    requires (IsSecurity(req.kind) || IsFuture(req.kind)) && Check(mult, acc, req).NoError?
    ensures var b := BookOf(mult, acc, req.inst);
      Leftover(b, SubmittedOrders(mult, acc, req, id)) > 0 <==>
        && req.longShort.NoLongShort?
        && if IsSecurity(req.kind) then req.qty > Units(b.longYst)
           else !req.openClose.Open? && req.qty > TotalQty(b.longToday) + Units(b.longYst)
  {
    var b := BookOf(mult, acc, req.inst);
    if IsClose(req) {
      CloseOrders(mult, acc, req, id);
      if !req.longShort.NoLongShort? {
        CloseIsCovered(mult, acc, req, id);
      }
    } else {
      var o := SubmittedOrders(mult, acc, req, id)[0];
      assert SubmittedOrders(mult, acc, req, id) == [o];
      SumTwo(b, o, o);
      UnmatchedIs(b.longYst, req.qty);
      ModBound(Units(b.longYst));
    }
  }

  function YstOrdered(orders: seq<Order>): nat {
    if orders == [] then 0
    else (if orders[0].openClose.CloseYst? then orders[0].qty else 0) + YstOrdered(orders[1..])
  }

  /** An accepted close is left with the quantity ordered from yesterday's lots; any other request is left alone. */
  lemma RequestKeepsYstPart(mult: Multipliers, acc: Account, req: Request, id: nat)
    ensures Remaining(mult, acc, req)
         == if IsClose(req) && Check(mult, acc, req).NoError? then YstOrdered(SubmittedOrders(mult, acc, req, id))
            else req.qty
  {
    hide Check, BookOf, TotalQty;
    if IsClose(req) && Check(mult, acc, req).NoError? {
      var orders := SubmittedOrders(mult, acc, req, id);
      if |orders| == 2 {
        YstOfTwo(orders[0], orders[1]);
        assert orders == [orders[0], orders[1]];
      } else if |orders| == 1 {
        YstOfTwo(orders[0], orders[0]);
        assert orders == [orders[0]];
      }
    }
  }

  lemma YstOfTwo(x: Order, y: Order)
    ensures YstOrdered([x]) == if x.openClose.CloseYst? then x.qty else 0
    ensures YstOrdered([x, y]) == YstOrdered([x]) + if y.openClose.CloseYst? then y.qty else 0
  {
    assert [x, y][1..] == [y] && [x][1..] == [] && [y][1..] == [];
  }

  /** A rejected request is recorded and announced, and changes no book and no cash. */
  lemma RejectChangesNothing(mult: Multipliers, s: State, req: Request)
    requires (IsSecurity(req.kind) || IsFuture(req.kind)) && !Check(mult, s.acc, req).NoError?
    ensures var s' := Submit(mult, s, req); var id := Key(s.requestId);
      && (forall i :: BookOf(mult, s'.acc, i) == BookOf(mult, s.acc, i)) && s'.acc.cash == s.acc.cash
      && |s'.notified| == |s.notified| + 1 && s'.notified[..|s.notified|] == s.notified
      && id in s'.orders && s'.orders[id] == s'.notified[|s.notified|]
      && s'.orders[id].status.OrderRejected? && s'.orders[id].filledQty == 0
  {
    var orders := SubmittedOrders(mult, s.acc, req, Key(s.requestId));
    assert |orders| == 1 && orders[1..] == [];
    var placed := NextRequest(s).(acc := BeforePlacing(mult, s.acc, req));
    assert PlaceAll(mult, placed, orders) == Place(mult, placed, orders[0]);
  }

  // ---------- order keys ----------

  /** The request counter after n requests. */
  function Counter(n: nat): uint32 {
    (2 * n) % UINT32_RANGE
  }

  const HALF_RANGE := 0x8000_0000

  /** The m-th and n-th request share an order key exactly when they are a multiple of 2^31 apart. */
  lemma KeysCollideIff(m: nat, n: nat, x: nat, y: nat)
    requires x <= 1 && y <= 1
    ensures Key(Counter(m)) + x == Key(Counter(n)) + y <==> m % HALF_RANGE == n % HALF_RANGE && x == y
  {
    assert Counter(m) == 2 * (m % HALF_RANGE) && Counter(n) == 2 * (n % HALF_RANGE) by {
      DoubleMod(m);
      DoubleMod(n);
    }
  }

  lemma DoubleMod(n: nat)
    ensures (2 * n) % UINT32_RANGE == 2 * (n % HALF_RANGE)
  {
    var q, r := n / HALF_RANGE, n % HALF_RANGE;
    assert 2 * n == UINT32_RANGE * q + 2 * r;
  }

  /** After n requests, every recorded order carries a key one of them used. */
  ghost predicate KeysInv(s: State, n: nat) {
    s.requestId == Counter(n) && forall k :: k in s.orders ==> k < 2 * n * UINT32_RANGE
  }

  lemma {:induction false} PlaceAllKeys(mult: Multipliers, s: State, orders: seq<Order>, k: nat)
    ensures k in PlaceAll(mult, s, orders).orders <==>
            k in s.orders || exists i :: 0 <= i < |orders| && orders[i].orderId == k
    ensures PlaceAll(mult, s, orders).requestId == s.requestId
    decreases |orders|
  {
    if orders != [] {
      PlaceAllKeys(mult, Place(mult, s, orders[0]), orders[1..], k);
      assert forall i :: 1 <= i < |orders| ==> orders[i] == orders[1..][i - 1];
    }
  }

  lemma OrderKeys(mult: Multipliers, acc: Account, req: Request, id: nat)
    requires IsSecurity(req.kind) || IsFuture(req.kind)
    ensures var orders := SubmittedOrders(mult, acc, req, id);
      && (forall i :: 0 <= i < |orders| ==> id <= orders[i].orderId <= id + 1)
      && (forall i, j :: 0 <= i < j < |orders| ==> orders[i].orderId != orders[j].orderId)
  {
    hide BookOf, Units, Check, TotalQty;
  }

  lemma KeyOfCounter(n: nat)
    requires n < HALF_RANGE
    ensures Key(Counter(n)) == 2 * n * UINT32_RANGE && Counter(n + 1) == (Counter(n) + 2) % UINT32_RANGE
  {
    ModBound(2 * n);
    AddModulo(2 * n, 2);
  }

  /** Within 2^31 requests no order ever replaces an earlier one. */
  lemma FreshKeys(mult: Multipliers, s: State, n: nat, req: Request)
    requires n < HALF_RANGE && KeysInv(s, n)
    ensures (IsSecurity(req.kind) || IsFuture(req.kind)) ==>
              var orders := SubmittedOrders(mult, s.acc, req, Key(s.requestId));
              && (forall i :: 0 <= i < |orders| ==> orders[i].orderId !in s.orders)
              && (forall i, j :: 0 <= i < j < |orders| ==> orders[i].orderId != orders[j].orderId)
    ensures KeysInv(Submit(mult, s, req), n + 1)
  {
    hide SubmittedOrders, Counter, Key, PlaceAll, BeforePlacing;
    KeyOfCounter(n);
    var s' := Submit(mult, s, req);
    if IsSecurity(req.kind) || IsFuture(req.kind) {
      var orders := SubmittedOrders(mult, s.acc, req, Key(s.requestId));
      OrderKeys(mult, s.acc, req, Key(s.requestId));
      var placed := NextRequest(s).(acc := BeforePlacing(mult, s.acc, req));
      forall k | k in s'.orders ensures k < 2 * (n + 1) * UINT32_RANGE {
        PlaceAllKeys(mult, placed, orders, k);
      }
      PlaceAllKeys(mult, placed, orders, 0);
    }
  }

  function SubmitAll(mult: Multipliers, s: State, reqs: seq<Request>): State
    decreases |reqs|
  {
    if reqs == [] then s else SubmitAll(mult, Submit(mult, s, reqs[0]), reqs[1..])
  }

  /** Over any run of at most 2^31 requests the orders already recorded keep their keys and their contents. */
  lemma {:induction false} OrdersAreKept(mult: Multipliers, s: State, n: nat, reqs: seq<Request>, k: nat)
    requires KeysInv(s, n) && n + |reqs| <= HALF_RANGE && k in s.orders
    ensures k in SubmitAll(mult, s, reqs).orders && SubmitAll(mult, s, reqs).orders[k] == s.orders[k]
    decreases |reqs|
  {
    hide Submit, SubmittedOrders, Check;
    if reqs != [] {
      FreshKeys(mult, s, n, reqs[0]);
      SubmitKeepsOrder(mult, s, reqs[0], k);
      OrdersAreKept(mult, Submit(mult, s, reqs[0]), n + 1, reqs[1..], k);
    }
  }

  lemma SubmitKeepsOrder(mult: Multipliers, s: State, req: Request, k: nat)
    requires k in s.orders
    requires IsSecurity(req.kind) || IsFuture(req.kind) ==>
               forall o :: o in SubmittedOrders(mult, s.acc, req, Key(s.requestId)) ==> o.orderId != k
    ensures k in Submit(mult, s, req).orders && Submit(mult, s, req).orders[k] == s.orders[k]
  {
    if IsSecurity(req.kind) || IsFuture(req.kind) {
      var placed := NextRequest(s).(acc := BeforePlacing(mult, s.acc, req));
      PlaceAllKeepsOrder(mult, placed, SubmittedOrders(mult, s.acc, req, Key(s.requestId)), k);
    }
  }

  lemma {:induction false} PlaceAllKeepsOrder(mult: Multipliers, s: State, orders: seq<Order>, k: nat)
    requires k in s.orders && forall o :: o in orders ==> o.orderId != k
    ensures k in PlaceAll(mult, s, orders).orders && PlaceAll(mult, s, orders).orders[k] == s.orders[k]
    decreases |orders|
  {
    if orders != [] {
      assert orders[0] in orders;
      PlaceAllKeepsOrder(mult, Place(mult, s, orders[0]), orders[1..], k);
    }
  }
}
