/** The strategy keeps its own books: counters, and an average-cost ledger.  They agree with the lot queues
    of the position it trades through the order manager. */
module StrategyLedger {
  import opened Position
  import opened PositionLaws
  import opened OrderData
  import opened OrderManager
  import opened AccountLaws
  import PM = PositionManager

  const INT_RANGE := 0x8000_0000

  /** The trading fields of one instrument. */
  datatype Instrument = Instrument(
    inst: uint32,
    ppl: real,          // lots per order
    maxPos: int,
    tickSize: real,
    tickPrice: real,
    longQty: int,
    shortQty: int,
    cumLong: real,
    cumShort: real,
    pnl: real,
    numTrades: int)

  datatype Desk = Desk(om: State, ins: Instrument)

  /** int(ppl + 0.5) */
  function LotSize(ins: Instrument): int {
    (ins.ppl + 0.5).Floor
  }

  /** int(min(ppl + 0.5, open quantity)) */
  function ExitSize(ins: Instrument, open: int): int {
    (if ins.ppl + 0.5 <= open as real then ins.ppl + 0.5 else open as real).Floor
  }

  /** A configuration whose counters fit the int fields. */
  predicate Configured(ins: Instrument) {
    ins.ppl >= 0.0 && ins.maxPos >= 1 && ins.maxPos + LotSize(ins) <= INT_RANGE
  }

  lemma SizeBounds(ins: Instrument, open: int)
    requires ins.ppl >= 0.0 && open >= 0
    ensures LotSize(ins) >= 0
    ensures ExitSize(ins, open) == Min(LotSize(ins), open)
  {
  }

  function Ask(ins: Instrument, qty: uint32, price: real, openClose: OpenClose, side: LongShort): Request {
    Request(ShfeNewOrder, ins.inst, qty, price, openClose, side)
  }

  /** What selling `size` units is worth in ticks when each gains `move`. */
  function Booked(size: int, move: real, tickSize: real, tickPrice: real): real
    requires tickSize > 0.0
  {
    size as real * move / tickSize * tickPrice
  }

  function Average(cum: real, qty: int): real
    requires qty != 0
  {
    cum / qty as real
  }

  function CalculatePnl(ins: Instrument, exitLong: bool, size: int, price: real): Instrument
    requires ins.tickSize > 0.0
    requires size > 0 ==> (if exitLong then ins.longQty else ins.shortQty) != 0
  {
    if size <= 0 then ins
    else if exitLong then
      var avg := Average(ins.cumLong, ins.longQty);
      ins.(pnl := ins.pnl + Booked(size, price - avg, ins.tickSize, ins.tickPrice),
           cumLong := ins.cumLong - size as real * avg)
    else
      var avg := Average(ins.cumShort, ins.shortQty);
      ins.(pnl := ins.pnl + Booked(size, avg - price, ins.tickSize, ins.tickPrice),
           cumShort := ins.cumShort - size as real * avg)
  }

  lemma PnlFields(ins: Instrument, exitLong: bool, size: nat, price: real)
    requires ins.tickSize > 0.0 && size <= if exitLong then ins.longQty else ins.shortQty
    ensures var ins' := CalculatePnl(ins, exitLong, size, price);
      && ins' == ins.(pnl := ins'.pnl, cumLong := ins'.cumLong, cumShort := ins'.cumShort)
      && (if exitLong then ins'.cumShort == ins.cumShort else ins'.cumLong == ins.cumLong)
      && (size == 0 ==> ins' == ins)
  {
    hide Average, Booked;
  }

  /** Counters that fit their fields, with orders of a representable size. */
  predicate InRange(ins: Instrument) {
    && ins.tickSize > 0.0 && Configured(ins)
    && 0 <= ins.longQty < INT_RANGE && 0 <= ins.shortQty < INT_RANGE
  }

  function Shorted(ins: Instrument, k: nat, price: real): Instrument {
    ins.(shortQty := ins.shortQty + k, numTrades := ins.numTrades + k, cumShort := ins.cumShort + price * k as real)
  }

  function Bought(ins: Instrument, k: nat, price: real): Instrument {
    ins.(longQty := ins.longQty + k, numTrades := ins.numTrades + k, cumLong := ins.cumLong + price * k as real)
  }

  function EnterShort(mult: Multipliers, d: Desk, bid: real): Desk
    requires InRange(d.ins)
  {
    SizeBounds(d.ins, 0);
    var k := LotSize(d.ins);
    Desk(Submit(mult, d.om, Ask(d.ins, k, bid, Open, Short)),
         Shorted(d.ins, k, bid))
  }

  function EnterLong(mult: Multipliers, d: Desk, ask: real): Desk
    requires InRange(d.ins)
  {
    SizeBounds(d.ins, 0);
    var k := LotSize(d.ins);
    Desk(Submit(mult, d.om, Ask(d.ins, k, ask, Open, Long)),
         Bought(d.ins, k, ask))
  }

  function ExitLong(mult: Multipliers, d: Desk, bid: real): Desk
    requires InRange(d.ins) && d.ins.longQty != 0
  {
    SizeBounds(d.ins, d.ins.longQty);
    var k := ExitSize(d.ins, d.ins.longQty);
    Desk(Submit(mult, d.om, Ask(d.ins, k, bid, Close, Short)),
         CalculatePnl(d.ins, true, k, bid).(longQty := d.ins.longQty - k))
  }

  function ExitShort(mult: Multipliers, d: Desk, ask: real): Desk
    requires InRange(d.ins) && d.ins.shortQty != 0
  {
    SizeBounds(d.ins, d.ins.shortQty);
    var k := ExitSize(d.ins, d.ins.shortQty);
    Desk(Submit(mult, d.om, Ask(d.ins, k, ask, Close, Long)),
         CalculatePnl(d.ins, false, k, ask).(shortQty := d.ins.shortQty - k))
  }

  /** A position and the strategy's fields for it agree: quantities, and profit at every mark price. */
  ghost predicate Agree(b: Book, ins: Instrument) {
    && WellFormed(b)
    && ins.tickSize > 0.0 && ins.tickPrice == b.multiplier as real * ins.tickSize
    && ins.longQty == LongUnits(b) && ins.shortQty == ShortUnits(b)
    && (ins.longQty == 0 || ins.shortQty == 0)
    && (ins.longQty == 0 ==> ins.cumLong == 0.0) && (ins.shortQty == 0 ==> ins.cumShort == 0.0)
    && forall p: real :: PnlAgrees(b, ins, p)
  }

  /** The open value of the average-cost ledger at mark price p. */
  function OpenWorth(ins: Instrument, multiplier: uint32, p: real): real {
    multiplier as real * (p * ins.longQty as real - ins.cumLong)
    + multiplier as real * (ins.cumShort - p * ins.shortQty as real)
  }

  predicate PnlAgrees(b: Book, ins: Instrument, p: real) {
    ins.pnl + OpenWorth(ins, b.multiplier, p) == PositionPnl(b, p)
  }

  ghost predicate Linked(mult: Multipliers, d: Desk) {
    && Agree(BookOf(mult, d.om.acc, d.ins.inst), d.ins) && Configured(d.ins)
    && d.ins.longQty < d.ins.maxPos + LotSize(d.ins) && d.ins.shortQty < d.ins.maxPos + LotSize(d.ins)
  }

  // ---------- what a request does to the instrument's book ----------

  function Traded(b: Book, orders: seq<Order>): Book
    decreases |orders|
  {
    if orders == [] then b else Traded(AddTrade(b, TradeOf(Filled(orders[0]))), orders[1..])
  }

  lemma {:induction false} PlaceAllBook(mult: Multipliers, s: State, orders: seq<Order>, inst: uint32)
    requires forall k :: 0 <= k < |orders| ==> orders[k].error.NoError? && orders[k].inst == inst
    ensures BookOf(mult, PlaceAll(mult, s, orders).acc, inst) == Traded(BookOf(mult, s.acc, inst), orders)
    decreases |orders|
  {
    if orders != [] {
      PlaceAllBook(mult, Place(mult, s, orders[0]), orders[1..], inst);
    }
  }

  lemma SubmitBook(mult: Multipliers, s: State, req: Request)
    requires IsFuture(req.kind) && Check(mult, s.acc, req).NoError?
    ensures BookOf(mult, Submit(mult, s, req).acc, req.inst)
         == Traded(BookOf(mult, s.acc, req.inst), SubmittedOrders(mult, s.acc, req, Key(s.requestId)))
  {
    var orders := SubmittedOrders(mult, s.acc, req, Key(s.requestId));
    var placed := NextRequest(s).(acc := BeforePlacing(mult, s.acc, req));
    PlaceAllBook(mult, placed, orders, req.inst);
  }

  /** Book b' is b after opening `qty` at `price` in the given direction; profits are marked at p. */
  predicate OpenedBy(b: Book, b': Book, isLong: bool, qty: nat, price: real, p: real) {
    && WellFormed(b') && b'.multiplier == b.multiplier
    && LongUnits(b') == LongUnits(b) + (if isLong then qty else 0)
    && ShortUnits(b') == ShortUnits(b) + (if isLong then 0 else qty)
    && PositionPnl(b', p)
       == PositionPnl(b, p) + Worth(b.multiplier, if isLong then qty as int else 0 - qty, p - price)
  }

  lemma OpenEffect(mult: Multipliers, s: State, req: Request, p: real)
    requires IsFuture(req.kind) && req.openClose.Open? && !req.longShort.NoLongShort?
    requires WellFormed(BookOf(mult, s.acc, req.inst))
    ensures OpenedBy(BookOf(mult, s.acc, req.inst), BookOf(mult, Submit(mult, s, req).acc, req.inst),
                     req.longShort.Long?, req.qty, req.price, p)
  {
    hide Submit, WellFormed, Units, BookOf, OpenedBy, AddTrade;
    var b := BookOf(mult, s.acc, req.inst);
    var o := NewOrder(req, Key(s.requestId), Key(s.requestId), req.qty, Open, NoError);
    SubmitBook(mult, s, req);
    TradedTwo(b, o, o);
    OpenTrade(b, TradeOf(Filled(o)), p);
  }

  lemma OpenTrade(b: Book, t: TradeInfo, p: real)
    requires WellFormed(b) && t.isOpen && t.isToday
    ensures OpenedBy(b, AddTrade(b, t), t.isLong, t.qty, t.price, p)
  {
    TradeLaw(b, t, p);
    hide WellFormed, PositionPnl, Worth;
    UnitsAppend(if t.isLong then b.longToday else b.shortToday, PositionItem(t.price, t.qty, t.isLong, true));
  }

  /** Book b' is b after closing `qty` at `price` in the given direction; profits are marked at p. */
  predicate ClosedBy(b: Book, b': Book, isLong: bool, qty: nat, price: real, p: real) {
    && WellFormed(b') && b'.multiplier == b.multiplier
    && LongUnits(b') == LongUnits(b) - (if isLong then 0 else qty)
    && ShortUnits(b') == ShortUnits(b) - (if isLong then qty else 0)
    && PositionPnl(b', p)
       == PositionPnl(b, p) + Worth(b.multiplier, if isLong then qty as int else 0 - qty, p - price)
  }

  lemma CloseEffect(b: Book, t: TradeInfo, p: real)
    requires WellFormed(b) && !t.isOpen && t.qty <= Units(ClosedQueue(b, t))
    ensures ClosedBy(b, AddTrade(b, t), t.isLong, t.qty, t.price, p)
  {
    TradeLaw(b, t, p);
    ConsumeCounts(ClosedQueue(b, t), t.qty, !t.isLong);
  }

  lemma ClosedTwice(b: Book, b1: Book, b2: Book, isLong: bool, q1: nat, q2: nat, price: real, p: real)
    requires ClosedBy(b, b1, isLong, q1, price, p) && ClosedBy(b1, b2, isLong, q2, price, p)
    ensures ClosedBy(b, b2, isLong, q1 + q2, price, p)
  {
    WorthAdds(b.multiplier, if isLong then q1 as int else 0 - q1, if isLong then q2 as int else 0 - q2, p - price);
  }

  lemma ClosedByNothing(b: Book, isLong: bool, price: real, p: real)
    requires WellFormed(b)
    ensures ClosedBy(b, b, isLong, 0, price, p)
  {
    assert Worth(b.multiplier, 0, p - price) == 0.0;
  }

  lemma TwoFills(b: Book, t: TradeInfo, u: TradeInfo, p: real)
    requires WellFormed(b) && !t.isOpen && !u.isOpen
    requires t.isLong == u.isLong && t.price == u.price && t.isToday != u.isToday
    requires t.qty <= Units(ClosedQueue(b, t)) && u.qty <= Units(ClosedQueue(b, u))
    ensures ClosedBy(b, AddTrade(AddTrade(b, t), u), t.isLong, t.qty + u.qty, t.price, p)
  {
    var b1 := AddTrade(b, t);
    CloseEffect(b, t, p);
    assert ClosedQueue(b1, u) == ClosedQueue(b, u);
    CloseEffect(b1, u, p);
    ClosedTwice(b, b1, AddTrade(b1, u), t.isLong, t.qty, u.qty, t.price, p);
  }

  lemma TradedTwo(b: Book, x: Order, y: Order)
    ensures Traded(b, []) == b && TotalOrdered([]) == 0
    ensures Traded(b, [x]) == AddTrade(b, TradeOf(Filled(x))) && TotalOrdered([x]) == x.qty
    ensures Traded(b, [x, y]) == AddTrade(AddTrade(b, TradeOf(Filled(x))), TradeOf(Filled(y)))
    ensures TotalOrdered([x, y]) == x.qty + y.qty
  {
    assert [x][1..] == [] && [x, y][1..] == [y] && [y][1..] == [];
    var b1 := AddTrade(b, TradeOf(Filled(x)));
    assert Traded(b1, [y]) == AddTrade(b1, TradeOf(Filled(y)));
  }

  predicate CoveredFill(b: Book, o: Order, req: Request) {
    && o.longShort == req.longShort && o.price == req.price && o.exchange == SHFE
    && (o.openClose.CloseToday? || o.openClose.CloseYst?)
    && o.qty <= Units(ClosedQueue(b, TradeOf(Filled(o))))
  }

  /** The fills of covered closing orders, one per queue, close their total quantity. */
  lemma FillsClose(b: Book, orders: seq<Order>, p: real, req: Request)
    requires WellFormed(b) && |orders| <= 2 && !req.longShort.NoLongShort?
    requires forall k :: 0 <= k < |orders| ==> CoveredFill(b, orders[k], req)
    requires |orders| == 2 ==> orders[0].openClose != orders[1].openClose
    ensures ClosedBy(b, Traded(b, orders), req.longShort.Long?, TotalOrdered(orders), req.price, p)
  {
    hide ClosedBy, WellFormed, Units, AddTrade;
    if |orders| == 0 {
      ClosedByNothing(b, req.longShort.Long?, req.price, p);
    } else if |orders| == 1 {
      assert orders == [orders[0]] && CoveredFill(b, orders[0], req);
      TradedTwo(b, orders[0], orders[0]);
      CloseEffect(b, TradeOf(Filled(orders[0])), p);
    } else {
      assert orders == [orders[0], orders[1]] && CoveredFill(b, orders[0], req) && CoveredFill(b, orders[1], req);
      TradedTwo(b, orders[0], orders[1]);
      TwoFills(b, TradeOf(Filled(orders[0])), TradeOf(Filled(orders[1])), p);
    }
  }

  /** A close the lots cover removes its quantity from the other side, however it is split. */
  lemma SplitEffect(mult: Multipliers, s: State, req: Request, p: real)
    requires req.kind.ShfeNewOrder? && !req.openClose.Open? && !req.longShort.NoLongShort?
    requires Check(mult, s.acc, req).NoError? && WellFormed(BookOf(mult, s.acc, req.inst))
    ensures ClosedBy(BookOf(mult, s.acc, req.inst), BookOf(mult, Submit(mult, s, req).acc, req.inst),
                     req.longShort.Long?, req.qty, req.price, p)
  {
    hide Submit, ClosedBy, Check, SubmittedOrders, Units, WellFormed;
    var b := BookOf(mult, s.acc, req.inst);
    var orders := SubmittedOrders(mult, s.acc, req, Key(s.requestId));
    SubmitBook(mult, s, req);
    CloseIsCovered(mult, s.acc, req, Key(s.requestId));
    CloseOrderShapes(mult, s.acc, req, Key(s.requestId));
    FillsClose(b, orders, p, req);
  }

  // ---------- the four strategy actions keep the ledgers linked ----------

  lemma CostAdds(m: real, p: real, q: real, k: real, cum: real, price: real)
    ensures m * (p * (q + k) - (cum + price * k)) == m * (p * q - cum) + m * k * (p - price)
    ensures m * ((cum + price * k) - p * (q + k)) == m * (cum - p * q) + m * (-k) * (p - price)
  {
  }

  /** Selling k of q at average cost: what is booked and what stays open add up to the change of the mark. */
  lemma CostRemoves(m: real, p: real, q: real, k: real, cum: real, price: real, tick: real)
    requires q != 0.0 && tick > 0.0
    ensures var avg := cum / q;
      && k * (price - avg) / tick * (m * tick) + m * (p * (q - k) - (cum - k * avg))
         == m * (p * q - cum) + m * (-k) * (p - price)
      && k * (avg - price) / tick * (m * tick) + m * ((cum - k * avg) - p * (q - k))
         == m * (cum - p * q) + m * k * (p - price)
      && (k == q ==> cum - k * avg == 0.0)
  {
    var avg := cum / q;
    Untick(k * (price - avg), tick, m);
    Untick(k * (avg - price), tick, m);
  }

  lemma Untick(x: real, tick: real, m: real)
    requires tick > 0.0
    ensures x / tick * (m * tick) == x * m
  {
    assert x / tick * tick == x;
    assert x / tick * (m * tick) == (x / tick * tick) * m;
  }

  lemma WorthReal(multiplier: uint32, qty: int, move: real)
    ensures Worth(multiplier, qty, move) == multiplier as real * qty as real * move
    ensures (0 - qty) as real == -(qty as real)
  {
  }

  /** Entering moves the open worth by the worth of the traded quantity. */
  lemma EnterWorth(ins: Instrument, ins': Instrument, m: uint32, isLong: bool, k: nat, price: real, p: real)
    requires isLong ==> ins'.longQty == ins.longQty + k && ins'.cumLong == ins.cumLong + price * k as real
    requires isLong ==> ins'.shortQty == ins.shortQty && ins'.cumShort == ins.cumShort
    requires !isLong ==> ins'.shortQty == ins.shortQty + k && ins'.cumShort == ins.cumShort + price * k as real
    requires !isLong ==> ins'.longQty == ins.longQty && ins'.cumLong == ins.cumLong
    ensures OpenWorth(ins', m, p) == OpenWorth(ins, m, p) + Worth(m, if isLong then k as int else 0 - k, p - price)
  {
    CostAdds(m as real, p, ins.longQty as real, k as real, ins.cumLong, price);
    CostAdds(m as real, p, ins.shortQty as real, k as real, ins.cumShort, price);
    WorthReal(m, k, p - price);
    WorthReal(m, 0 - k, p - price);
  }

  lemma ExitLongWorth(ins: Instrument, m: uint32, k: nat, price: real, p: real)
    requires ins.tickSize > 0.0 && ins.tickPrice == m as real * ins.tickSize && 0 < k <= ins.longQty
    ensures var ins' := CalculatePnl(ins, true, k, price).(longQty := ins.longQty - k);
      && ins'.pnl + OpenWorth(ins', m, p) == ins.pnl + OpenWorth(ins, m, p) + Worth(m, 0 - k, p - price)
      && (ins'.longQty == 0 ==> ins'.cumLong == 0.0)
  {
    CostRemoves(m as real, p, ins.longQty as real, k as real, ins.cumLong, price, ins.tickSize);
    WorthReal(m, 0 - k, p - price);
  }

  lemma ExitShortWorth(ins: Instrument, m: uint32, k: nat, price: real, p: real)
    requires ins.tickSize > 0.0 && ins.tickPrice == m as real * ins.tickSize && 0 < k <= ins.shortQty
    ensures var ins' := CalculatePnl(ins, false, k, price).(shortQty := ins.shortQty - k);
      && ins'.pnl + OpenWorth(ins', m, p) == ins.pnl + OpenWorth(ins, m, p) + Worth(m, k, p - price)
      && (ins'.shortQty == 0 ==> ins'.cumShort == 0.0)
  {
    CostRemoves(m as real, p, ins.shortQty as real, k as real, ins.cumShort, price, ins.tickSize);
    WorthReal(m, k, p - price);
  }

  /** If both ledgers move by the same worth, they still agree. */
  lemma MovesTogether(b: Book, b': Book, ins: Instrument, ins': Instrument, worth: real, p: real)
    requires PnlAgrees(b, ins, p) && b'.multiplier == b.multiplier
    requires PositionPnl(b', p) == PositionPnl(b, p) + worth
    requires ins'.pnl + OpenWorth(ins', b.multiplier, p) == ins.pnl + OpenWorth(ins, b.multiplier, p) + worth
    ensures PnlAgrees(b', ins', p)
  {
  }

  // One action, seen from the book alone.

  lemma EnterShortAgrees(b: Book, b': Book, ins: Instrument, k: nat, price: real)
    requires Agree(b, ins) && ins.longQty == 0 && forall p: real :: OpenedBy(b, b', false, k, price, p)
    ensures Agree(b', Shorted(ins, k, price))
  {
    hide PositionPnl, OpenWorth, Worth;
    var ins' := Shorted(ins, k, price);
    assert OpenedBy(b, b', false, k, price, 0.0);
    forall p: real ensures PnlAgrees(b', ins', p) {
      assert OpenedBy(b, b', false, k, price, p) && PnlAgrees(b, ins, p);
      EnterWorth(ins, ins', b.multiplier, false, k, price, p);
      MovesTogether(b, b', ins, ins', Worth(b.multiplier, 0 - k, p - price), p);
    }
  }

  lemma EnterLongAgrees(b: Book, b': Book, ins: Instrument, k: nat, price: real)
    requires Agree(b, ins) && ins.shortQty == 0 && forall p: real :: OpenedBy(b, b', true, k, price, p)
    ensures Agree(b', Bought(ins, k, price))
  {
    hide PositionPnl, OpenWorth, Worth;
    var ins' := Bought(ins, k, price);
    assert OpenedBy(b, b', true, k, price, 0.0);
    forall p: real ensures PnlAgrees(b', ins', p) {
      assert OpenedBy(b, b', true, k, price, p) && PnlAgrees(b, ins, p);
      EnterWorth(ins, ins', b.multiplier, true, k, price, p);
      MovesTogether(b, b', ins, ins', Worth(b.multiplier, k, p - price), p);
    }
  }

  lemma ExitLongAgrees(b: Book, b': Book, ins: Instrument, k: nat, price: real)
    requires Agree(b, ins) && k <= ins.longQty && forall p: real :: ClosedBy(b, b', false, k, price, p)
    ensures Agree(b', CalculatePnl(ins, true, k, price).(longQty := ins.longQty - k))
  {
    hide PositionPnl, OpenWorth, Worth, CalculatePnl;
    PnlFields(ins, true, k, price);
    var ins' := CalculatePnl(ins, true, k, price).(longQty := ins.longQty - k);
    assert ClosedBy(b, b', false, k, price, 0.0);
    if k > 0 {
      ExitLongWorth(ins, b.multiplier, k, price, 0.0);
    }
    forall p: real ensures PnlAgrees(b', ins', p) {
      assert ClosedBy(b, b', false, k, price, p) && PnlAgrees(b, ins, p);
      if k > 0 {
        ExitLongWorth(ins, b.multiplier, k, price, p);
      } else {
        WorthReal(b.multiplier, 0, p - price);
      }
      MovesTogether(b, b', ins, ins', Worth(b.multiplier, 0 - k, p - price), p);
    }
  }

  lemma ExitShortAgrees(b: Book, b': Book, ins: Instrument, k: nat, price: real)
    requires Agree(b, ins) && k <= ins.shortQty && forall p: real :: ClosedBy(b, b', true, k, price, p)
    ensures Agree(b', CalculatePnl(ins, false, k, price).(shortQty := ins.shortQty - k))
  {
    hide PositionPnl, OpenWorth, Worth, CalculatePnl;
    PnlFields(ins, false, k, price);
    var ins' := CalculatePnl(ins, false, k, price).(shortQty := ins.shortQty - k);
    assert ClosedBy(b, b', true, k, price, 0.0);
    if k > 0 {
      ExitShortWorth(ins, b.multiplier, k, price, 0.0);
    }
    forall p: real ensures PnlAgrees(b', ins', p) {
      assert ClosedBy(b, b', true, k, price, p) && PnlAgrees(b, ins, p);
      if k > 0 {
        ExitShortWorth(ins, b.multiplier, k, price, p);
      } else {
        WorthReal(b.multiplier, 0, p - price);
      }
      MovesTogether(b, b', ins, ins', Worth(b.multiplier, k, p - price), p);
    }
  }

  // The four actions, through the order manager.

  lemma EnterShortKeeps(mult: Multipliers, d: Desk, bid: real)
    requires Linked(mult, d) && d.ins.shortQty < d.ins.maxPos && d.ins.longQty == 0
    ensures InRange(d.ins) && Linked(mult, EnterShort(mult, d, bid))
  {
    hide Submit, PositionPnl, OpenWorth, Worth;
    SizeBounds(d.ins, 0);
    var d' := EnterShort(mult, d, bid);
    var b, b', k := BookOf(mult, d.om.acc, d.ins.inst), BookOf(mult, d'.om.acc, d.ins.inst), LotSize(d.ins);
    forall p: real ensures OpenedBy(b, b', false, k, bid, p) {
      OpenEffect(mult, d.om, Ask(d.ins, k, bid, Open, Short), p);
    }
    EnterShortAgrees(b, b', d.ins, k, bid);
  }

  lemma EnterLongKeeps(mult: Multipliers, d: Desk, ask: real)
    requires Linked(mult, d) && d.ins.longQty < d.ins.maxPos && d.ins.shortQty == 0
    ensures InRange(d.ins) && Linked(mult, EnterLong(mult, d, ask))
  {
    hide Submit, PositionPnl, OpenWorth, Worth;
    SizeBounds(d.ins, 0);
    var d' := EnterLong(mult, d, ask);
    var b, b', k := BookOf(mult, d.om.acc, d.ins.inst), BookOf(mult, d'.om.acc, d.ins.inst), LotSize(d.ins);
    forall p: real ensures OpenedBy(b, b', true, k, ask, p) {
      OpenEffect(mult, d.om, Ask(d.ins, k, ask, Open, Long), p);
    }
    EnterLongAgrees(b, b', d.ins, k, ask);
  }

  /** A close of at most the counted quantity is never rejected. */
  lemma ExitAccepted(mult: Multipliers, d: Desk, k: uint32, price: real, side: LongShort)
    requires Linked(mult, d) && !side.NoLongShort?
    requires k <= if side.Long? then d.ins.shortQty else d.ins.longQty
    ensures Check(mult, d.om.acc, Ask(d.ins, k, price, Close, side)).NoError?
  {
    CloseIsCovered(mult, d.om.acc, Ask(d.ins, k, price, Close, side), 0);
  }

  lemma ExitLongKeeps(mult: Multipliers, d: Desk, bid: real)
    requires Linked(mult, d) && d.ins.longQty != 0
    ensures InRange(d.ins) && Linked(mult, ExitLong(mult, d, bid))
  {
    hide Submit, PositionPnl, OpenWorth, Worth;
    SizeBounds(d.ins, d.ins.longQty);
    var d' := ExitLong(mult, d, bid);
    var b, b' := BookOf(mult, d.om.acc, d.ins.inst), BookOf(mult, d'.om.acc, d.ins.inst);
    var k := ExitSize(d.ins, d.ins.longQty);
    ExitAccepted(mult, d, k, bid, Short);
    forall p: real ensures ClosedBy(b, b', false, k, bid, p) {
      SplitEffect(mult, d.om, Ask(d.ins, k, bid, Close, Short), p);
    }
    ExitLongAgrees(b, b', d.ins, k, bid);
  }

  lemma ExitShortKeeps(mult: Multipliers, d: Desk, ask: real)
    requires Linked(mult, d) && d.ins.shortQty != 0
    ensures InRange(d.ins) && Linked(mult, ExitShort(mult, d, ask))
  {
    hide Submit, PositionPnl, OpenWorth, Worth;
    SizeBounds(d.ins, d.ins.shortQty);
    var d' := ExitShort(mult, d, ask);
    var b, b' := BookOf(mult, d.om.acc, d.ins.inst), BookOf(mult, d'.om.acc, d.ins.inst);
    var k := ExitSize(d.ins, d.ins.shortQty);
    ExitAccepted(mult, d, k, ask, Long);
    forall p: real ensures ClosedBy(b, b', true, k, ask, p) {
      SplitEffect(mult, d.om, Ask(d.ins, k, ask, Close, Long), p);
    }
    ExitShortAgrees(b, b', d.ins, k, ask);
  }

  // ---------- whole days ----------

  datatype StrategyStep =
    | Enter(shortSignal: bool, longSignal: bool, bid: real, ask: real)
    | Exit(longSignal: bool, shortSignal: bool, bid: real, ask: real)
    | Liquidate(bid: real, ask: real)
    | Mark(price: real)

  /** doEnter; the signals stand for the strategy's own guards, stop-loss included. */
  function DoEnter(mult: Multipliers, d: Desk, shortSignal: bool, longSignal: bool, bid: real, ask: real): (d': Desk)
    requires InRange(d.ins)
    ensures InRange(d'.ins)
  {
    SizeBounds(d.ins, 0);
    var d1 := if d.ins.shortQty < d.ins.maxPos && d.ins.longQty == 0 && shortSignal then EnterShort(mult, d, bid)
              else d;
    if d1.ins.longQty < d1.ins.maxPos && d1.ins.shortQty == 0 && longSignal then EnterLong(mult, d1, ask) else d1
  }

  /** doExit; liquidate is doExit with both signals on. */
  function DoExit(mult: Multipliers, d: Desk, longSignal: bool, shortSignal: bool, bid: real, ask: real): (d': Desk)
    requires InRange(d.ins)
    ensures InRange(d'.ins)
  {
    SizeBounds(d.ins, d.ins.longQty);
    var d1 := if d.ins.longQty != 0 && longSignal then ExitLong(mult, d, bid) else d;
    SizeBounds(d1.ins, d1.ins.shortQty);
    if d1.ins.shortQty != 0 && shortSignal then ExitShort(mult, d1, ask) else d1
  }

  function StepDesk(mult: Multipliers, d: Desk, step: StrategyStep): (d': Desk)
    requires InRange(d.ins)
    ensures InRange(d'.ins)
  {
    match step
    case Enter(s, l, bid, ask) => DoEnter(mult, d, s, l, bid, ask)
    case Exit(l, s, bid, ask) => DoExit(mult, d, l, s, bid, ask)
    case Liquidate(bid, ask) => DoExit(mult, d, true, true, bid, ask)
    case Mark(price) => d.(om := d.om.(acc := UpdatePrice(d.om.acc, d.ins.inst, price)))
  }

  function RunDesk(mult: Multipliers, d: Desk, steps: seq<StrategyStep>): (d': Desk)
    requires InRange(d.ins)
    ensures InRange(d'.ins)
    decreases |steps|
  {
    if steps == [] then d else RunDesk(mult, StepDesk(mult, d, steps[0]), steps[1..])
  }

  lemma EnterKeeps(mult: Multipliers, d: Desk, shortSignal: bool, longSignal: bool, bid: real, ask: real)
    requires Linked(mult, d) && InRange(d.ins)
    ensures Linked(mult, DoEnter(mult, d, shortSignal, longSignal, bid, ask))
  {
    hide Linked, EnterShort, EnterLong;
    var d1 := d;
    if d.ins.shortQty < d.ins.maxPos && d.ins.longQty == 0 && shortSignal {
      EnterShortKeeps(mult, d, bid);
      d1 := EnterShort(mult, d, bid);
    }
    if d1.ins.longQty < d1.ins.maxPos && d1.ins.shortQty == 0 && longSignal {
      EnterLongKeeps(mult, d1, ask);
    }
  }

  lemma ExitKeeps(mult: Multipliers, d: Desk, longSignal: bool, shortSignal: bool, bid: real, ask: real)
    requires Linked(mult, d) && InRange(d.ins)
    ensures Linked(mult, DoExit(mult, d, longSignal, shortSignal, bid, ask))
  {
    hide Linked, ExitLong, ExitShort;
    var d1 := d;
    if d.ins.longQty != 0 && longSignal {
      ExitLongKeeps(mult, d, bid);
      d1 := ExitLong(mult, d, bid);
    }
    if d1.ins.shortQty != 0 && shortSignal {
      ExitShortKeeps(mult, d1, ask);
    }
  }

  lemma MarkKeeps(mult: Multipliers, d: Desk, price: real)
    requires Linked(mult, d)
    ensures Linked(mult, d.(om := d.om.(acc := UpdatePrice(d.om.acc, d.ins.inst, price))))
  {
    var b := BookOf(mult, d.om.acc, d.ins.inst);
    var b' := BookOf(mult, UpdatePrice(d.om.acc, d.ins.inst, price), d.ins.inst);
    forall p: real ensures PnlAgrees(b', d.ins, p) {
      assert PnlAgrees(b, d.ins, p);
    }
  }

  /** After any run of strategy steps the average-cost ledger and the position agree: the counters are the queue
      totals, they are never both positive, and the profits are equal at every mark price. */
  lemma {:induction false} LedgersAgree(mult: Multipliers, d: Desk, steps: seq<StrategyStep>)
    requires InRange(d.ins) && Linked(mult, d)
    ensures var d' := RunDesk(mult, d, steps); Linked(mult, d')
    decreases |steps|
  {
    hide Linked, DoEnter, DoExit;
    if steps != [] {
      match steps[0] {
        case Enter(s, l, bid, ask) => EnterKeeps(mult, d, s, l, bid, ask);
        case Exit(l, s, bid, ask) => ExitKeeps(mult, d, l, s, bid, ask);
        case Liquidate(bid, ask) => ExitKeeps(mult, d, true, true, bid, ask);
        case Mark(price) => MarkKeeps(mult, d, price);
      }
      LedgersAgree(mult, StepDesk(mult, d, steps[0]), steps[1..]);
    }
  }

  lemma LinkedFacts(mult: Multipliers, d: Desk)
    requires Linked(mult, d)
    ensures var b := BookOf(mult, d.om.acc, d.ins.inst);
      && d.ins.longQty == LongUnits(b) && d.ins.shortQty == ShortUnits(b)
      && forall p: real :: d.ins.pnl + OpenWorth(d.ins, b.multiplier, p) == PositionPnl(b, p)
  {
    hide OpenWorth, PositionPnl;
    var b := BookOf(mult, d.om.acc, d.ins.inst);
    forall p: real ensures d.ins.pnl + OpenWorth(d.ins, b.multiplier, p) == PositionPnl(b, p) {
      assert PnlAgrees(b, d.ins, p);
    }
  }

  // ---------- day starts and the jump reset ----------

  predicate Flat(b: Book) {
    LongUnits(b) == 0 && ShortUnits(b) == 0
  }

  /** initInstrument; overnight mode keeps the counters and the cost sums. */
  function InitInstrument(ins: Instrument, overnight: bool): Instrument {
    var kept := if overnight then ins else ins.(longQty := 0, shortQty := 0, cumLong := 0.0, cumShort := 0.0);
    kept.(pnl := 0.0, numTrades := 0)
  }

  /** A re-based book holds the same quantities and is worth its net position times the move of the mark. */
  lemma RolledBook(b: Book, p: real)
    requires WellFormed(b)
    ensures WellFormed(Rolled(b)) && Rolled(b).multiplier == b.multiplier && Rolled(b).realized == 0.0
    ensures LongUnits(Rolled(b)) == LongUnits(b) && ShortUnits(Rolled(b)) == ShortUnits(b)
    ensures PositionPnl(Rolled(b), p) == Worth(b.multiplier, NetUnits(b), p - b.lastPrice)
  {
    ResetLaw(b);
    var b' := Rolled(b);
    UnitCount(b'.longToday);
    UnitCount(b'.longYst);
    UnitCount(b'.shortToday);
    UnitCount(b'.shortYst);
    MarkLaw(b', b.lastPrice, p);
  }

  /** A day started without overnight positions links the ledgers exactly when the position is flat. */
  lemma DayStartAgreesIff(b: Book, ins: Instrument)
    requires WellFormed(b) && ins.tickSize > 0.0 && ins.tickPrice == b.multiplier as real * ins.tickSize
    ensures Agree(Rolled(b), InitInstrument(ins, false)) <==> Flat(b)
  {
    hide Rolled, PositionPnl;
    RolledBook(b, 0.0);
    if Flat(b) {
      forall p: real ensures PnlAgrees(Rolled(b), InitInstrument(ins, false), p) {
        RolledBook(b, p);
        WorthReal(b.multiplier, 0, p - b.lastPrice);
      }
    }
  }

  /** From a flat day start, after any run of strategy steps and at every mark price: the profit of the strategy plus
      its open value is the profit of the position, and the counters are the queue totals, never both positive. */
  lemma FlatDayAgrees(mult: Multipliers, om: State, ins: Instrument, steps: seq<StrategyStep>, p: real)
    requires var b := BookOf(mult, om.acc, ins.inst); WellFormed(b) && Flat(b) && b.multiplier == mult(ins.inst)
    requires Configured(ins) && ins.tickSize > 0.0 && ins.tickPrice == mult(ins.inst) as real * ins.tickSize
    ensures var start := Desk(NextDay(om), InitInstrument(ins, false));
      && InRange(start.ins) && start.ins.numTrades == 0 && start.ins.pnl == 0.0
      && var d := RunDesk(mult, start, steps); var b := BookOf(mult, d.om.acc, d.ins.inst);
         && d.ins.pnl + OpenWorth(d.ins, b.multiplier, p) == PositionPnl(b, p)
         && d.ins.longQty == LongUnits(b) && d.ins.shortQty == ShortUnits(b)
         && (d.ins.longQty == 0 || d.ins.shortQty == 0)
  {
    hide Rolled, Equity, PositionPnl, OpenWorth, RunDesk;
    var b := BookOf(mult, om.acc, ins.inst);
    var start := Desk(NextDay(om), InitInstrument(ins, false));
    SizeBounds(ins, 0);
    EmptyRolled(mult(ins.inst));
    assert BookOf(mult, start.om.acc, ins.inst) == Rolled(b);
    DayStartAgreesIff(b, ins);
    LedgersAgree(mult, start, steps);
    var d := RunDesk(mult, start, steps);
    assert PnlAgrees(BookOf(mult, d.om.acc, d.ins.inst), d.ins, p);
  }

  lemma EmptyRolled(multiplier: uint32)
    ensures Rolled(EmptyBook(multiplier)) == EmptyBook(multiplier)
  {
  }

  /** Overnight, the kept cost sums agree with the re-based position exactly when they were worth nothing
      at the last price, that is, when nothing was gained or lost on what is still open. */
  lemma OvernightAgreesIff(b: Book, ins: Instrument)
    requires Agree(b, ins)
    ensures Agree(Rolled(b), InitInstrument(ins, true)) <==> OpenWorth(ins, b.multiplier, b.lastPrice) == 0.0
  {
    hide Rolled, PositionPnl, OpenWorth, Worth;
    var last, b', ins' := b.lastPrice, Rolled(b), InitInstrument(ins, true);
    RolledBook(b, last);
    KeptWorth(ins, b.multiplier, NetUnits(b), last);
    if Agree(b', ins') {
      assert PnlAgrees(b', ins', last);
    }
    if OpenWorth(ins, b.multiplier, last) == 0.0 {
      forall p: real ensures PnlAgrees(b', ins', p) {
        OvernightAt(b, ins, p);
      }
    }
  }

  lemma KeptWorth(ins: Instrument, m: uint32, net: int, p: real)
    ensures OpenWorth(InitInstrument(ins, true), m, p) == OpenWorth(ins, m, p)
    ensures Worth(m, net, p - p) == 0.0
  {
  }

  lemma OvernightAt(b: Book, ins: Instrument, p: real)
    requires Agree(b, ins) && OpenWorth(ins, b.multiplier, b.lastPrice) == 0.0
    ensures PnlAgrees(Rolled(b), InitInstrument(ins, true), p)
  {
    hide Rolled, PositionPnl, OpenWorth, Worth;
    RolledBook(b, p);
    MarkLaw(b, b.lastPrice, p);
    KeptWorth(ins, b.multiplier, 0, p);
    assert PnlAgrees(b, ins, p) && PnlAgrees(b, ins, b.lastPrice);
  }

  /** The jump reset of the tick handler clears the counters and the cost sums, and leaves the position alone. */
  function JumpReset(ins: Instrument): Instrument {
    ins.(longQty := 0, shortQty := 0, cumLong := 0.0, cumShort := 0.0)
  }

  /** The reset keeps the ledgers linked exactly when the strategy holds nothing. */
  lemma JumpResetAgreesIff(b: Book, ins: Instrument)
    requires Agree(b, ins)
    ensures Agree(b, JumpReset(ins)) <==> ins.longQty == 0 && ins.shortQty == 0
  {
    if ins.longQty == 0 && ins.shortQty == 0 {
      assert JumpReset(ins) == ins;
    }
  }
}
