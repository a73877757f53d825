/** An account without lots: four counters and the last price of each instrument, the cash, and one profit figure.
    The lot queues refine it over whole back-tests. */
module Buckets {
  import opened Position
  import opened PositionLaws
  import opened OrderData
  import opened OrderManager
  import opened AccountLaws
  import opened Conservation

  datatype Counters = Counters(longToday: nat, longYst: nat, shortToday: nat, shortYst: nat)

  /** The units in each queue. */
  function Totals(b: Book): Counters {
    Counters(Units(b.longToday), Units(b.longYst), Units(b.shortToday), Units(b.shortYst))
  }

  /** Whether a request is accepted, from the counters alone; only a purchase of a security asks for cash. */
  predicate Accepts(c: Counters, req: Request, enoughCash: bool) {
    if IsSecurity(req.kind) then
      (req.longShort.Long? ==> enoughCash) && (req.longShort.Short? ==> req.qty <= c.longYst % UINT32_RANGE)
    else
      || req.openClose.Open? || req.longShort.NoLongShort?
      || req.qty <= if req.longShort.Long? then (c.shortYst + c.shortToday) % UINT32_RANGE
                    else (c.longYst + c.longToday) % UINT32_RANGE
  }

  /** A close takes from today's counter what its 32-bit value allows, and the rest from yesterday's. */
  function FromToday(today: nat, qty: nat): (k: nat)
    ensures k <= today && k <= qty
  {
    Min(today % UINT32_RANGE, qty)
  }

  function LessOf(n: nat, qty: nat): nat {
    n - Min(qty, n)
  }

  function AfterAccepted(c: Counters, req: Request): Counters {
    if IsSecurity(req.kind) then
      if req.longShort.Long? then c.(longToday := c.longToday + req.qty) else c.(longYst := LessOf(c.longYst, req.qty))
    else if req.openClose.Open? then
      if req.longShort.Long? then c.(longToday := c.longToday + req.qty) else c.(shortToday := c.shortToday + req.qty)
    else if req.longShort.Long? then
      var k := FromToday(c.shortToday, req.qty);
      c.(shortToday := c.shortToday - k, shortYst := LessOf(c.shortYst, req.qty - k))
    else
      var k := FromToday(c.longToday, req.qty);
      c.(longToday := c.longToday - k, longYst := LessOf(c.longYst, req.qty - k))
  }

  lemma AcceptsIsCheck(mult: Multipliers, acc: Account, req: Request)
    requires IsSecurity(req.kind) || IsFuture(req.kind)
    ensures Check(mult, acc, req).NoError?
        <==> Accepts(Totals(BookOf(mult, acc, req.inst)), req, acc.cash >= req.qty as real * req.price)
  {
    hide Units, BookOf;
    var c := Totals(BookOf(mult, acc, req.inst));
    SumOfWrapped(c.shortYst, c.shortToday);
    SumOfWrapped(c.longYst, c.longToday);
  }

  lemma SumOfWrapped(a: nat, b: nat)
    ensures (a % UINT32_RANGE + b % UINT32_RANGE) % UINT32_RANGE == (a + b) % UINT32_RANGE
  {
    var q, r := a / UINT32_RANGE, b / UINT32_RANGE;
    assert a + b == (a % UINT32_RANGE + b % UINT32_RANGE) + UINT32_RANGE * (q + r);
  }

  lemma ConsumedUnits(lots: Lots, qty: uint32)
    ensures Units(Consume(lots, qty)) == LessOf(Units(lots), qty)
  {
    ConsumeTakesOldest(lots, qty);
    UnitCount(lots);
    UnitCount(Consume(lots, qty));
  }

  /** A trade's effect on the counters. */
  function AfterTrade(c: Counters, t: TradeInfo): Counters {
    if t.isOpen then
      if t.isLong then
        if t.isToday then c.(longToday := c.longToday + t.qty) else c.(longYst := c.longYst + t.qty)
      else if t.isToday then c.(shortToday := c.shortToday + t.qty) else c.(shortYst := c.shortYst + t.qty)
    else if t.isLong then
      if t.isToday then c.(shortToday := LessOf(c.shortToday, t.qty)) else c.(shortYst := LessOf(c.shortYst, t.qty))
    else if t.isToday then c.(longToday := LessOf(c.longToday, t.qty)) else c.(longYst := LessOf(c.longYst, t.qty))
  }

  lemma TradeRefines(b: Book, t: TradeInfo)
    ensures Totals(AddTrade(b, t)) == AfterTrade(Totals(b), t)
  {
    hide Units, Consume, Gain, LessOf;
    if t.isOpen {
      var item := PositionItem(t.price, t.qty, t.isLong, t.isToday);
      UnitsAppend(b.longToday, item);
      UnitsAppend(b.longYst, item);
      UnitsAppend(b.shortToday, item);
      UnitsAppend(b.shortYst, item);
    } else {
      ConsumedUnits(ClosedQueue(b, t), t.qty);
    }
  }

  function AfterOrders(c: Counters, orders: seq<Order>): Counters
    decreases |orders|
  {
    if orders == [] then c
    else AfterOrders(if orders[0].error.NoError? then AfterTrade(c, TradeOf(Filled(orders[0]))) else c, orders[1..])
  }

  lemma {:induction false} PlaceAllRefines(mult: Multipliers, s: State, orders: seq<Order>, inst: uint32, i: uint32)
    requires forall k :: 0 <= k < |orders| ==> orders[k].inst == inst
    ensures Totals(BookOf(mult, PlaceAll(mult, s, orders).acc, i))
         == if i == inst then AfterOrders(Totals(BookOf(mult, s.acc, i)), orders) else Totals(BookOf(mult, s.acc, i))
    decreases |orders|
  {
    hide Totals, AfterTrade, AddTrade, TradeOf;
    if orders != [] {
      var o := orders[0];
      if o.error.NoError? {
        TradeRefines(BookOf(mult, s.acc, inst), TradeOf(Filled(o)));
      }
      PlaceAllRefines(mult, Place(mult, s, o), orders[1..], inst, i);
    }
  }

  lemma OrdersCarry(mult: Multipliers, acc: Account, req: Request, id: nat)
    requires IsSecurity(req.kind) || IsFuture(req.kind)
    ensures var orders := SubmittedOrders(mult, acc, req, id);
      && (forall k :: 0 <= k < |orders| ==>
            orders[k].inst == req.inst && orders[k].price == req.price && orders[k].error == Check(mult, acc, req))
      && (!(IsClose(req) && Check(mult, acc, req).NoError?) ==>
            |orders| == 1 && orders[0].exchange == ExchangeOf(req.kind) && orders[0].longShort == req.longShort
            && orders[0].qty == req.qty && (IsFuture(req.kind) ==> orders[0].openClose == req.openClose))
  {
    hide TotalQty, BookOf, Check;
  }

  lemma OrdersOfRequest(mult: Multipliers, acc: Account, req: Request, id: nat)
    requires IsSecurity(req.kind) || IsFuture(req.kind)
    ensures var orders := SubmittedOrders(mult, acc, req, id);
      && (forall k :: 0 <= k < |orders| ==>
            orders[k].inst == req.inst && orders[k].price == req.price && orders[k].error == Check(mult, acc, req))
      && var c := Totals(BookOf(mult, acc, req.inst));
         AfterOrders(c, orders) == if Check(mult, acc, req).NoError? then AfterAccepted(c, req) else c
  {
    hide Units, BookOf, Check, SubmittedOrders;
    OrdersCarry(mult, acc, req, id);
    var orders := SubmittedOrders(mult, acc, req, id);
    var c := Totals(BookOf(mult, acc, req.inst));
    if IsClose(req) && Check(mult, acc, req).NoError? {
      ClosesOfRequest(mult, acc, req, id);
    } else {
      OneOrder(c, orders[0]);
      assert orders == [orders[0]];
    }
  }

  lemma CloseMoves(c: Counters, o: Order)
    requires !o.exchange.SSE? && !o.exchange.SZE? && !o.openClose.Open?
    ensures AfterTrade(c, TradeOf(Filled(o))) ==
      if o.longShort.Long? then
        if o.openClose.CloseToday? then c.(shortToday := LessOf(c.shortToday, o.qty))
        else c.(shortYst := LessOf(c.shortYst, o.qty))
      else if o.openClose.CloseToday? then c.(longToday := LessOf(c.longToday, o.qty))
      else c.(longYst := LessOf(c.longYst, o.qty))
  {
  }

  lemma ClosesOfRequest(mult: Multipliers, acc: Account, req: Request, id: nat)
    requires IsClose(req) && Check(mult, acc, req).NoError?
    ensures var c := Totals(BookOf(mult, acc, req.inst));
      AfterOrders(c, SubmittedOrders(mult, acc, req, id)) == AfterAccepted(c, req)
  {
    hide Units, BookOf, Check, SubmittedOrders, AfterTrade, TradeOf;
    CloseOrderShapes(mult, acc, req, id);
    var orders := SubmittedOrders(mult, acc, req, id);
    var c := Totals(BookOf(mult, acc, req.inst));
    if |orders| == 1 {
      OneOrder(c, orders[0]);
      CloseMoves(c, orders[0]);
      assert orders == [orders[0]];
    } else if |orders| == 2 {
      OneOrder(c, orders[0]);
      CloseMoves(c, orders[0]);
      TwoOrders(c, orders[0], orders[1]);
      OneOrder(AfterOrders(c, [orders[0]]), orders[1]);
      CloseMoves(AfterOrders(c, [orders[0]]), orders[1]);
      assert orders == [orders[0], orders[1]];
    }
  }

  lemma OneOrder(c: Counters, o: Order)
    ensures AfterOrders(c, [o]) == if o.error.NoError? then AfterTrade(c, TradeOf(Filled(o))) else c
  {
    hide AfterTrade, TradeOf;
    assert [o][1..] == [];
  }

  lemma TwoOrders(c: Counters, o: Order, o': Order)
    ensures AfterOrders(c, [o, o']) == AfterOrders(AfterOrders(c, [o]), [o'])
  {
    hide AfterTrade, TradeOf;
    assert [o, o'][1..] == [o'] && [o][1..] == [];
  }

  /** A request moves the counters as they themselves say, and those of no other instrument. */
  lemma SubmitRefines(mult: Multipliers, s: State, req: Request, i: uint32)
    requires IsSecurity(req.kind) || IsFuture(req.kind)
    ensures var c := Totals(BookOf(mult, s.acc, i));
      Totals(BookOf(mult, Submit(mult, s, req).acc, i))
      == if i == req.inst && Accepts(c, req, s.acc.cash >= req.qty as real * req.price) then AfterAccepted(c, req)
         else c
  {
    hide Totals, Accepts, AfterAccepted, SubmittedOrders, Check, AfterOrders;
    var placed := NextRequest(s).(acc := BeforePlacing(mult, s.acc, req));
    BooksBeforePlacing(mult, s.acc, req, i);
    OrdersOfRequest(mult, s.acc, req, Key(s.requestId));
    AcceptsIsCheck(mult, s.acc, req);
    PlaceAllRefines(mult, placed, SubmittedOrders(mult, s.acc, req, Key(s.requestId)), req.inst, i);
  }

  lemma BooksBeforePlacing(mult: Multipliers, acc: Account, req: Request, i: uint32)
    requires IsSecurity(req.kind) || IsFuture(req.kind)
    ensures BookOf(mult, BeforePlacing(mult, acc, req), i) == BookOf(mult, acc, i)
  {
    hide Check;
  }

  // ---------- the machine ----------

  datatype Cell = Cell(held: Counters, last: real)

  /** An instrument has a cell once it has been asked for. */
  datatype Machine = Machine(cells: map<uint32, Cell>, cash: real, profit: real)

  function CellAt(m: Machine, i: uint32): Cell {
    if i in m.cells then m.cells[i] else Cell(Counters(0, 0, 0, 0), 0.0)
  }

  function Net(c: Counters): int {
    c.longToday + c.longYst - c.shortToday - c.shortYst
  }

  predicate Admits(m: Machine, req: Request) {
    Accepts(CellAt(m, req.inst).held, req, m.cash >= req.qty as real * req.price)
  }

  /** What is executed is worth its quantity times how far the last price is from the price of the request. */
  function MachineRequest(mult: Multipliers, m: Machine, req: Request): Machine {
    var cell := CellAt(m, req.inst);
    if !IsSecurity(req.kind) && !IsFuture(req.kind) then m
    else if Admits(m, req) then
      var held := AfterAccepted(cell.held, req);
      var gained := Worth(mult(req.inst), Net(held) - Net(cell.held), cell.last - req.price);
      m.(cells := m.cells[req.inst := cell.(held := held)], profit := m.profit + gained)
    else if IsSecurity(req.kind) && req.longShort.Long? then m
    else m.(cells := m.cells[req.inst := cell])
  }

  function MachineTick(mult: Multipliers, m: Machine, i: uint32, price: real): Machine {
    var cell := CellAt(m, i);
    if i !in m.cells then m
    else m.(cells := m.cells[i := cell.(last := price)],
            profit := m.profit + Worth(mult(i), Net(cell.held), price - cell.last))
  }

  function MachineStep(mult: Multipliers, m: Machine, e: Event): Machine {
    match e
    case SubmitRequest(req) => MachineRequest(mult, m, req)
    case Tick(i, price) => MachineTick(mult, m, i, price)
    case NewDay => m.(cash := m.cash + m.profit, profit := 0.0)
  }

  function RunMachine(mult: Multipliers, m: Machine, events: seq<Event>): Machine
    decreases |events|
  {
    if events == [] then m else RunMachine(mult, MachineStep(mult, m, events[0]), events[1..])
  }

  // ---------- the account seen as a machine ----------

  function CellOf(b: Book): Cell {
    Cell(Totals(b), b.lastPrice)
  }

  function Cells(acc: Account): map<uint32, Cell> {
    map i | i in acc.books :: CellOf(acc.books[i])
  }

  ghost function Seen(acc: Account): Machine {
    Machine(Cells(acc), acc.cash, Equity(acc) - acc.cash)
  }

  lemma SeenAt(mult: Multipliers, acc: Account, i: uint32)
    ensures CellAt(Seen(acc), i) == CellOf(BookOf(mult, acc, i))
  {
  }

  lemma SeenKeys(acc: Account)
    ensures Seen(acc).cells == Cells(acc) && Cells(acc).Keys == acc.books.Keys && Seen(acc).cash == acc.cash
  {
  }

  lemma NetIsNetUnits(b: Book)
    ensures Net(Totals(b)) == NetUnits(b)
  {
  }

  lemma SeenWith(mult: Multipliers, acc: Account, i: uint32, b: Book)
    ensures var acc' := acc.(books := acc.books[i := b]);
      && Cells(acc') == Cells(acc)[i := CellOf(b)]
      && Seen(acc') == Machine(Cells(acc)[i := CellOf(b)], acc.cash,
                               Seen(acc).profit - Profit(BookOf(mult, acc, i)) + Profit(b))
  {
    hide Totals, PositionPnl;
    EquityUpdate(mult, acc, i, b);
  }

  /** The orders of an accepted request change one book, and its profit by the worth of what was executed. */
  lemma {:induction false} PlaceAllProfit(mult: Multipliers, s: State, orders: seq<Order>, i: uint32, price: real)
    requires forall k :: 0 <= k < |orders| ==>
      orders[k].inst == i && orders[k].price == price && orders[k].error.NoError?
    requires orders != [] || i in s.acc.books
    requires WellFormed(BookOf(mult, s.acc, i))
    ensures var b, b' := BookOf(mult, s.acc, i), BookOf(mult, PlaceAll(mult, s, orders).acc, i);
      && PlaceAll(mult, s, orders).acc == s.acc.(books := s.acc.books[i := b'])
      && b'.lastPrice == b.lastPrice
      && Profit(b') == Profit(b) + Worth(b.multiplier, NetUnits(b') - NetUnits(b), b.lastPrice - price)
    decreases |orders|
  {
    hide WellFormed, NetUnits, PositionPnl, AddTrade, Executed, Worth;
    var b := BookOf(mult, s.acc, i);
    if orders == [] {
      WorthOfNone(b.multiplier, b.lastPrice - price);
    } else {
      var t := TradeOf(Filled(orders[0]));
      var s1, b1 := Place(mult, s, orders[0]), AddTrade(b, t);
      TradeLaw(b, t, b.lastPrice);
      PlaceAllProfit(mult, s1, orders[1..], i, price);
      var b' := BookOf(mult, PlaceAll(mult, s, orders).acc, i);
      WorthAdds(b.multiplier, Executed(b, t), NetUnits(b') - NetUnits(b1), b.lastPrice - price);
    }
  }

  lemma RejectedAccount(mult: Multipliers, s: State, req: Request)
    requires (IsSecurity(req.kind) || IsFuture(req.kind)) && !Check(mult, s.acc, req).NoError?
    ensures Submit(mult, s, req).acc
         == if IsSecurity(req.kind) && req.longShort.Long? then s.acc else Touch(mult, s.acc, req.inst)
  {
    hide Touch;
    var orders := SubmittedOrders(mult, s.acc, req, Key(s.requestId));
    var placed := NextRequest(s).(acc := BeforePlacing(mult, s.acc, req));
    assert |orders| == 1 && orders[1..] == [] && !orders[0].error.NoError?;
    assert PlaceAll(mult, placed, orders) == Place(mult, placed, orders[0]);
  }

  lemma BeforeOrders(mult: Multipliers, acc: Account, req: Request, id: nat)
    requires (IsSecurity(req.kind) || IsFuture(req.kind)) && Check(mult, acc, req).NoError?
    ensures BeforePlacing(mult, acc, req) == acc || BeforePlacing(mult, acc, req) == Touch(mult, acc, req.inst)
    ensures SubmittedOrders(mult, acc, req, id) != [] || req.inst in BeforePlacing(mult, acc, req).books
  {
  }

  lemma AcceptedAccount(mult: Multipliers, s: State, req: Request)
    requires (IsSecurity(req.kind) || IsFuture(req.kind)) && Check(mult, s.acc, req).NoError?
    requires WellFormed(BookOf(mult, s.acc, req.inst))
    ensures var b, b' := BookOf(mult, s.acc, req.inst), BookOf(mult, Submit(mult, s, req).acc, req.inst);
      && Submit(mult, s, req).acc == s.acc.(books := s.acc.books[req.inst := b'])
      && b'.lastPrice == b.lastPrice
      && Profit(b') == Profit(b) + Worth(b.multiplier, NetUnits(b') - NetUnits(b), b.lastPrice - req.price)
  {
    hide WellFormed, NetUnits, PositionPnl, Worth, Check, SubmittedOrders, BeforePlacing, PlaceAll;
    var placed := NextRequest(s).(acc := BeforePlacing(mult, s.acc, req));
    BooksBeforePlacing(mult, s.acc, req, req.inst);
    BeforeOrders(mult, s.acc, req, Key(s.requestId));
    OrdersOfRequest(mult, s.acc, req, Key(s.requestId));
    PlaceAllProfit(mult, placed, SubmittedOrders(mult, s.acc, req, Key(s.requestId)), req.inst, req.price);
  }

  lemma RequestRefines(mult: Multipliers, s: State, req: Request)
    requires WellFormed(BookOf(mult, s.acc, req.inst)) && BookOf(mult, s.acc, req.inst).multiplier == mult(req.inst)
    ensures Seen(Submit(mult, s, req).acc) == MachineRequest(mult, Seen(s.acc), req)
  {
    hide WellFormed, NetUnits, PositionPnl, Worth, Check, Submit, Totals, Accepts, AfterAccepted, Equity, Net;
    if IsSecurity(req.kind) || IsFuture(req.kind) {
      var b, b' := BookOf(mult, s.acc, req.inst), BookOf(mult, Submit(mult, s, req).acc, req.inst);
      SeenAt(mult, s.acc, req.inst);
      AcceptsIsCheck(mult, s.acc, req);
      SubmitRefines(mult, s, req, req.inst);
      if Check(mult, s.acc, req).NoError? {
        AcceptedAccount(mult, s, req);
        NetIsNetUnits(b);
        NetIsNetUnits(b');
        SeenWith(mult, s.acc, req.inst, b');
      } else {
        RejectedAccount(mult, s, req);
        SeenWith(mult, s.acc, req.inst, b);
      }
    } else {
      Unhandled(mult, s, req);
    }
  }

  lemma Unhandled(mult: Multipliers, s: State, req: Request)
    requires !IsSecurity(req.kind) && !IsFuture(req.kind)
    ensures Submit(mult, s, req).acc == s.acc
  {
  }

  lemma Repriced(b: Book, price: real)
    ensures var b' := b.(lastPrice := price); Totals(b') == Totals(b) && Profit(b') == PositionPnl(b, price)
  {
  }

  lemma PriceRefines(mult: Multipliers, acc: Account, i: uint32, price: real)
    requires WellFormed(BookOf(mult, acc, i)) && BookOf(mult, acc, i).multiplier == mult(i)
    ensures Seen(UpdatePrice(acc, i, price)) == MachineTick(mult, Seen(acc), i, price)
  {
    hide Seen, WellFormed, PositionPnl, Totals, Net, Worth, NetUnits;
    SeenAt(mult, acc, i);
    SeenKeys(acc);
    if i in acc.books {
      var b := acc.books[i];
      NetIsNetUnits(b);
      MarkLaw(b, b.lastPrice, price);
      Repriced(b, price);
      SeenWith(mult, acc, i, b.(lastPrice := price));
    }
  }

  lemma RolledTotals(b: Book)
    requires WellFormed(b)
    ensures Totals(Rolled(b)) == Totals(b)
  {
    hide ResetPnl, PositionPnl;
    ResetLaw(b);
    var b' := Rolled(b);
    UnitCount(b'.longToday);
    UnitCount(b'.longYst);
    UnitCount(b'.shortToday);
    UnitCount(b'.shortYst);
  }

  lemma DayRefines(mult: Multipliers, acc: Account, log: seq<Execution>)
    requires BooksMatch(mult, acc, log)
    ensures var m := Seen(acc); Seen(StartDay(acc)) == m.(cash := m.cash + m.profit, profit := 0.0)
  {
    hide Totals, ResetPnl, PositionPnl, Equity;
    StartDayLaw(mult, acc, log);
    forall i | i in acc.books ensures CellOf(StartDay(acc).books[i]) == CellOf(acc.books[i]) {
      assert BookOf(mult, acc, i) == acc.books[i];
      RolledTotals(acc.books[i]);
      RolledLaw(acc.books[i]);
    }
  }

  /** Every event moves the account as the machine moves. */
  lemma EventRefines(mult: Multipliers, s: State, e: Event, log: seq<Execution>)
    requires BooksMatch(mult, s.acc, log)
    ensures Seen(StepEvent(mult, s, e).acc) == MachineStep(mult, Seen(s.acc), e)
  {
    hide Submit, Seen, WellFormed, NetUnits, StartDay, MachineRequest, MachineTick;
    match e
    case SubmitRequest(req) => RequestRefines(mult, s, req);
    case Tick(i, price) => PriceRefines(mult, s.acc, i, price);
    case NewDay => DayRefines(mult, s.acc, log);
  }

  lemma {:induction false} RunRefines(mult: Multipliers, s: State, events: seq<Event>, log: seq<Execution>, cash0: real)
    requires BooksMatch(mult, s.acc, log) && Conserved(mult, s.acc, log, cash0)
    ensures Seen(RunEvents(mult, s, events).acc) == RunMachine(mult, Seen(s.acc), events)
    decreases |events|
  {
    hide BooksMatch, Conserved, StepEvent, MachineStep, Seen, EventExecutions;
    if events != [] {
      var e := events[0];
      EventRefines(mult, s, e, log);
      EventKeeps(mult, s, e, log, cash0);
      RunRefines(mult, StepEvent(mult, s, e), events[1..], log + EventExecutions(mult, s, e), cash0);
    }
  }

  /** From an empty account and over any run, the machine says what the account does: which instruments have
      a position, its four queue totals and last price, the cash, the equity, and what is accepted next. */
  lemma QueuesRefineCounters(mult: Multipliers, cash0: real, events: seq<Event>, req: Request)
    requires IsSecurity(req.kind) || IsFuture(req.kind)
    ensures var acc := RunEvents(mult, State(Account(map[], cash0), map[], 0, []), events).acc;
      var m := RunMachine(mult, Machine(map[], cash0, 0.0), events);
      && acc.books.Keys == m.cells.Keys
      && (forall i :: i in acc.books ==> m.cells[i] == Cell(Totals(acc.books[i]), acc.books[i].lastPrice))
      && acc.cash == m.cash && Equity(acc) == m.cash + m.profit
      && (Check(mult, acc, req).NoError? <==> Admits(m, req))
  {
    hide RunEvents, RunMachine, Totals, Check, Equity, Accepts;
    var s0 := State(Account(map[], cash0), map[], 0, []);
    NothingYet(mult, cash0);
    RunRefines(mult, s0, events, [], cash0);
    var acc := RunEvents(mult, s0, events).acc;
    SeenAt(mult, acc, req.inst);
    AcceptsIsCheck(mult, acc, req);
  }

  lemma NothingYet(mult: Multipliers, cash0: real)
    ensures var acc := Account(map[], cash0);
      BooksMatch(mult, acc, []) && Conserved(mult, acc, [], cash0) && Seen(acc) == Machine(map[], cash0, 0.0)
  {
  }
}
