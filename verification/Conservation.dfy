/** Conservation of equity over whole back-tests: any run of requests, price updates and day starts. */
module Conservation {
  import opened Position
  import opened PositionLaws
  import opened OrderData
  import opened OrderManager

  datatype Event =
    | SubmitRequest(req: Request)
    | Tick(inst: uint32, price: real)
    | NewDay

  /** A quantity really executed, positive when bought, and its price. */
  datatype Execution = Execution(inst: uint32, qty: int, price: real)

  ghost function StepEvent(mult: Multipliers, s: State, e: Event): State {
    match e
    case SubmitRequest(req) => Submit(mult, s, req)
    case Tick(inst, price) => s.(acc := UpdatePrice(s.acc, inst, price))
    case NewDay => NextDay(s)
  }

  function OrderExecution(mult: Multipliers, acc: Account, o: Order): seq<Execution> {
    if o.error.NoError? then
      [Execution(o.inst, Executed(BookOf(mult, acc, o.inst), TradeOf(Filled(o))), o.price)]
    else []
  }

  function OrderExecutions(mult: Multipliers, s: State, orders: seq<Order>): seq<Execution>
    decreases |orders|
  {
    if orders == [] then []
    else OrderExecution(mult, s.acc, orders[0]) + OrderExecutions(mult, Place(mult, s, orders[0]), orders[1..])
  }

  function EventExecutions(mult: Multipliers, s: State, e: Event): seq<Execution> {
    if e.SubmitRequest? && (IsSecurity(e.req.kind) || IsFuture(e.req.kind)) then
      OrderExecutions(mult, NextRequest(s).(acc := BeforePlacing(mult, s.acc, e.req)),
                      SubmittedOrders(mult, s.acc, e.req, Key(s.requestId)))
    else []
  }

  ghost function RunEvents(mult: Multipliers, s: State, events: seq<Event>): State
    decreases |events|
  {
    if events == [] then s else RunEvents(mult, StepEvent(mult, s, events[0]), events[1..])
  }

  /** Every execution of a run, oldest first. */
  ghost function Executions(mult: Multipliers, s: State, events: seq<Event>): seq<Execution>
    decreases |events|
  {
    if events == [] then []
    else EventExecutions(mult, s, events[0]) + Executions(mult, StepEvent(mult, s, events[0]), events[1..])
  }

  function Net(log: seq<Execution>, inst: uint32): int {
    if log == [] then 0
    else Net(log[..|log| - 1], inst) + if log[|log| - 1].inst == inst then log[|log| - 1].qty else 0
  }

  /** multiplier x quantity x (last price - trade price), summed over every execution. */
  function TradedWorth(mult: Multipliers, log: seq<Execution>, last: uint32 -> real): real {
    if log == [] then 0.0
    else
      var x := log[|log| - 1];
      TradedWorth(mult, log[..|log| - 1], last) + Worth(mult(x.inst), x.qty, last(x.inst) - x.price)
  }

  /** Each instrument's last price, as its position knows it. */
  function LastPrices(mult: Multipliers, acc: Account): uint32 -> real {
    (i: uint32) => BookOf(mult, acc, i).lastPrice
  }

  ghost predicate BooksMatch(mult: Multipliers, acc: Account, log: seq<Execution>) {
    forall i :: WellFormed(BookOf(mult, acc, i)) && BookOf(mult, acc, i).multiplier == mult(i)
                && NetUnits(BookOf(mult, acc, i)) == Net(log, i)
  }

  ghost predicate Conserved(mult: Multipliers, acc: Account, log: seq<Execution>, cash0: real) {
    Equity(acc) == cash0 + TradedWorth(mult, log, LastPrices(mult, acc))
  }

  // ---------- sums ----------

  /** Replacing one book moves the equity by the difference of the two profits. */
  lemma EquityUpdate(mult: Multipliers, acc: Account, i: uint32, b: Book)
    ensures Equity(acc.(books := acc.books[i := b])) == Equity(acc) - Profit(BookOf(mult, acc, i)) + Profit(b)
  {
    var acc' := acc.(books := acc.books[i := b]);
    var v, v' := PnlNow(acc.books), PnlNow(acc'.books);
    SumRemove(acc'.books.Keys, v', i);
    SumSame(acc.books.Keys - {i}, v, v');
    assert acc'.books.Keys - {i} == acc.books.Keys - {i};
    if i in acc.books {
      SumRemove(acc.books.Keys, v, i);
    } else {
      assert acc.books.Keys - {i} == acc.books.Keys;
      assert Profit(EmptyBook(mult(i))) == 0.0;
    }
  }

  lemma {:induction false} WorthSame(mult: Multipliers, log: seq<Execution>, last: uint32 -> real,
                                     last': uint32 -> real)
    requires forall i :: last(i) == last'(i)
    ensures TradedWorth(mult, log, last) == TradedWorth(mult, log, last')
  {
    if log != [] {
      WorthSame(mult, log[..|log| - 1], last, last');
    }
  }

  /** Moving one last price moves the traded worth by the net position. */
  lemma {:induction false} WorthMoves(mult: Multipliers, log: seq<Execution>, last: uint32 -> real,
                                      last': uint32 -> real, i: uint32)
    requires forall j :: j != i ==> last'(j) == last(j)
    ensures TradedWorth(mult, log, last')
         == TradedWorth(mult, log, last) + Worth(mult(i), Net(log, i), last'(i) - last(i))
  {
    var d := last'(i) - last(i);
    if log == [] {
      WorthOfNone(mult(i), d);
    } else {
      var x := log[|log| - 1];
      WorthMoves(mult, log[..|log| - 1], last, last', i);
      if x.inst == i {
        WorthAdds(mult(i), Net(log[..|log| - 1], i), x.qty, d);
        WorthChain(mult(i), x.qty, last(i) - x.price, d);
      }
    }
  }

  lemma WorthOfNone(multiplier: uint32, move: real)
    ensures Worth(multiplier, 0, move) == 0.0
  {
  }

  lemma WorthChain(multiplier: uint32, qty: int, a: real, b: real)
    ensures Worth(multiplier, qty, a + b) == Worth(multiplier, qty, a) + Worth(multiplier, qty, b)
  {
    ChainReals(multiplier as real * qty as real, a, b);
  }

  lemma ChainReals(x: real, a: real, b: real)
    ensures x * (a + b) == x * a + x * b
  {
  }

  // ---------- one event ----------

  lemma TouchKeeps(mult: Multipliers, acc: Account, i: uint32, log: seq<Execution>, cash0: real)
    requires BooksMatch(mult, acc, log) && Conserved(mult, acc, log, cash0)
    ensures BooksMatch(mult, Touch(mult, acc, i), log) && Conserved(mult, Touch(mult, acc, i), log, cash0)
  {
    var acc' := Touch(mult, acc, i);
    forall j ensures BookOf(mult, acc', j) == BookOf(mult, acc, j) {}
    EquityUpdate(mult, acc, i, BookOf(mult, acc, i));
    WorthSame(mult, log, LastPrices(mult, acc), LastPrices(mult, acc'));
  }

  lemma TradeKeepsBooks(mult: Multipliers, acc: Account, i: uint32, t: TradeInfo, log: seq<Execution>)
    requires BooksMatch(mult, acc, log)
    ensures BooksMatch(mult, WithTrade(mult, acc, i, t),
                       log + [Execution(i, Executed(BookOf(mult, acc, i), t), t.price)])
  {
    var b := BookOf(mult, acc, i);
    var acc' := WithTrade(mult, acc, i, t);
    var log' := log + [Execution(i, Executed(b, t), t.price)];
    assert log'[..|log'| - 1] == log;
    TradeLaw(b, t, b.lastPrice);
    forall j
      ensures WellFormed(BookOf(mult, acc', j)) && BookOf(mult, acc', j).multiplier == mult(j)
      ensures NetUnits(BookOf(mult, acc', j)) == Net(log', j)
    {
      assert BookOf(mult, acc', j) == if j == i then AddTrade(b, t) else BookOf(mult, acc, j);
    }
  }

  lemma ProfitAfterTrade(b: Book, t: TradeInfo)
    requires WellFormed(b)
    ensures Profit(AddTrade(b, t)) == Profit(b) + Worth(b.multiplier, Executed(b, t), b.lastPrice - t.price)
    ensures AddTrade(b, t).lastPrice == b.lastPrice
  {
    TradeLaw(b, t, b.lastPrice);
  }

  lemma PricesAfter(mult: Multipliers, acc: Account, i: uint32, b: Book, log: seq<Execution>)
    requires b.lastPrice == BookOf(mult, acc, i).lastPrice
    ensures TradedWorth(mult, log, LastPrices(mult, acc.(books := acc.books[i := b])))
         == TradedWorth(mult, log, LastPrices(mult, acc))
  {
    WorthSame(mult, log, LastPrices(mult, acc.(books := acc.books[i := b])), LastPrices(mult, acc));
  }

  lemma WorthAppend(mult: Multipliers, log: seq<Execution>, x: Execution, last: uint32 -> real)
    ensures TradedWorth(mult, log + [x], last)
         == TradedWorth(mult, log, last) + Worth(mult(x.inst), x.qty, last(x.inst) - x.price)
  {
    assert (log + [x])[..|log|] == log;
  }

  lemma TradeKeepsEquity(mult: Multipliers, acc: Account, i: uint32, t: TradeInfo, log: seq<Execution>, cash0: real)
    requires WellFormed(BookOf(mult, acc, i)) && BookOf(mult, acc, i).multiplier == mult(i)
    requires Conserved(mult, acc, log, cash0)
    ensures Conserved(mult, WithTrade(mult, acc, i, t),
                      log + [Execution(i, Executed(BookOf(mult, acc, i), t), t.price)], cash0)
  {
    var b := BookOf(mult, acc, i);
    var log' := log + [Execution(i, Executed(b, t), t.price)];
    ProfitAfterTrade(b, t);
    EquityUpdate(mult, acc, i, AddTrade(b, t));
    PricesAfter(mult, acc, i, AddTrade(b, t), log');
    WorthAppend(mult, log, Execution(i, Executed(b, t), t.price), LastPrices(mult, acc));
  }

  lemma TradeKeeps(mult: Multipliers, acc: Account, i: uint32, t: TradeInfo, log: seq<Execution>, cash0: real)
    requires BooksMatch(mult, acc, log) && Conserved(mult, acc, log, cash0)
    ensures var log' := log + [Execution(i, Executed(BookOf(mult, acc, i), t), t.price)];
      BooksMatch(mult, WithTrade(mult, acc, i, t), log') && Conserved(mult, WithTrade(mult, acc, i, t), log', cash0)
  {
    TradeKeepsBooks(mult, acc, i, t, log);
    TradeKeepsEquity(mult, acc, i, t, log, cash0);
  }

  lemma PriceKeeps(mult: Multipliers, acc: Account, i: uint32, price: real, log: seq<Execution>, cash0: real)
    requires BooksMatch(mult, acc, log) && Conserved(mult, acc, log, cash0)
    ensures BooksMatch(mult, UpdatePrice(acc, i, price), log)
         && Conserved(mult, UpdatePrice(acc, i, price), log, cash0)
  {
    hide Net, TradedWorth, Equity, Worth;
    if i in acc.books {
      var acc' := UpdatePrice(acc, i, price);
      var b, b' := acc.books[i], acc'.books[i];
      assert BookOf(mult, acc, i) == b;
      MarkLaw(b, b.lastPrice, price);
      EquityUpdate(mult, acc, i, b');
      assert forall j :: j != i ==> BookOf(mult, acc', j) == BookOf(mult, acc, j);
      WorthMoves(mult, log, LastPrices(mult, acc), LastPrices(mult, acc'), i);
    }
  }

  lemma {:induction false} SumZero(insts: set<uint32>, value: uint32 -> real)
    requires forall i :: i in insts ==> value(i) == 0.0
    ensures SumOver(insts, value) == 0.0
  {
    if insts != {} {
      var i :| i in insts;
      SumRemove(insts, value, i);
      SumZero(insts - {i}, value);
    }
  }

  /** The nightly mark moves all profit into the cash: equity is unchanged, every position starts the day at 0. */
  lemma StartDayLaw(mult: Multipliers, acc: Account, log: seq<Execution>)
    requires BooksMatch(mult, acc, log)
    ensures var acc' := StartDay(acc);
      && Equity(acc') == acc'.cash == Equity(acc)
      && BooksMatch(mult, acc', log)
      && forall i :: BookOf(mult, acc', i).lastPrice == BookOf(mult, acc, i).lastPrice
                     && Profit(BookOf(mult, acc', i)) == 0.0 && BookOf(mult, acc', i).tradeCount == 0
  {
    var acc' := StartDay(acc);
    forall i
      ensures WellFormed(BookOf(mult, acc', i)) && BookOf(mult, acc', i).multiplier == mult(i)
      ensures NetUnits(BookOf(mult, acc', i)) == Net(log, i)
      ensures BookOf(mult, acc', i).lastPrice == BookOf(mult, acc, i).lastPrice
      ensures Profit(BookOf(mult, acc', i)) == 0.0 && BookOf(mult, acc', i).tradeCount == 0
    {
      if i in acc.books {
        assert BookOf(mult, acc, i) == acc.books[i];
        RolledLaw(acc.books[i]);
      }
    }
    forall i | i in acc'.books ensures PnlNow(acc'.books)(i) == 0.0 {
      assert BookOf(mult, acc', i) == acc'.books[i];
    }
    SumZero(acc'.books.Keys, PnlNow(acc'.books));
  }

  lemma RolledLaw(b: Book)
    requires WellFormed(b)
    ensures WellFormed(Rolled(b)) && Rolled(b).multiplier == b.multiplier && Rolled(b).lastPrice == b.lastPrice
    ensures NetUnits(Rolled(b)) == NetUnits(b) && Profit(Rolled(b)) == 0.0 && Rolled(b).tradeCount == 0
  {
    ResetLaw(b);
  }

  lemma PlaceKeeps(mult: Multipliers, s: State, o: Order, log: seq<Execution>, cash0: real)
    requires BooksMatch(mult, s.acc, log) && Conserved(mult, s.acc, log, cash0)
    ensures var acc' := Place(mult, s, o).acc; var log' := log + OrderExecution(mult, s.acc, o);
      BooksMatch(mult, acc', log') && Conserved(mult, acc', log', cash0)
  {
    hide BooksMatch, Conserved, Executed;
    if o.error.NoError? {
      TradeKeeps(mult, s.acc, o.inst, TradeOf(Filled(o)), log, cash0);
    } else {
      assert log + [] == log;
    }
  }

  lemma {:induction false} PlaceAllKeeps(mult: Multipliers, s: State, orders: seq<Order>, log: seq<Execution>,
                                         cash0: real)
    requires BooksMatch(mult, s.acc, log) && Conserved(mult, s.acc, log, cash0)
    ensures BooksMatch(mult, PlaceAll(mult, s, orders).acc, log + OrderExecutions(mult, s, orders))
    ensures Conserved(mult, PlaceAll(mult, s, orders).acc, log + OrderExecutions(mult, s, orders), cash0)
    decreases |orders|
  {
    if orders == [] {
      assert log + [] == log;
    } else {
      var s1 := Place(mult, s, orders[0]);
      var head := OrderExecution(mult, s.acc, orders[0]);
      PlaceKeeps(mult, s, orders[0], log, cash0);
      PlaceAllKeeps(mult, s1, orders[1..], log + head, cash0);
      Associate(log, head, OrderExecutions(mult, s1, orders[1..]));
    }
  }

  lemma Associate<T>(a: seq<T>, b: seq<T>, c: seq<T>)
    ensures a + (b + c) == (a + b) + c
  {
  }

  lemma SubmitKeeps(mult: Multipliers, s: State, req: Request, log: seq<Execution>, cash0: real)
    requires BooksMatch(mult, s.acc, log) && Conserved(mult, s.acc, log, cash0)
    ensures var s' := Submit(mult, s, req); var log' := log + EventExecutions(mult, s, SubmitRequest(req));
      BooksMatch(mult, s'.acc, log') && Conserved(mult, s'.acc, log', cash0)
  {
    hide BooksMatch, Conserved, SubmittedOrders, Touch;
    if IsSecurity(req.kind) || IsFuture(req.kind) {
      var placed := NextRequest(s).(acc := BeforePlacing(mult, s.acc, req));
      TouchKeeps(mult, s.acc, req.inst, log, cash0);
      TouchKeeps(mult, Touch(mult, s.acc, req.inst), req.inst, log, cash0);
      PlaceAllKeeps(mult, placed, SubmittedOrders(mult, s.acc, req, Key(s.requestId)), log, cash0);
    } else {
      assert log + [] == log;
    }
  }

  lemma EventKeeps(mult: Multipliers, s: State, e: Event, log: seq<Execution>, cash0: real)
    requires BooksMatch(mult, s.acc, log) && Conserved(mult, s.acc, log, cash0)
    ensures var s' := StepEvent(mult, s, e); var log' := log + EventExecutions(mult, s, e);
      BooksMatch(mult, s'.acc, log') && Conserved(mult, s'.acc, log', cash0)
  {
    match e
    case SubmitRequest(req) => SubmitKeeps(mult, s, req, log, cash0);
    case Tick(inst, price) =>
      assert log + [] == log;
      PriceKeeps(mult, s.acc, inst, price, log, cash0);
    case NewDay =>
      assert log + [] == log;
      StartDayLaw(mult, s.acc, log);
      WorthSame(mult, log, LastPrices(mult, s.acc), LastPrices(mult, StartDay(s.acc)));
  }

  lemma {:induction false} RunKeeps(mult: Multipliers, s: State, events: seq<Event>, log: seq<Execution>, cash0: real)
    requires BooksMatch(mult, s.acc, log) && Conserved(mult, s.acc, log, cash0)
    ensures BooksMatch(mult, RunEvents(mult, s, events).acc, log + Executions(mult, s, events))
    ensures Conserved(mult, RunEvents(mult, s, events).acc, log + Executions(mult, s, events), cash0)
    decreases |events|
  {
    if events == [] {
      assert log + [] == log;
    } else {
      var s1 := StepEvent(mult, s, events[0]);
      var head := EventExecutions(mult, s, events[0]);
      EventKeeps(mult, s, events[0], log, cash0);
      RunKeeps(mult, s1, events[1..], log + head, cash0);
      Associate(log, head, Executions(mult, s1, events[1..]));
    }
  }

  /** Over any run from an empty account, cash plus every position's marked profit is the initial cash plus,
      for every execution ever made, multiplier x signed quantity x (last price - trade price);
      and every net position is the sum of its instrument's executions. */
  lemma EquityConservation(mult: Multipliers, cash0: real, events: seq<Event>)
    ensures var s0 := State(Account(map[], cash0), map[], 0, []);
      var s := RunEvents(mult, s0, events); var log := Executions(mult, s0, events);
      && Equity(s.acc) == cash0 + TradedWorth(mult, log, LastPrices(mult, s.acc))
      && forall i :: NetUnits(BookOf(mult, s.acc, i)) == Net(log, i)
  {
    var s0 := State(Account(map[], cash0), map[], 0, []);
    RunKeeps(mult, s0, events, [], cash0);
    assert [] + Executions(mult, s0, events) == Executions(mult, s0, events);
  }
}
