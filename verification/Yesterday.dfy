/** The nightly move of today's lots into yesterday's works on copies, so in a whole back-test no lot ever
    becomes a yesterday lot.  What follows from that. */
module Yesterday {
  import opened Position
  import opened PositionLaws
  import opened OrderData
  import opened OrderManager
  import opened AccountLaws
  import opened Conservation

  predicate TodayOnly(b: Book) {
    WellFormed(b) && b.longYst == [] && b.shortYst == []
  }

  ghost predicate AllTodayOnly(mult: Multipliers, acc: Account) {
    forall i :: TodayOnly(BookOf(mult, acc, i))
  }

  lemma TradeKeepsToday(b: Book, o: Order)
    requires TodayOnly(b)
    ensures TodayOnly(AddTrade(b, TradeOf(o)))
  {
    hide PositionPnl;
    TradeLaw(b, TradeOf(o), 0.0);
  }

  lemma {:induction false} PlaceAllKeepsToday(mult: Multipliers, s: State, orders: seq<Order>)
    requires AllTodayOnly(mult, s.acc)
    ensures AllTodayOnly(mult, PlaceAll(mult, s, orders).acc)
    decreases |orders|
  {
    if orders != [] {
      var o := orders[0];
      var s1 := Place(mult, s, o);
      forall i ensures TodayOnly(BookOf(mult, s1.acc, i)) {
        assert TodayOnly(BookOf(mult, s.acc, i));
        if o.error.NoError? && i == o.inst {
          TradeKeepsToday(BookOf(mult, s.acc, i), Filled(o));
        }
      }
      PlaceAllKeepsToday(mult, s1, orders[1..]);
    }
  }

  lemma EventKeepsToday(mult: Multipliers, s: State, e: Event)
    requires AllTodayOnly(mult, s.acc)
    ensures AllTodayOnly(mult, StepEvent(mult, s, e).acc)
  {
    var s' := StepEvent(mult, s, e);
    match e
    case SubmitRequest(req) =>
      if IsSecurity(req.kind) || IsFuture(req.kind) {
        var placed := NextRequest(s).(acc := BeforePlacing(mult, s.acc, req));
        forall i ensures TodayOnly(BookOf(mult, placed.acc, i)) {
          assert BookOf(mult, placed.acc, i) == BookOf(mult, s.acc, i);
        }
        PlaceAllKeepsToday(mult, placed, SubmittedOrders(mult, s.acc, req, Key(s.requestId)));
      }
    case Tick(inst, price) =>
      forall i ensures TodayOnly(BookOf(mult, s'.acc, i)) {
        assert TodayOnly(BookOf(mult, s.acc, i));
      }
    case NewDay =>
      forall i ensures TodayOnly(BookOf(mult, s'.acc, i)) {
        assert TodayOnly(BookOf(mult, s.acc, i));
        RolledKeepsToday(BookOf(mult, s.acc, i));
      }
  }

  lemma RolledKeepsToday(b: Book)
    requires TodayOnly(b)
    ensures TodayOnly(Rolled(b))
  {
    hide PositionPnl;
    ResetLaw(b);
  }

  lemma {:induction false} RunKeepsToday(mult: Multipliers, s: State, events: seq<Event>)
    requires AllTodayOnly(mult, s.acc)
    ensures AllTodayOnly(mult, RunEvents(mult, s, events).acc)
    decreases |events|
  {
    hide AllTodayOnly, StepEvent;
    if events != [] {
      EventKeepsToday(mult, s, events[0]);
      RunKeepsToday(mult, StepEvent(mult, s, events[0]), events[1..]);
    }
  }

  /** In every reachable account, a sale of a security is accepted exactly when it asks for nothing, however much was
      bought; and an accepted close of futures goes entirely to today's lots. */
  lemma YesterdayStaysEmpty(mult: Multipliers, cash0: real, events: seq<Event>, req: Request)
    ensures var s := RunEvents(mult, State(Account(map[], cash0), map[], 0, []), events);
      && BookOf(mult, s.acc, req.inst).longYst == [] && BookOf(mult, s.acc, req.inst).shortYst == []
      && (IsSecurity(req.kind) && req.longShort.Short? ==> (Check(mult, s.acc, req).NoError? <==> req.qty == 0))
      && (IsClose(req) && !req.longShort.NoLongShort? && Check(mult, s.acc, req).NoError? ==>
            var orders := SubmittedOrders(mult, s.acc, req, Key(s.requestId));
            |orders| <= 1 && TotalOrdered(orders) == req.qty &&
            forall o :: o in orders ==> o.openClose.CloseToday? && o.qty == req.qty)
  {
    var s0 := State(Account(map[], cash0), map[], 0, []);
    RunKeepsToday(mult, s0, events);
    var s := RunEvents(mult, s0, events);
    assert TodayOnly(BookOf(mult, s.acc, req.inst));
    NoYesterday(mult, s, req);
  }

  lemma NoYesterday(mult: Multipliers, s: State, req: Request)
    requires TodayOnly(BookOf(mult, s.acc, req.inst))
    ensures IsSecurity(req.kind) && req.longShort.Short? ==> (Check(mult, s.acc, req).NoError? <==> req.qty == 0)
    ensures IsClose(req) && !req.longShort.NoLongShort? && Check(mult, s.acc, req).NoError? ==>
              var orders := SubmittedOrders(mult, s.acc, req, Key(s.requestId));
              |orders| <= 1 && TotalOrdered(orders) == req.qty &&
              forall o :: o in orders ==> o.openClose.CloseToday? && o.qty == req.qty
  {
    ModBound(TotalQty(TodayLots(BookOf(mult, s.acc, req.inst), req.longShort)));
  }
}
