/** The strategy object: trading fields of one instrument, updated step by step around each request. */
module Strategy {
  import opened Position
  import opened OrderData
  import OM = OrderManager
  import opened PositionLaws
  import opened StrategyLedger
  import opened StrategySteps

  class SingleStrategy {
    const orderManager: OM.FakeOrderManager
    const inst: uint32
    const ppl: real
    const maxPos: int
    const tickSize: real
    const tickPrice: real
    var longOpenPositionQty: int
    var shortOpenPositionQty: int
    var cumLongPrice: real
    var cumShortPrice: real
    var pnl: real
    var numTrades: int

    function Fields(): Instrument
      reads this
    {
      Instrument(inst, ppl, maxPos, tickSize, tickPrice, longOpenPositionQty, shortOpenPositionQty,
                 cumLongPrice, cumShortPrice, pnl, numTrades)
    }

    ghost function View(): Desk
      reads this, orderManager, orderManager.posMgr, orderManager.posMgr.allPositions.Values
    {
      Desk(orderManager.View(), Fields())
    }

    /** AddInstrument's settings; lots per order come from the configuration. */
    constructor (orderManager: OM.FakeOrderManager, inst: uint32, ppl: real, tickSize: real)
      ensures this.orderManager == orderManager
      ensures Fields() == Instrument(inst, ppl, 1, tickSize, orderManager.posMgr.mult(inst) as real * tickSize,
                                     0, 0, 0.0, 0.0, 0.0, 0)
    {
      this.orderManager := orderManager;
      this.inst, this.ppl, this.maxPos := inst, ppl, 1;
      this.tickSize, this.tickPrice := tickSize, orderManager.posMgr.mult(inst) as real * tickSize;
      longOpenPositionQty, shortOpenPositionQty := 0, 0;
      cumLongPrice, cumShortPrice, pnl, numTrades := 0.0, 0.0, 0.0, 0;
    }

    method SubmitOrder(qty: uint32, price: real, openClose: OpenClose, side: LongShort)
      requires orderManager.Valid()
      modifies orderManager, orderManager.posMgr`allPositions, orderManager.posMgr.allPositions.Values
      ensures orderManager.Valid()
      ensures orderManager.View()
           == OM.Submit(orderManager.posMgr.mult, old(orderManager.View()),
                        Ask(old(Fields()), qty, price, openClose, side))
      ensures fresh(orderManager.posMgr.allPositions.Values - old(orderManager.posMgr.allPositions.Values))
    {
      var _, _ := orderManager.SubmitRequest(Request(ShfeNewOrder, inst, qty, price, openClose, side));
    }

    method CalculatePnl(exitLong: bool, exitSize: int, exitPx: real)
      requires tickSize > 0.0
      requires exitSize > 0 ==> (if exitLong then longOpenPositionQty else shortOpenPositionQty) != 0
      modifies this`pnl, this`cumLongPrice, this`cumShortPrice
      ensures Fields() == StrategyLedger.CalculatePnl(old(Fields()), exitLong, exitSize, exitPx)
    {
      hide Average, Booked;
      if exitLong && exitSize > 0 {
        var avgPx := Average(cumLongPrice, longOpenPositionQty);
        pnl := pnl + Booked(exitSize, exitPx - avgPx, tickSize, tickPrice);
        cumLongPrice := cumLongPrice - exitSize as real * avgPx;
      } else if !exitLong && exitSize > 0 {
        var avgPx := Average(cumShortPrice, shortOpenPositionQty);
        pnl := pnl + Booked(exitSize, avgPx - exitPx, tickSize, tickPrice);
        cumShortPrice := cumShortPrice - exitSize as real * avgPx;
      }
    }

    method SellToOpen(bid: real)
      requires orderManager.Valid() && InRange(Fields())
      modifies this, orderManager, orderManager.posMgr`allPositions, orderManager.posMgr.allPositions.Values
      ensures orderManager.Valid() && View() == EnterShort(orderManager.posMgr.mult, old(View()), bid)
      ensures fresh(orderManager.posMgr.allPositions.Values - old(orderManager.posMgr.allPositions.Values))
    {
      hide OM.Submit, OM.FakeOrderManager.Valid, OM.FakeOrderManager.View;
      SizeBounds(Fields(), 0);
      var qty := (ppl + 0.5).Floor;
      SubmitOrder(qty, bid, Open, Short);
      shortOpenPositionQty := shortOpenPositionQty + qty;
      numTrades := numTrades + qty;
      cumShortPrice := cumShortPrice + bid * qty as real;
    }

    method BuyToOpen(ask: real)
      requires orderManager.Valid() && InRange(Fields())
      modifies this, orderManager, orderManager.posMgr`allPositions, orderManager.posMgr.allPositions.Values
      ensures orderManager.Valid() && View() == EnterLong(orderManager.posMgr.mult, old(View()), ask)
      ensures fresh(orderManager.posMgr.allPositions.Values - old(orderManager.posMgr.allPositions.Values))
    {
      hide OM.Submit, OM.FakeOrderManager.Valid, OM.FakeOrderManager.View;
      SizeBounds(Fields(), 0);
      var qty := (ppl + 0.5).Floor;
      SubmitOrder(qty, ask, Open, Long);
      longOpenPositionQty := longOpenPositionQty + qty;
      numTrades := numTrades + qty;
      cumLongPrice := cumLongPrice + ask * qty as real;
    }

    method SellToClose(bid: real)
      requires orderManager.Valid() && InRange(Fields()) && longOpenPositionQty != 0
      modifies this, orderManager, orderManager.posMgr`allPositions, orderManager.posMgr.allPositions.Values
      ensures orderManager.Valid() && View() == ExitLong(orderManager.posMgr.mult, old(View()), bid)
      ensures fresh(orderManager.posMgr.allPositions.Values - old(orderManager.posMgr.allPositions.Values))
    {
      hide OM.Submit, OM.FakeOrderManager.Valid, OM.FakeOrderManager.View;
      SizeBounds(Fields(), longOpenPositionQty);
      var open := longOpenPositionQty as real;
      var qty := (if ppl + 0.5 <= open then ppl + 0.5 else open).Floor;
      SubmitOrder(qty, bid, Close, Short);
      CalculatePnl(true, qty, bid);
      longOpenPositionQty := longOpenPositionQty - qty;
    }

    method BuyToClose(ask: real)
      requires orderManager.Valid() && InRange(Fields()) && shortOpenPositionQty != 0
      modifies this, orderManager, orderManager.posMgr`allPositions, orderManager.posMgr.allPositions.Values
      ensures orderManager.Valid() && View() == ExitShort(orderManager.posMgr.mult, old(View()), ask)
      ensures fresh(orderManager.posMgr.allPositions.Values - old(orderManager.posMgr.allPositions.Values))
    {
      hide OM.Submit, OM.FakeOrderManager.Valid, OM.FakeOrderManager.View;
      SizeBounds(Fields(), shortOpenPositionQty);
      var open := shortOpenPositionQty as real;
      var qty := (if ppl + 0.5 <= open then ppl + 0.5 else open).Floor;
      SubmitOrder(qty, ask, Close, Long);
      CalculatePnl(false, qty, ask);
      shortOpenPositionQty := shortOpenPositionQty - qty;
    }

    method OnEnter(shortSignal: bool, longSignal: bool, bid: real, ask: real)
      requires orderManager.Valid() && InRange(Fields())
      modifies this, orderManager, orderManager.posMgr`allPositions, orderManager.posMgr.allPositions.Values
      ensures orderManager.Valid()
      ensures View() == DoEnter(orderManager.posMgr.mult, old(View()), shortSignal, longSignal, bid, ask)
      ensures Linked(orderManager.posMgr.mult, old(View())) ==>
        Entered(orderManager.posMgr.mult, old(View()), View(), shortSignal, longSignal, bid, ask)
      ensures fresh(orderManager.posMgr.allPositions.Values - old(orderManager.posMgr.allPositions.Values))
    {
      hide OM.Submit, OM.FakeOrderManager.Valid, OM.FakeOrderManager.View, Linked, Entered;
      ghost var d := View();
      if Linked(orderManager.posMgr.mult, d) {
        EnterTrades(orderManager.posMgr.mult, d, shortSignal, longSignal, bid, ask);
      }
      if shortOpenPositionQty < maxPos && longOpenPositionQty == 0 && shortSignal {
        SellToOpen(bid);
      }
      if longOpenPositionQty < maxPos && shortOpenPositionQty == 0 && longSignal {
        BuyToOpen(ask);
      }
    }

    method OnExit(longSignal: bool, shortSignal: bool, bid: real, ask: real)
      requires orderManager.Valid() && InRange(Fields())
      modifies this, orderManager, orderManager.posMgr`allPositions, orderManager.posMgr.allPositions.Values
      ensures orderManager.Valid()
      ensures View() == DoExit(orderManager.posMgr.mult, old(View()), longSignal, shortSignal, bid, ask)
      ensures Linked(orderManager.posMgr.mult, old(View())) ==>
        Exited(orderManager.posMgr.mult, old(View()), View(), longSignal, shortSignal, bid, ask)
      ensures fresh(orderManager.posMgr.allPositions.Values - old(orderManager.posMgr.allPositions.Values))
    {
      hide OM.Submit, OM.FakeOrderManager.Valid, OM.FakeOrderManager.View, Linked, Exited;
      ghost var d := View();
      if Linked(orderManager.posMgr.mult, d) {
        ExitTrades(orderManager.posMgr.mult, d, longSignal, shortSignal, bid, ask);
      }
      SizeBounds(Fields(), longOpenPositionQty);
      if longOpenPositionQty != 0 && longSignal {
        SellToClose(bid);
      }
      if shortOpenPositionQty != 0 && shortSignal {
        BuyToClose(ask);
      }
    }

    /** The manager's positions learn a price of the instrument; the strategy's fields stay. */
    method OnPrice(price: real)
      requires orderManager.Valid() && InRange(Fields())
      modifies orderManager.posMgr.allPositions.Values
      ensures orderManager.Valid()
      ensures View() == StepDesk(orderManager.posMgr.mult, old(View()), Mark(price))
    {
      orderManager.posMgr.OnMarketData(inst, price);
    }

    method TakeStep(step: StrategyStep)
      requires orderManager.Valid() && InRange(Fields())
      modifies this, orderManager, orderManager.posMgr`allPositions, orderManager.posMgr.allPositions.Values
      ensures orderManager.Valid()
      ensures View() == StepDesk(orderManager.posMgr.mult, old(View()), step)
      ensures Linked(orderManager.posMgr.mult, old(View())) ==>
        StepTrades(orderManager.posMgr.mult, old(View()), View(), step)
      ensures fresh(orderManager.posMgr.allPositions.Values - old(orderManager.posMgr.allPositions.Values))
    {
      hide DoEnter, DoExit, OM.FakeOrderManager.Valid, OM.FakeOrderManager.View, Linked, StepTrades;
      if Linked(orderManager.posMgr.mult, View()) {
        EveryStepTrades(orderManager.posMgr.mult, View(), step);
      }
      match step
      case Enter(s, l, bid, ask) => OnEnter(s, l, bid, ask);
      case Exit(l, s, bid, ask) => OnExit(l, s, bid, ask);
      case Liquidate(bid, ask) => OnExit(true, true, bid, ask);
      case Mark(price) => OnPrice(price);
    }

    method TakeSteps(steps: seq<StrategyStep>)
      requires orderManager.Valid() && InRange(Fields())
      modifies this, orderManager, orderManager.posMgr`allPositions, orderManager.posMgr.allPositions.Values
      ensures orderManager.Valid()
      ensures View() == RunDesk(orderManager.posMgr.mult, old(View()), steps)
    {
      hide StepDesk, InRange, OM.FakeOrderManager.Valid, OM.FakeOrderManager.View;
      ghost var mult, start := orderManager.posMgr.mult, View();
      for i := 0 to |steps|
        invariant orderManager.Valid() && InRange(Fields())
        invariant fresh(orderManager.posMgr.allPositions.Values - old(orderManager.posMgr.allPositions.Values))
        invariant RunDesk(mult, View(), steps[i..]) == RunDesk(mult, start, steps)
      {
        TakeStep(steps[i]);
      }
    }

    /** Whatever happens in a day: a strategy whose ledger agrees with its position still does in the end,
        and its own profit plus its open value is the position's profit at every mark price. */
    method TradeDay(steps: seq<StrategyStep>)
      requires orderManager.Valid() && InRange(Fields()) && Linked(orderManager.posMgr.mult, View())
      modifies this, orderManager, orderManager.posMgr`allPositions, orderManager.posMgr.allPositions.Values
      ensures orderManager.Valid()
      ensures View() == RunDesk(orderManager.posMgr.mult, old(View()), steps)
      ensures var b := BookOf(orderManager.posMgr.mult, orderManager.posMgr.View(), inst);
        && longOpenPositionQty == LongUnits(b) && shortOpenPositionQty == ShortUnits(b)
        && forall p: real :: pnl + OpenWorth(Fields(), b.multiplier, p) == PositionPnl(b, p)
    {
      hide RunDesk, InRange, BookOf, OM.FakeOrderManager.Valid;
      ghost var mult, start := orderManager.posMgr.mult, View();
      TakeSteps(steps);
      LedgersAgree(mult, start, steps);
      LinkedFacts(mult, RunDesk(mult, start, steps));
    }
  }
}
