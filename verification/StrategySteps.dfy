/** What each step of the strategy trades: side, quantity, price, and what is booked for it. */
module StrategySteps {
  import opened Position
  import opened PositionLaws
  import opened OrderData
  import opened OrderManager
  import opened Conservation
  import opened OrderRecords
  import opened StrategyLedger

  /** int(ppl + 0.5) */
  function Lots(ins: Instrument): int {
    (ins.ppl + 0.5).Floor
  }

  /** One order was submitted, and executed in full at its price. */
  ghost predicate Executes(mult: Multipliers, d: Desk, d': Desk, openClose: OpenClose, side: LongShort, qty: int,
                           price: real) {
    && 0 <= qty < UINT32_RANGE
    && var req := Request(ShfeNewOrder, d.ins.inst, qty, price, openClose, side);
       && d'.om == Submit(mult, d.om, req)
       && ExecutedAt(EventExecutions(mult, d.om, SubmitRequest(req)), d.ins.inst,
                     if side.Long? then qty else 0 - qty, price)
  }

  function ShortSold(ins: Instrument, k: int, price: real): Instrument {
    ins.(shortQty := ins.shortQty + k, numTrades := ins.numTrades + k, cumShort := ins.cumShort + price * k as real)
  }

  function LongBought(ins: Instrument, k: int, price: real): Instrument {
    ins.(longQty := ins.longQty + k, numTrades := ins.numTrades + k, cumLong := ins.cumLong + price * k as real)
  }

  /** int(ppl + 0.5) units are sold at bid. */
  ghost predicate OpensShort(mult: Multipliers, d: Desk, d': Desk, bid: real) {
    Executes(mult, d, d', Open, Short, Lots(d.ins), bid) && d'.ins == ShortSold(d.ins, Lots(d.ins), bid)
  }

  /** int(ppl + 0.5) units are bought at ask. */
  ghost predicate OpensLong(mult: Multipliers, d: Desk, d': Desk, ask: real) {
    Executes(mult, d, d', Open, Long, Lots(d.ins), ask) && d'.ins == LongBought(d.ins, Lots(d.ins), ask)
  }

  /** k long units sold at a price gain multiplier x k x (price - average cost). */
  function LongSold(ins: Instrument, k: int, price: real, multiplier: uint32): Instrument
    requires ins.longQty != 0
  {
    var avg := ins.cumLong / ins.longQty as real;
    ins.(longQty := ins.longQty - k, cumLong := ins.cumLong - k as real * avg,
         pnl := ins.pnl + multiplier as real * (k as real * (price - avg)))
  }

  function ShortBought(ins: Instrument, k: int, price: real, multiplier: uint32): Instrument
    requires ins.shortQty != 0
  {
    var avg := ins.cumShort / ins.shortQty as real;
    ins.(shortQty := ins.shortQty - k, cumShort := ins.cumShort - k as real * avg,
         pnl := ins.pnl + multiplier as real * (k as real * (avg - price)))
  }

  /** min(int(ppl + 0.5), held) units are sold at bid. */
  ghost predicate ClosesLong(mult: Multipliers, d: Desk, d': Desk, bid: real) {
    var k := Min(Lots(d.ins), d.ins.longQty);
    && d.ins.longQty != 0 && Executes(mult, d, d', Close, Short, k, bid)
    && d'.ins == LongSold(d.ins, k, bid, BookOf(mult, d.om.acc, d.ins.inst).multiplier)
  }

  /** min(int(ppl + 0.5), held) units are bought back at ask. */
  ghost predicate ClosesShort(mult: Multipliers, d: Desk, d': Desk, ask: real) {
    var k := Min(Lots(d.ins), d.ins.shortQty);
    && d.ins.shortQty != 0 && Executes(mult, d, d', Close, Long, k, ask)
    && d'.ins == ShortBought(d.ins, k, ask, BookOf(mult, d.om.acc, d.ins.inst).multiplier)
  }

  /** An entry on the signals: short at bid, else long at ask, else nothing.  Only when the order size rounds to 0
      are two orders of 0 sent. */
  ghost predicate Entered(mult: Multipliers, d: Desk, d': Desk, shortSignal: bool, longSignal: bool, bid: real,
                          ask: real) {
    if shortSignal && d.ins.shortQty < d.ins.maxPos && d.ins.longQty == 0 then
      if longSignal && d.ins.shortQty == 0 && Lots(d.ins) == 0 then
        exists mid :: OpensShort(mult, d, mid, bid) && OpensLong(mult, mid, d', ask)
      else OpensShort(mult, d, d', bid)
    else if longSignal && d.ins.longQty < d.ins.maxPos && d.ins.shortQty == 0 then OpensLong(mult, d, d', ask)
    else d' == d
  }

  /** An exit on the signals: what is long is sold at bid, what is short bought back at ask, else nothing. */
  ghost predicate Exited(mult: Multipliers, d: Desk, d': Desk, longSignal: bool, shortSignal: bool, bid: real,
                         ask: real) {
    if longSignal && d.ins.longQty > 0 then ClosesLong(mult, d, d', bid)
    else if shortSignal && d.ins.shortQty > 0 then ClosesShort(mult, d, d', ask)
    else d' == d
  }

  /** The price is known to the position from now on; nothing else changes. */
  ghost predicate Marked(mult: Multipliers, d: Desk, d': Desk, price: real) {
    && d'.ins == d.ins && d'.om == d.om.(acc := d'.om.acc) && d'.om.acc.cash == d.om.acc.cash
    && d'.om.acc.books.Keys == d.om.acc.books.Keys
    && forall i :: i in d.om.acc.books ==>
         d'.om.acc.books[i] == if i == d.ins.inst then d.om.acc.books[i].(lastPrice := price) else d.om.acc.books[i]
  }

  // ---------- the four actions ----------

  lemma OpenExecutes(mult: Multipliers, d: Desk, d': Desk, side: LongShort, price: real)
    requires Linked(mult, d) && InRange(d.ins) && 0 <= Lots(d.ins) < UINT32_RANGE && !side.NoLongShort?
    requires d'.om == Submit(mult, d.om, Request(ShfeNewOrder, d.ins.inst, Lots(d.ins), price, Open, side))
    ensures Executes(mult, d, d', Open, side, Lots(d.ins), price)
  {
    hide Submit, EventExecutions, ExecutedAt, WellFormed, PnlAgrees;
    RequestExecutes(mult, d.om, Request(ShfeNewOrder, d.ins.inst, Lots(d.ins), price, Open, side));
  }

  lemma CloseExecutes(mult: Multipliers, d: Desk, d': Desk, side: LongShort, k: uint32, price: real)
    requires Linked(mult, d) && !side.NoLongShort? && k <= if side.Long? then d.ins.shortQty else d.ins.longQty
    requires d'.om == Submit(mult, d.om, Request(ShfeNewOrder, d.ins.inst, k, price, Close, side))
    ensures Executes(mult, d, d', Close, side, k, price)
  {
    ExitAccepted(mult, d, k, price, side);
    hide Submit, EventExecutions, ExecutedAt, WellFormed, PnlAgrees, Check;
    RequestExecutes(mult, d.om, Request(ShfeNewOrder, d.ins.inst, k, price, Close, side));
  }

  lemma Opened(ins: Instrument, k: nat, price: real)
    ensures Shorted(ins, k, price) == ShortSold(ins, k, price) && Bought(ins, k, price) == LongBought(ins, k, price)
  {
  }

  lemma EnterShortTrades(mult: Multipliers, d: Desk, bid: real)
    requires Linked(mult, d) && InRange(d.ins)
    ensures OpensShort(mult, d, EnterShort(mult, d, bid), bid)
  {
    SizeBounds(d.ins, 0);
    hide Submit, Linked, Executes, ShortSold, Shorted;
    Opened(d.ins, LotSize(d.ins), bid);
    OpenExecutes(mult, d, EnterShort(mult, d, bid), Short, bid);
  }

  lemma EnterLongTrades(mult: Multipliers, d: Desk, ask: real)
    requires Linked(mult, d) && InRange(d.ins)
    ensures OpensLong(mult, d, EnterLong(mult, d, ask), ask)
  {
    SizeBounds(d.ins, 0);
    hide Submit, Linked, Executes, LongBought, Bought;
    Opened(d.ins, LotSize(d.ins), ask);
    OpenExecutes(mult, d, EnterLong(mult, d, ask), Long, ask);
  }

  lemma BookedIs(size: int, move: real, tick: real, m: real)
    requires tick > 0.0
    ensures Booked(size, move, tick, m * tick) == m * (size as real * move)
  {
    Untick(size as real * move, tick, m);
  }

  lemma NothingBooked(avg: real, m: real, move: real)
    ensures (0 as real) * avg == 0.0 && m * ((0 as real) * move) == 0.0
  {
  }

  lemma LongGain(ins: Instrument, k: nat, price: real, m: uint32)
    requires ins.tickSize > 0.0 && ins.tickPrice == m as real * ins.tickSize && ins.longQty != 0
    ensures CalculatePnl(ins, true, k, price).(longQty := ins.longQty - k) == LongSold(ins, k, price, m)
  {
    var avg := Average(ins.cumLong, ins.longQty);
    BookedIs(k, price - avg, ins.tickSize, m as real);
    if k == 0 {
      NothingBooked(avg, m as real, price - avg);
    }
    hide Booked;
  }

  lemma ShortGain(ins: Instrument, k: nat, price: real, m: uint32)
    requires ins.tickSize > 0.0 && ins.tickPrice == m as real * ins.tickSize && ins.shortQty != 0
    ensures CalculatePnl(ins, false, k, price).(shortQty := ins.shortQty - k) == ShortBought(ins, k, price, m)
  {
    var avg := Average(ins.cumShort, ins.shortQty);
    BookedIs(k, avg - price, ins.tickSize, m as real);
    if k == 0 {
      NothingBooked(avg, m as real, avg - price);
    }
    hide Booked;
  }

  lemma TickPriceIs(mult: Multipliers, d: Desk)
    requires Linked(mult, d)
    ensures d.ins.tickSize > 0.0
    ensures d.ins.tickPrice == BookOf(mult, d.om.acc, d.ins.inst).multiplier as real * d.ins.tickSize
  {
    hide PnlAgrees, WellFormed, BookOf;
  }

  lemma ExitLongTrades(mult: Multipliers, d: Desk, bid: real)
    requires Linked(mult, d) && InRange(d.ins) && d.ins.longQty != 0
    ensures ClosesLong(mult, d, ExitLong(mult, d, bid), bid)
  {
    hide Submit, Executes, CalculatePnl, Linked, BookOf, LongSold, ShortBought;
    SizeBounds(d.ins, d.ins.longQty);
    TickPriceIs(mult, d);
    var k := ExitSize(d.ins, d.ins.longQty);
    CloseExecutes(mult, d, ExitLong(mult, d, bid), Short, k, bid);
    LongGain(d.ins, k, bid, BookOf(mult, d.om.acc, d.ins.inst).multiplier);
  }

  lemma ExitShortTrades(mult: Multipliers, d: Desk, ask: real)
    requires Linked(mult, d) && InRange(d.ins) && d.ins.shortQty != 0
    ensures ClosesShort(mult, d, ExitShort(mult, d, ask), ask)
  {
    hide Submit, Executes, CalculatePnl, Linked, BookOf, LongSold, ShortBought;
    SizeBounds(d.ins, d.ins.shortQty);
    TickPriceIs(mult, d);
    var k := ExitSize(d.ins, d.ins.shortQty);
    CloseExecutes(mult, d, ExitShort(mult, d, ask), Long, k, ask);
    ShortGain(d.ins, k, ask, BookOf(mult, d.om.acc, d.ins.inst).multiplier);
  }

  // ---------- one step ----------

  lemma OneSided(mult: Multipliers, d: Desk)
    requires Linked(mult, d)
    ensures d.ins.longQty >= 0 && d.ins.shortQty >= 0 && (d.ins.longQty == 0 || d.ins.shortQty == 0)
    ensures d.ins.maxPos >= 1
  {
    hide PnlAgrees;
  }

  lemma EnterTrades(mult: Multipliers, d: Desk, shortSignal: bool, longSignal: bool, bid: real, ask: real)
    requires Linked(mult, d) && InRange(d.ins)
    ensures Entered(mult, d, DoEnter(mult, d, shortSignal, longSignal, bid, ask), shortSignal, longSignal, bid, ask)
  {
    hide Submit, Linked, Executes, EnterLong;
    OneSided(mult, d);
    SizeBounds(d.ins, 0);
    if d.ins.shortQty < d.ins.maxPos && d.ins.longQty == 0 && shortSignal {
      EnterShortTrades(mult, d, bid);
      var mid := EnterShort(mult, d, bid);
      if longSignal && mid.ins.shortQty == 0 {
        EnterShortKeeps(mult, d, bid);
        EnterLongTrades(mult, mid, ask);
      }
    } else if d.ins.longQty < d.ins.maxPos && d.ins.shortQty == 0 && longSignal {
      EnterLongTrades(mult, d, ask);
    }
  }

  lemma ExitTrades(mult: Multipliers, d: Desk, longSignal: bool, shortSignal: bool, bid: real, ask: real)
    requires Linked(mult, d) && InRange(d.ins)
    ensures Exited(mult, d, DoExit(mult, d, longSignal, shortSignal, bid, ask), longSignal, shortSignal, bid, ask)
  {
    hide Submit, Linked, Executes, CalculatePnl;
    OneSided(mult, d);
    SizeBounds(d.ins, d.ins.longQty);
    if d.ins.longQty != 0 && longSignal {
      ExitLongTrades(mult, d, bid);
      hide ExitLong;
      assert ExitLong(mult, d, bid).ins.shortQty == 0;
    } else if d.ins.shortQty != 0 && shortSignal {
      ExitShortTrades(mult, d, ask);
    }
  }

  /** What one step trades, from any desk whose ledgers agree. */
  ghost predicate StepTrades(mult: Multipliers, d: Desk, d': Desk, step: StrategyStep) {
    match step
    case Enter(s, l, bid, ask) => Entered(mult, d, d', s, l, bid, ask)
    case Exit(l, s, bid, ask) => Exited(mult, d, d', l, s, bid, ask)
    case Liquidate(bid, ask) => Exited(mult, d, d', true, true, bid, ask)
    case Mark(price) => Marked(mult, d, d', price)
  }

  lemma EveryStepTrades(mult: Multipliers, d: Desk, step: StrategyStep)
    requires Linked(mult, d) && InRange(d.ins)
    ensures StepTrades(mult, d, StepDesk(mult, d, step), step)
  {
    hide Linked, DoEnter, DoExit, Entered, Exited;
    match step
    case Enter(s, l, bid, ask) => EnterTrades(mult, d, s, l, bid, ask);
    case Exit(l, s, bid, ask) => ExitTrades(mult, d, l, s, bid, ask);
    case Liquidate(bid, ask) => ExitTrades(mult, d, true, true, bid, ask);
    case Mark(price) =>
  }
}
