/** What the position arithmetic means: the lot queues are run-length forms of queues of single units,
    and one trade changes the marked profit by its own quantity times the distance from the mark. */
module PositionLaws {
  import opened Position

  // ---------- lots as queues of units ----------

  function Copies(price: real, n: nat): seq<real> {
    seq(n, _ => price)
  }

  /** The queue of single units a lot queue stands for: one entry price per unit, oldest first. */
  function UnitPrices(lots: Lots): seq<real> {
    if lots == [] then [] else Copies(lots[0].price, lots[0].qty) + UnitPrices(lots[1..])
  }

  lemma {:induction false} UnitCount(lots: Lots)
    ensures |UnitPrices(lots)| == Units(lots)
  {
    if lots != [] {
      UnitCount(lots[1..]);
    }
  }

  lemma {:induction false} UnitsAppend(lots: Lots, item: PositionItem)
    ensures UnitPrices(lots + [item]) == UnitPrices(lots) + Copies(item.price, item.qty)
    ensures Units(lots + [item]) == Units(lots) + item.qty
  {
    if lots != [] {
      UnitsAppend(lots[1..], item);
      assert (lots + [item])[1..] == lots[1..] + [item];
      assert UnitPrices(lots + [item])
          == Copies(lots[0].price, lots[0].qty) + (UnitPrices(lots[1..]) + Copies(item.price, item.qty));
    } else {
      assert [item][1..] == [];
      assert UnitPrices([item]) == Copies(item.price, item.qty) + [];
    }
  }

  /** Sum of the signed price differences of a sequence of units. */
  function SumDiff(units: seq<real>, price: real, isLong: bool): real {
    if units == [] then 0.0 else Diff(isLong, price, units[0]) + SumDiff(units[1..], price, isLong)
  }

  /** n times d, as repeated addition. */
  function Times(n: nat, d: real): real {
    if n == 0 then 0.0 else d + Times(n - 1, d)
  }

  lemma {:induction false} TimesIsProduct(n: nat, d: real)
    ensures Times(n, d) == n as real * d
  {
    if n > 0 {
      TimesIsProduct(n - 1, d);
      assert n as real == (n - 1) as real + 1.0;
      AddTimes((n - 1) as real, 1.0, d);
    }
  }

  lemma {:induction false} SumDiffCopies(unit: real, n: nat, rest: seq<real>, price: real, isLong: bool)
    ensures SumDiff(Copies(unit, n) + rest, price, isLong)
         == Times(n, Diff(isLong, price, unit)) + SumDiff(rest, price, isLong)
  {
    if n > 0 {
      SumDiffCons(unit, Copies(unit, n - 1) + rest, price, isLong);
      assert Copies(unit, n) + rest == [unit] + (Copies(unit, n - 1) + rest);
      SumDiffCopies(unit, n - 1, rest, price, isLong);
    } else {
      assert Copies(unit, 0) + rest == rest;
    }
  }

  lemma SumDiffCons(unit: real, rest: seq<real>, price: real, isLong: bool)
    ensures SumDiff([unit] + rest, price, isLong) == Diff(isLong, price, unit) + SumDiff(rest, price, isLong)
  {
    assert ([unit] + rest)[1..] == rest;
  }

  lemma CopiesLeft(price: real, n: nat, k: nat)
    requires k <= n
    ensures |Copies(price, n)| == n && Copies(price, n)[k..] == Copies(price, n - k)
  {
  }

  lemma HeadUnits(lot: PositionItem, rest: Lots)
    ensures UnitPrices([lot] + rest) == Copies(lot.price, lot.qty) + UnitPrices(rest)
    ensures |Copies(lot.price, lot.qty)| == lot.qty
  {
    assert ([lot] + rest)[1..] == rest;
  }

  lemma DropThrough<T>(head: seq<T>, tail: seq<T>, k: nat)
    requires k <= |head| + |tail|
    ensures (head + tail)[k..] == if k < |head| then head[k..] + tail else tail[k - |head|..]
  {
  }

  /** Closing takes the oldest units, as many as there are, and nothing else. */
  lemma {:induction false} ConsumeTakesOldest(lots: Lots, qty: uint32)
    ensures UnitPrices(Consume(lots, qty)) == UnitPrices(lots)[Min(qty, |UnitPrices(lots)|)..]
    ensures Unmatched(lots, qty) == qty - Min(qty, |UnitPrices(lots)|)
    decreases |lots|
  {
    hide Copies, UnitPrices;
    if lots == [] {
      UnitCount(lots);
    } else if qty > 0 {
      var lot, tail := lots[0], UnitPrices(lots[1..]);
      HeadUnits(lot, lots[1..]);
      assert [lot] + lots[1..] == lots;
      DropThrough(Copies(lot.price, lot.qty), tail, Min(qty, lot.qty + |tail|));
      if lot.qty <= qty {
        ConsumeTakesOldest(lots[1..], qty - lot.qty);
      } else {
        HeadUnits(lot.(qty := lot.qty - qty), lots[1..]);
        CopiesLeft(lot.price, lot.qty, qty);
      }
    }
  }

  /** The oldest min(qty, total) units. */
  function Oldest(lots: Lots, qty: uint32): seq<real> {
    UnitPrices(lots)[..Min(qty, |UnitPrices(lots)|)]
  }

  lemma OldestStep(lots: Lots, qty: uint32)
    requires lots != []
    ensures Oldest(lots, qty)
         == Copies(lots[0].price, Min(lots[0].qty, qty)) + Oldest(lots[1..], qty - Min(lots[0].qty, qty))
  {
  }

  lemma {:induction false} GainSumsOldest(lots: Lots, qty: uint32, price: real, isLong: bool, multiplier: uint32)
    ensures Gain(lots, qty, price, isLong, multiplier) == Times(multiplier, SumDiff(Oldest(lots, qty), price, isLong))
    decreases |lots|
  {
    hide Oldest, MatchGain, Diff, Times;
    if qty == 0 || lots == [] {
      NoneOldest(lots, qty, price, isLong);
      TimesIsProduct(multiplier, 0.0);
    } else {
      var matched := Min(lots[0].qty, qty);
      GainSumsOldest(lots[1..], qty - matched, price, isLong, multiplier);
      OldestSum(lots, qty, price, isLong);
      MatchIsTimes(matched, isLong, price, lots[0].price, multiplier);
      TimesAdds(multiplier, Times(matched, Diff(isLong, price, lots[0].price)),
                SumDiff(Oldest(lots[1..], qty - matched), price, isLong));
    }
  }

  lemma NoneOldest(lots: Lots, qty: uint32, price: real, isLong: bool)
    requires qty == 0 || lots == []
    ensures SumDiff(Oldest(lots, qty), price, isLong) == 0.0
  {
  }

  lemma OldestSum(lots: Lots, qty: uint32, price: real, isLong: bool)
    requires lots != []
    ensures var matched := Min(lots[0].qty, qty);
      SumDiff(Oldest(lots, qty), price, isLong)
        == Times(matched, Diff(isLong, price, lots[0].price)) + SumDiff(Oldest(lots[1..], qty - matched), price, isLong)
  {
    var matched := Min(lots[0].qty, qty);
    OldestStep(lots, qty);
    SumDiffCopies(lots[0].price, matched, Oldest(lots[1..], qty - matched), price, isLong);
  }

  lemma MatchIsTimes(n: uint32, isLong: bool, t: real, u: real, multiplier: uint32)
    ensures MatchGain(n, isLong, t, u, multiplier) == Times(multiplier, Times(n, Diff(isLong, t, u)))
  {
    TimesIsProduct(n, Diff(isLong, t, u));
    TimesIsProduct(multiplier, Times(n, Diff(isLong, t, u)));
  }

  lemma TimesAdds(n: nat, a: real, b: real)
    ensures Times(n, a + b) == Times(n, a) + Times(n, b)
  {
    TimesIsProduct(n, a);
    TimesIsProduct(n, b);
    TimesIsProduct(n, a + b);
  }

  lemma AddTimes(a: real, b: real, m: real)
    ensures a * m + b * m == (a + b) * m
  {
  }

  /** Unit-lot refinement of one close: the queue drops exactly its oldest min(qty, total) units, and their
      signed price differences times the multiplier are realized; the other three queues are untouched. */
  lemma CloseRefinesUnits(b: Book, t: TradeInfo)
    requires !t.isOpen
    ensures var b' := AddTrade(b, t); var units := UnitPrices(ClosedQueue(b, t)); var k := Min(t.qty, |units|);
      && UnitPrices(ClosedQueue(b', t)) == units[k..]
      && b'.realized == b.realized + Times(b.multiplier, SumDiff(units[..k], t.price, t.isLong))
      && WithClosedQueue(b', t, ClosedQueue(b, t)).(realized := b.realized) == b
  {
    ConsumeTakesOldest(ClosedQueue(b, t), t.qty);
    GainSumsOldest(ClosedQueue(b, t), t.qty, t.price, t.isLong, b.multiplier);
  }

  // ---------- the trade count ----------

  function TradeAll(b: Book, trades: seq<TradeInfo>): Book
    decreases |trades|
  {
    if trades == [] then b else TradeAll(AddTrade(b, trades[0]), trades[1..])
  }

  /** The quantity opened by a sequence of trades. */
  function OpenedQty(trades: seq<TradeInfo>): nat {
    if trades == [] then 0 else (if trades[0].isOpen then trades[0].qty else 0) + OpenedQty(trades[1..])
  }

  /** The trade count is the quantity opened so far, in 32 bits. */
  lemma {:induction false} TradesCounted(b: Book, trades: seq<TradeInfo>)
    ensures TradeAll(b, trades).tradeCount == (b.tradeCount + OpenedQty(trades)) % UINT32_RANGE
    decreases |trades|
  {
    hide Consume, Gain;
    if trades != [] {
      var t, b1 := trades[0], AddTrade(b, trades[0]);
      TradesCounted(b1, trades[1..]);
      NextSum(b.tradeCount, if t.isOpen then t.qty else 0, OpenedQty(trades[1..]));
    }
  }

  // ---------- the amount of a queue ----------

  /** The sum of price times quantity. */
  function Cost(lots: Lots): real {
    if lots == [] then 0.0 else AtPrice(lots[0].price, lots[0].qty) + Cost(lots[1..])
  }

  /** Only the last lot holds anything. */
  predicate LastOnly(lots: Lots) {
    forall k :: 0 <= k < |lots| - 1 ==> lots[k].qty == 0
  }

  predicate Priced(lots: Lots) {
    forall k :: 0 <= k < |lots| ==> lots[k].price > 0.0
  }

  lemma LastOnlyStep(lots: Lots)
    requires Priced(lots)
    ensures lots == [] ==> LastOnly(lots)
    ensures lots != [] ==> lots[0].price > 0.0 && Priced(lots[1..])
    ensures lots != [] ==> (LastOnly(lots) <==> lots[1..] == [] || (lots[0].qty == 0 && LastOnly(lots[1..])))
  {
    assert forall k :: 0 <= k < |lots| - 1 ==> lots[1..][k] == lots[k + 1];
  }

  lemma {:induction false} AmountAbove(lots: Lots, before: uint32)
    requires Priced(lots) && before + Units(lots) < UINT32_RANGE
    ensures Amount(lots, before) >= Cost(lots)
    ensures Amount(lots, before) == Cost(lots) <==> lots == [] || (before == 0 && LastOnly(lots))
  {
    hide AtPrice, LastOnly, Priced;
    if lots == [] {
      LastOnlyStep(lots);
    } else {
      var rest, sum := lots[1..], before + lots[0].qty;
      LastOnlyStep(lots);
      AmountAbove(rest, sum);
      Excess(lots[0].price, before, lots[0].qty);
    }
  }

  lemma Excess(price: real, before: nat, qty: nat)
    requires price > 0.0
    ensures AtPrice(price, before + qty) >= AtPrice(price, qty)
    ensures AtPrice(price, before + qty) == AtPrice(price, qty) <==> before == 0
  {
    var d := before as real;
    assert (before + qty) as real == d + qty as real;
    assert price * (d + qty as real) == price * d + price * qty as real;
    assert before > 0 ==> price * d > 0.0;
  }

  /** The amount is the sum of price times quantity exactly when no lot but the last holds anything. */
  lemma AmountIsCostIff(lots: Lots)
    requires Priced(lots) && Units(lots) < UINT32_RANGE
    ensures Amount(lots, 0) == Cost(lots) <==> LastOnly(lots)
  {
    AmountAbove(lots, 0);
  }

  // ---------- the invariant of a position, and the change one trade makes ----------

  predicate Tagged(lots: Lots, isLong: bool) {
    forall lot :: lot in lots ==> lot.isLong == isLong
  }

  /** Every lot sits in a queue of its own direction. */
  predicate WellFormed(b: Book) {
    Tagged(b.longToday, true) && Tagged(b.longYst, true) && Tagged(b.shortToday, false) && Tagged(b.shortYst, false)
  }

  function LongUnits(b: Book): nat {
    Units(b.longToday) + Units(b.longYst)
  }

  function ShortUnits(b: Book): nat {
    Units(b.shortToday) + Units(b.shortYst)
  }

  function NetUnits(b: Book): int {
    LongUnits(b) - ShortUnits(b)
  }

  /** The quantity a trade really executes, positive when bought. */
  function Executed(b: Book, t: TradeInfo): int {
    if t.isOpen then if t.isLong then t.qty as int else -(t.qty as int)
    else
      var matched := t.qty - Unmatched(ClosedQueue(b, t), t.qty);
      if t.isLong then matched else -matched
  }

  lemma {:induction false} ConsumeCounts(lots: Lots, qty: uint32, isLong: bool)
    requires Tagged(lots, isLong)
    ensures Tagged(Consume(lots, qty), isLong)
    ensures Units(Consume(lots, qty)) == Units(lots) - (qty - Unmatched(lots, qty))
    ensures Unmatched(lots, qty) == qty - Min(qty, Units(lots))
    decreases |lots|
  {
    if qty != 0 && lots != [] && lots[0].qty <= qty {
      ConsumeCounts(lots[1..], qty - lots[0].qty, isLong);
    }
  }

  // Profits of matched units add up over quantities, and over a chain of prices.

  lemma MatchAdds(a: uint32, b: uint32, isLong: bool, t: real, u: real, multiplier: uint32)
    requires a + b < UINT32_RANGE
    ensures MatchGain(a + b, isLong, t, u, multiplier)
         == MatchGain(a, isLong, t, u, multiplier) + MatchGain(b, isLong, t, u, multiplier)
  {
    var d, m := Diff(isLong, t, u), multiplier as real;
    assert (a + b) as real == a as real + b as real;
    assert (a as real + b as real) * d == a as real * d + b as real * d;
    AddTimes(a as real * d, b as real * d, m);
  }

  lemma MatchChain(n: uint32, isLong: bool, t: real, p: real, u: real, multiplier: uint32)
    ensures MatchGain(n, isLong, t, u, multiplier)
         == MatchGain(n, isLong, p, u, multiplier) + MatchGain(n, isLong, t, p, multiplier)
  {
    var d, e := Diff(isLong, p, u), Diff(isLong, t, p);
    assert Diff(isLong, t, u) == d + e;
    assert n as real * (d + e) == n as real * d + n as real * e;
    AddTimes(n as real * d, n as real * e, multiplier as real);
  }

  lemma LotAsMatch(lot: PositionItem, p: real, multiplier: uint32)
    ensures LotValue(lot, p, multiplier) == MatchGain(lot.qty, !lot.isLong, p, lot.price, multiplier)
  {
  }

  lemma MatchNothing(isLong: bool, t: real, u: real, multiplier: uint32)
    ensures MatchGain(0, isLong, t, u, multiplier) == 0.0
  {
  }

  /** What closing realizes plus what the rest is worth, marked at p, is what the queue was worth at p,
      corrected for the distance of the trade price from p. */
  lemma {:induction false} CloseAtMark(lots: Lots, qty: uint32, price: real, p: real, isLong: bool, multiplier: uint32)
    requires Tagged(lots, !isLong)
    ensures Unmatched(lots, qty) <= qty
    ensures Gain(lots, qty, price, isLong, multiplier) + OpenValue(Consume(lots, qty), p, multiplier)
         == OpenValue(lots, p, multiplier) + MatchGain(qty - Unmatched(lots, qty), isLong, price, p, multiplier)
    decreases |lots|
  {
    if qty == 0 || lots == [] {
      MatchNothing(isLong, price, p, multiplier);
    } else {
      var lot := lots[0];
      LotAsMatch(lot, p, multiplier);
      if lot.qty <= qty {
        CloseAtMark(lots[1..], qty - lot.qty, price, p, isLong, multiplier);
        MatchChain(lot.qty, isLong, price, p, lot.price, multiplier);
        MatchAdds(lot.qty, qty - lot.qty - Unmatched(lots[1..], qty - lot.qty), isLong, price, p, multiplier);
      } else {
        var rest := lot.(qty := lot.qty - qty);
        LotAsMatch(rest, p, multiplier);
        MatchChain(qty, isLong, price, p, lot.price, multiplier);
        MatchAdds(qty, lot.qty - qty, isLong, p, lot.price, multiplier);
        assert Gain(lots[1..], 0, price, isLong, multiplier) == 0.0;
      }
    }
  }

  lemma {:induction false} OpenValueAppend(lots: Lots, item: PositionItem, p: real, multiplier: uint32)
    ensures OpenValue(lots + [item], p, multiplier) == OpenValue(lots, p, multiplier) + LotValue(item, p, multiplier)
  {
    if lots != [] {
      OpenValueAppend(lots[1..], item, p, multiplier);
      assert (lots + [item])[1..] == lots[1..] + [item];
    } else {
      assert [item][1..] == [];
    }
  }

  /** Worth of holding `qty` units (short when negative) while the price moves by `move`. */
  function Worth(multiplier: uint32, qty: int, move: real): real {
    multiplier as real * qty as real * move
  }

  lemma MatchWorth(n: uint32, isLong: bool, price: real, p: real, multiplier: uint32)
    ensures MatchGain(n, isLong, price, p, multiplier)
         == Worth(multiplier, if isLong then n as int else -(n as int), p - price)
  {
    var x, d, m := n as real, p - price, multiplier as real;
    if isLong {
      Reorder(x, d, m);
    } else {
      assert price - p == -d;
      Reorder(x, d, m);
    }
  }

  lemma Reorder(x: real, d: real, m: real)
    ensures x * d * m == m * x * d
    ensures x * (-d) * m == m * (-x) * d
  {
  }

  /** The law of one trade: marked at any price p, the profit changes by
      multiplier x executed quantity x (p - trade price), and the net position by the executed quantity. */
  lemma TradeLaw(b: Book, t: TradeInfo, p: real)
    requires WellFormed(b)
    ensures var b' := AddTrade(b, t);
      && WellFormed(b')
      && NetUnits(b') == NetUnits(b) + Executed(b, t)
      && PositionPnl(b', p) == PositionPnl(b, p) + Worth(b.multiplier, Executed(b, t), p - t.price)
      && b'.lastPrice == b.lastPrice && b'.multiplier == b.multiplier
  {
    if t.isOpen {
      OpenLaw(b, t, p);
    } else {
      CloseLaw(b, t, p);
    }
  }

  lemma OpenLaw(b: Book, t: TradeInfo, p: real)
    requires WellFormed(b) && t.isOpen
    ensures var b' := AddTrade(b, t);
      && WellFormed(b')
      && NetUnits(b') == NetUnits(b) + Executed(b, t)
      && PositionPnl(b', p) == PositionPnl(b, p) + Worth(b.multiplier, Executed(b, t), p - t.price)
  {
    var item := PositionItem(t.price, t.qty, t.isLong, t.isToday);
    var queue := ClosedQueue(b, t.(isLong := !t.isLong));
    OpenValueAppend(queue, item, p, b.multiplier);
    UnitsAppend(queue, item);
    LotAsMatch(item, p, b.multiplier);
    MatchWorth(t.qty, !t.isLong, p, t.price, b.multiplier);
    WorthNegates(b.multiplier, Executed(b, t), p - t.price);
  }

  lemma WorthNegates(multiplier: uint32, qty: int, move: real)
    ensures Worth(multiplier, -qty, -move) == Worth(multiplier, qty, move)
  {
    assert (-qty) as real == -(qty as real);
    Cancel(multiplier as real, qty as real, move);
  }

  lemma Cancel(m: real, q: real, d: real)
    ensures m * (-q) * (-d) == m * q * d
  {
  }

  lemma CloseLaw(b: Book, t: TradeInfo, p: real)
    requires WellFormed(b) && !t.isOpen
    ensures var b' := AddTrade(b, t);
      && WellFormed(b')
      && NetUnits(b') == NetUnits(b) + Executed(b, t)
      && PositionPnl(b', p) == PositionPnl(b, p) + Worth(b.multiplier, Executed(b, t), p - t.price)
  {
    var queue := ClosedQueue(b, t);
    ConsumeCounts(queue, t.qty, !t.isLong);
    CloseAtMark(queue, t.qty, t.price, p, t.isLong, b.multiplier);
    MatchWorth(t.qty - Unmatched(queue, t.qty), t.isLong, t.price, p, b.multiplier);
  }

  /** Moving the mark moves the profit by multiplier x net position x move. */
  lemma MarkLaw(b: Book, p: real, p': real)
    requires WellFormed(b)
    ensures PositionPnl(b, p') == PositionPnl(b, p) + Worth(b.multiplier, NetUnits(b), p' - p)
  {
    hide Worth, OpenValue, Tagged;
    var m, d := b.multiplier, p' - p;
    MarkQueue(b.longToday, true, p, p', m);
    MarkQueue(b.longYst, true, p, p', m);
    MarkQueue(b.shortToday, false, p, p', m);
    MarkQueue(b.shortYst, false, p, p', m);
    WorthAdds(m, Units(b.longToday), Units(b.longYst), d);
    WorthAdds(m, 0 - Units(b.shortToday), 0 - Units(b.shortYst), d);
    WorthAdds(m, LongUnits(b), 0 - ShortUnits(b), d);
  }

  lemma WorthAdds(multiplier: uint32, a: int, b: int, move: real)
    ensures Worth(multiplier, a + b, move) == Worth(multiplier, a, move) + Worth(multiplier, b, move)
  {
    assert (a + b) as real == a as real + b as real;
    Distribute(multiplier as real, a as real, b as real, move);
  }

  lemma Distribute(m: real, a: real, b: real, d: real)
    ensures m * (a + b) * d == m * a * d + m * b * d
  {
  }

  lemma {:induction false} MarkQueue(lots: Lots, isLong: bool, p: real, p': real, multiplier: uint32)
    requires Tagged(lots, isLong)
    ensures OpenValue(lots, p', multiplier)
         == OpenValue(lots, p, multiplier) + Worth(multiplier, if isLong then Units(lots) else 0 - Units(lots), p' - p)
  {
    if lots != [] {
      var lot, rest := lots[0], lots[1..];
      MarkQueue(rest, isLong, p, p', multiplier);
      LotAsMatch(lot, p, multiplier);
      LotAsMatch(lot, p', multiplier);
      MatchChain(lot.qty, !isLong, p', p, lot.price, multiplier);
      MatchWorth(lot.qty, !isLong, p', p, multiplier);
      var n := if isLong then lot.qty as int else -(lot.qty as int);
      WorthNegates(multiplier, n, p' - p);
      WorthAdds(multiplier, n, if isLong then Units(rest) else 0 - Units(rest), p' - p);
    }
  }

  // ---------- the nightly mark ----------

  lemma {:induction false} WorthlessAtEntry(lots: Lots, p: real, multiplier: uint32)
    requires forall k :: 0 <= k < |UnitPrices(lots)| ==> UnitPrices(lots)[k] == p
    ensures OpenValue(lots, p, multiplier) == 0.0
  {
    if lots != [] {
      var units, head, rest := UnitPrices(lots), lots[0].qty, UnitPrices(lots[1..]);
      assert forall k :: 0 <= k < |rest| ==> rest[k] == units[head + k];
      WorthlessAtEntry(lots[1..], p, multiplier);
      if head > 0 {
        assert units[0] == lots[0].price;
        assert p - lots[0].price == 0.0;
      }
      LotAsMatch(lots[0], p, multiplier);
      assert LotValue(lots[0], p, multiplier) == 0.0;
    }
  }

  /** Closing and reopening the oldest q of a queue's units moves q units to the back, at the last price. */
  lemma RemarkOne(b: Book, q: uint32, isLong: bool, isToday: bool)
    requires WellFormed(b)
    requires q <= |UnitPrices(ClosedQueue(b, TradeInfo(b.lastPrice, q, false, !isLong, isToday)))|
    ensures var t := TradeInfo(b.lastPrice, q, false, !isLong, isToday);
      var b' := AddTrade(AddTrade(b, t), TradeInfo(b.lastPrice, q, true, isLong, isToday));
      && WellFormed(b') && b'.lastPrice == b.lastPrice && b'.multiplier == b.multiplier
      && UnitPrices(ClosedQueue(b', t)) == UnitPrices(ClosedQueue(b, t))[q..] + Copies(b.lastPrice, q)
      && WithClosedQueue(b', t, ClosedQueue(b, t)).(realized := b.realized, tradeCount := b.tradeCount) == b
  {
    var t := TradeInfo(b.lastPrice, q, false, !isLong, isToday);
    var open := TradeInfo(b.lastPrice, q, true, isLong, isToday);
    var closed := AddTrade(b, t);
    ConsumeTakesOldest(ClosedQueue(b, t), q);
    ConsumeCounts(ClosedQueue(b, t), q, isLong);
    UnitsAppend(ClosedQueue(closed, t), PositionItem(b.lastPrice, q, isLong, isToday));
  }

  /** Re-marking the whole of a queue leaves every unit at the last price and the other queues alone. */
  lemma {:induction false} RemarkUnits(b: Book, lots: Lots, isLong: bool, isToday: bool)
    requires WellFormed(b)
    requires var units := UnitPrices(ClosedQueue(b, TradeInfo(b.lastPrice, 0, false, !isLong, isToday)));
      Units(lots) <= |units| && forall k :: Units(lots) <= k < |units| ==> units[k] == b.lastPrice
    ensures var b' := Remark(b, lots, isLong, isToday); var t := TradeInfo(b.lastPrice, 0, false, !isLong, isToday);
      && WellFormed(b') && b'.lastPrice == b.lastPrice && b'.multiplier == b.multiplier
      && UnitPrices(ClosedQueue(b', t)) == Copies(b.lastPrice, |UnitPrices(ClosedQueue(b, t))|)
      && WithClosedQueue(b', t, ClosedQueue(b, t)).(realized := b.realized, tradeCount := b.tradeCount) == b
    decreases |lots|
  {
    if lots != [] {
      var q := lots[0].qty;
      RemarkOne(b, q, isLong, isToday);
      var closed := AddTrade(b, TradeInfo(b.lastPrice, q, false, !isLong, isToday));
      RemarkUnits(AddTrade(closed, TradeInfo(b.lastPrice, q, true, isLong, isToday)), lots[1..], isLong, isToday);
    }
  }

  /** resetPnl keeps every queue's quantity, re-bases every unit at the last price and leaves no profit. */
  lemma ResetLaw(b: Book)
    requires WellFormed(b)
    ensures var b' := ResetPnl(b);
      && WellFormed(b') && b'.lastPrice == b.lastPrice && b'.multiplier == b.multiplier
      && UnitPrices(b'.longToday) == Copies(b.lastPrice, Units(b.longToday))
      && UnitPrices(b'.longYst) == Copies(b.lastPrice, Units(b.longYst))
      && UnitPrices(b'.shortToday) == Copies(b.lastPrice, Units(b.shortToday))
      && UnitPrices(b'.shortYst) == Copies(b.lastPrice, Units(b.shortYst))
      && NetUnits(b') == NetUnits(b)
      && PositionPnl(b', b'.lastPrice) == 0.0
      && (b.longYst == [] ==> b'.longYst == []) && (b.shortYst == [] ==> b'.shortYst == [])
  {
    UnitCount(b.shortToday);
    UnitCount(b.shortYst);
    UnitCount(b.longToday);
    UnitCount(b.longYst);
    var b1 := Remark(b, b.shortToday, false, true);
    RemarkUnits(b, b.shortToday, false, true);
    var b2 := Remark(b1, b.shortYst, false, false);
    RemarkUnits(b1, b.shortYst, false, false);
    var b3 := Remark(b2, b.longToday, true, true);
    RemarkUnits(b2, b.longToday, true, true);
    RemarkUnits(b3, b.longYst, true, false);
    var b' := ResetPnl(b);
    ResetQueue(b'.shortToday, b.lastPrice, Units(b.shortToday), b.multiplier);
    ResetQueue(b'.shortYst, b.lastPrice, Units(b.shortYst), b.multiplier);
    ResetQueue(b'.longToday, b.lastPrice, Units(b.longToday), b.multiplier);
    ResetQueue(b'.longYst, b.lastPrice, Units(b.longYst), b.multiplier);
  }

  lemma ResetQueue(lots: Lots, p: real, n: nat, multiplier: uint32)
    requires UnitPrices(lots) == Copies(p, n)
    ensures Units(lots) == n && OpenValue(lots, p, multiplier) == 0.0
  {
    UnitCount(lots);
    WorthlessAtEntry(lots, p, multiplier);
  }
}
