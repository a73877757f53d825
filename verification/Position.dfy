/** One instrument's position: four FIFO lot queues, the profit realized by closing against them,
    and their value at a mark price. */
module Position {

  const UINT32_RANGE := 0x1_0000_0000

  type uint32 = n: int | 0 <= n < UINT32_RANGE

  datatype TradeInfo = TradeInfo(price: real, qty: uint32, isOpen: bool, isLong: bool, isToday: bool)

  datatype PositionItem = PositionItem(price: real, qty: uint32, isLong: bool, isToday: bool)

  type Lots = seq<PositionItem>

  /** The value of a position object. */
  datatype Book = Book(
    lastPrice: real,
    multiplier: uint32,
    realized: real,
    tradeCount: uint32,
    longToday: Lots,
    longYst: Lots,
    shortToday: Lots,
    shortYst: Lots)

  function EmptyBook(multiplier: uint32): Book {
    Book(0.0, multiplier, 0.0, 0, [], [], [], [])
  }

  function Min(a: int, b: int): int {
    if a <= b then a else b
  }

  // ---------- closing against a queue ----------

  /** The queue after closing `qty` against it, oldest lot first. */
  function Consume(lots: Lots, qty: uint32): Lots {
    if qty == 0 || lots == [] then lots
    else if lots[0].qty <= qty then Consume(lots[1..], qty - lots[0].qty)
    else [lots[0].(qty := lots[0].qty - qty)] + lots[1..]
  }

  function Diff(isLong: bool, tradePrice: real, posPrice: real): real {
    if isLong then posPrice - tradePrice else tradePrice - posPrice
  }

  /** Profit of `matched` units bought and sold at the two prices. */
  function MatchGain(matched: uint32, isLong: bool, tradePrice: real, posPrice: real, multiplier: uint32): real {
    matched as real * Diff(isLong, tradePrice, posPrice) * multiplier as real
  }

  /** Profit realized by closing `qty` at `price`; `isLong` is the direction of the closing trade. */
  function Gain(lots: Lots, qty: uint32, price: real, isLong: bool, multiplier: uint32): real {
    if qty == 0 || lots == [] then 0.0
    else
      var matched := Min(lots[0].qty, qty);
      MatchGain(matched, isLong, price, lots[0].price, multiplier)
      + Gain(lots[1..], qty - matched, price, isLong, multiplier)
  }

  /** The part of a closing trade that finds no position. */
  function Unmatched(lots: Lots, qty: uint32): uint32 {
    if qty == 0 || lots == [] then qty
    else Unmatched(lots[1..], qty - Min(lots[0].qty, qty))
  }

  function ClosedQueue(b: Book, t: TradeInfo): Lots {
    if t.isLong then if t.isToday then b.shortToday else b.shortYst
    else if t.isToday then b.longToday else b.longYst
  }

  function WithClosedQueue(b: Book, t: TradeInfo, lots: Lots): Book {
    if t.isLong then if t.isToday then b.(shortToday := lots) else b.(shortYst := lots)
    else if t.isToday then b.(longToday := lots) else b.(longYst := lots)
  }

  function AddPosition(b: Book, item: PositionItem): Book {
    if item.isLong then
      if item.isToday then b.(longToday := b.longToday + [item]) else b.(longYst := b.longYst + [item])
    else
      if item.isToday then b.(shortToday := b.shortToday + [item]) else b.(shortYst := b.shortYst + [item])
  }

  function AddTrade(b: Book, t: TradeInfo): Book {
    if t.isOpen then
      AddPosition(b.(tradeCount := (b.tradeCount + t.qty) % UINT32_RANGE),
                  PositionItem(t.price, t.qty, t.isLong, t.isToday))
    else
      WithClosedQueue(b, t, Consume(ClosedQueue(b, t), t.qty))
        .(realized := b.realized + Gain(ClosedQueue(b, t), t.qty, t.price, t.isLong, b.multiplier))
  }

  // ---------- value at a mark price ----------

  function LotValue(lot: PositionItem, price: real, multiplier: uint32): real {
    (if lot.isLong then price - lot.price else lot.price - price) * lot.qty as real * multiplier as real
  }

  function OpenValue(lots: Lots, price: real, multiplier: uint32): real {
    if lots == [] then 0.0 else LotValue(lots[0], price, multiplier) + OpenValue(lots[1..], price, multiplier)
  }

  function PositionPnl(b: Book, price: real): real {
    b.realized + OpenValue(b.shortToday, price, b.multiplier) + OpenValue(b.shortYst, price, b.multiplier)
    + OpenValue(b.longToday, price, b.multiplier) + OpenValue(b.longYst, price, b.multiplier)
  }

  /** Exact number of units in a queue. */
  function Units(lots: Lots): nat {
    if lots == [] then 0 else lots[0].qty + Units(lots[1..])
  }

  /** getTotalQtyAmmount's quantity: a 32-bit sum. */
  function TotalQty(lots: Lots): uint32 {
    Units(lots) % UINT32_RANGE
  }

  /** The amount beside it: each price is multiplied with the quantity so far, not with the lot's own. */
  function Amount(lots: Lots, before: uint32): real {
    if lots == [] then 0.0
    else
      var sum := (before + lots[0].qty) % UINT32_RANGE;
      AtPrice(lots[0].price, sum) + Amount(lots[1..], sum)
  }

  function AtPrice(price: real, qty: nat): real {
    price * qty as real
  }

  lemma NoneLeft(lots: Lots, sum: uint32)
    ensures lots[|lots|..] == [] && Units([]) == 0 && sum % UINT32_RANGE == sum
  {
  }

  lemma NextSum(sum: nat, qty: nat, rest: nat)
    ensures ((sum + qty) % UINT32_RANGE + rest) % UINT32_RANGE == (sum + (qty + rest)) % UINT32_RANGE
  {
    var q := (sum + qty) / UINT32_RANGE;
    assert sum + (qty + rest) == (sum + qty) % UINT32_RANGE + rest + UINT32_RANGE * q;
  }

  lemma NextQty(sum: uint32, lots: Lots)
    requires lots != []
    ensures ((sum + lots[0].qty) % UINT32_RANGE + Units(lots[1..])) % UINT32_RANGE == (sum + Units(lots)) % UINT32_RANGE
  {
    NextSum(sum, lots[0].qty, Units(lots[1..]));
  }

  // ---------- the nightly mark ----------

  /** Close and reopen, at the last price, each quantity in `lots`. */
  function Remark(b: Book, lots: Lots, isLong: bool, isToday: bool): Book
    decreases |lots|
  {
    if lots == [] then b
    else
      var closed := AddTrade(b, TradeInfo(b.lastPrice, lots[0].qty, false, !isLong, isToday));
      var reopened := AddTrade(closed, TradeInfo(b.lastPrice, lots[0].qty, true, isLong, isToday));
      Remark(reopened, lots[1..], isLong, isToday)
  }

  function ResetPnl(b: Book): Book {
    var b1 := Remark(b, b.shortToday, false, true);
    var b2 := Remark(b1, b.shortYst, false, false);
    var b3 := Remark(b2, b.longToday, true, true);
    var b4 := Remark(b3, b.longYst, true, false);
    b4.(realized := 0.0)
  }

  /** One turn of the matching loop. */
  lemma MatchStep(lots: Lots, qty: uint32, price: real, isLong: bool, multiplier: uint32)
    requires qty > 0 && lots != []
    ensures var matched := Min(lots[0].qty, qty);
      var rest := if lots[0].qty == matched then lots[1..] else [lots[0].(qty := lots[0].qty - matched)] + lots[1..];
      && Consume(lots, qty) == Consume(rest, qty - matched)
      && Unmatched(lots, qty) == Unmatched(rest, qty - matched)
      && Gain(lots, qty, price, isLong, multiplier)
         == MatchGain(matched, isLong, price, lots[0].price, multiplier)
            + Gain(rest, qty - matched, price, isLong, multiplier)
  {
  }

  class CPosition {
    var lastPrice: real
    var unitMultiplier: uint32
    var realizedPnL: real
    var tradeCount: uint32
    var longPosition: Lots
    var longPositionYst: Lots
    var shortPosition: Lots
    var shortPositionYst: Lots

    function View(): Book
      reads this
    {
      Book(lastPrice, unitMultiplier, realizedPnL, tradeCount,
           longPosition, longPositionYst, shortPosition, shortPositionYst)
    }

    constructor (multiplier: uint32)
      ensures View() == EmptyBook(multiplier)
    {
      lastPrice, unitMultiplier, realizedPnL, tradeCount := 0.0, multiplier, 0.0, 0;
      longPosition, longPositionYst, shortPosition, shortPositionYst := [], [], [], [];
    }

    method UpdatePrice(price: real)
      modifies this`lastPrice
      ensures View() == old(View()).(lastPrice := price)
    {
      lastPrice := price;
    }

    method ResetTradeCount()
      modifies this`tradeCount
      ensures View() == old(View()).(tradeCount := 0)
    {
      tradeCount := 0;
    }

    method PushPosition(item: PositionItem)
      modifies this
      ensures View() == AddPosition(old(View()), item)
    {
      if item.isLong {
        if item.isToday {
          longPosition := longPosition + [item];
        } else {
          longPositionYst := longPositionYst + [item];
        }
      } else {
        if item.isToday {
          shortPosition := shortPosition + [item];
        } else {
          shortPositionYst := shortPositionYst + [item];
        }
      }
    }

    /** The matching loop; `left` is what the console message reports. */
    method MatchPositions(trade: TradeInfo, posQueue: Lots) returns (rest: Lots, left: uint32)
      modifies this`realizedPnL
      ensures rest == Consume(posQueue, trade.qty) && left == Unmatched(posQueue, trade.qty)
      ensures realizedPnL
           == old(realizedPnL) + Gain(posQueue, trade.qty, trade.price, trade.isLong, unitMultiplier)
    {
      rest, left := posQueue, trade.qty;
      while left > 0 && rest != []
        invariant Consume(rest, left) == Consume(posQueue, trade.qty)
        invariant Unmatched(rest, left) == Unmatched(posQueue, trade.qty)
        invariant realizedPnL + Gain(rest, left, trade.price, trade.isLong, unitMultiplier)
               == old(realizedPnL) + Gain(posQueue, trade.qty, trade.price, trade.isLong, unitMultiplier)
        decreases |rest|, left
      {
        MatchStep(rest, left, trade.price, trade.isLong, unitMultiplier);
        var oldest := rest[0];
        var matched := Min(oldest.qty, left);
        realizedPnL := realizedPnL + MatchGain(matched, trade.isLong, trade.price, oldest.price, unitMultiplier);
        oldest := oldest.(qty := oldest.qty - matched);
        left := left - matched;
        if oldest.qty == 0 {
          rest := rest[1..];
        } else {
          rest := [oldest] + rest[1..];
        }
      }
    }

    method DoTrade(trade: TradeInfo) returns (left: uint32)
      modifies this
      ensures View() == AddTrade(old(View()), trade)
      ensures left == if trade.isOpen then 0 else Unmatched(ClosedQueue(old(View()), trade), trade.qty)
    {
      left := 0;
      if trade.isOpen {
        tradeCount := (tradeCount + trade.qty) % UINT32_RANGE;
        PushPosition(PositionItem(trade.price, trade.qty, trade.isLong, trade.isToday));
      } else {
        if trade.isLong {
          if trade.isToday {
            shortPosition, left := MatchPositions(trade, shortPosition);
          } else {
            shortPositionYst, left := MatchPositions(trade, shortPositionYst);
          }
        } else {
          if trade.isToday {
            longPosition, left := MatchPositions(trade, longPosition);
          } else {
            longPositionYst, left := MatchPositions(trade, longPositionYst);
          }
        }
      }
    }

    method RemarkQueue(lots: Lots, isLong: bool, isToday: bool)
      modifies this
      ensures View() == Remark(old(View()), lots, isLong, isToday)
    {
      var i := 0;
      while i < |lots|
        invariant 0 <= i <= |lots|
        invariant Remark(View(), lots[i..], isLong, isToday) == Remark(old(View()), lots, isLong, isToday)
      {
        var _ := DoTrade(TradeInfo(lastPrice, lots[i].qty, false, !isLong, isToday));
        var _ := DoTrade(TradeInfo(lastPrice, lots[i].qty, true, isLong, isToday));
        i := i + 1;
      }
    }

    /** Every loop runs over the quantities its queue holds on entry. */
    method ResetPnL()
      modifies this
      ensures View() == ResetPnl(old(View()))
    {
      var short, shortYst, long, longYst := shortPosition, shortPositionYst, longPosition, longPositionYst;
      RemarkQueue(short, false, true);
      RemarkQueue(shortYst, false, false);
      RemarkQueue(long, true, true);
      RemarkQueue(longYst, true, false);
      realizedPnL := 0.0;
    }

    method Accumulate(lots: Lots, price: real) returns (pnl: real)
      ensures pnl == OpenValue(lots, price, unitMultiplier)
    {
      pnl := 0.0;
      for i := 0 to |lots|
        invariant pnl + OpenValue(lots[i..], price, unitMultiplier) == OpenValue(lots, price, unitMultiplier)
      {
        var each := lots[i];
        if each.isLong {
          pnl := pnl + (price - each.price) * each.qty as real * unitMultiplier as real;
        } else {
          pnl := pnl + (each.price - price) * each.qty as real * unitMultiplier as real;
        }
      }
    }

    method GetPositionPnl(price: real) returns (pnl: real)
      ensures pnl == PositionPnl(View(), price)
    {
      var s := Accumulate(shortPosition, price);
      var sy := Accumulate(shortPositionYst, price);
      var l := Accumulate(longPosition, price);
      var ly := Accumulate(longPositionYst, price);
      pnl := realizedPnL + (s + sy + l + ly);
    }

    /** The quantity sum wraps at 32 bits. */
    method GetTotalQty(lots: Lots) returns (qty: uint32, amount: real)
      ensures qty == TotalQty(lots)
      ensures amount == Amount(lots, 0)
    {
      hide AtPrice, Units;
      qty, amount := 0, 0.0;
      for i := 0 to |lots|
        invariant (qty + Units(lots[i..])) % UINT32_RANGE == TotalQty(lots)
        invariant amount + Amount(lots[i..], qty) == Amount(lots, 0)
      {
        NextQty(qty, lots[i..]);
        assert lots[i..][1..] == lots[i + 1..];
        qty := (qty + lots[i].qty) % UINT32_RANGE;
        amount := amount + AtPrice(lots[i].price, qty);
      }
      NoneLeft(lots, qty);
    }
  }

  lemma AddModulo(a: int, b: int)
    ensures (a % UINT32_RANGE + b) % UINT32_RANGE == (a + b) % UINT32_RANGE
  {
  }
}
