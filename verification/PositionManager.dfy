/** The back-test position manager: one position object per instrument, and the cash. */
module PositionManager {
  import opened Position
  import opened OrderData

  class TestPositionManager {
    const mult: Multipliers
    var allPositions: map<uint32, CPosition>
    var cash: real

    /** Positions of different instruments are different objects. */
    ghost predicate Valid()
      reads this
    {
      forall i, j :: i in allPositions && j in allPositions && i != j ==> allPositions[i] != allPositions[j]
    }

    ghost function View(): Account
      reads this, allPositions.Values
    {
      Account(map i | i in allPositions :: allPositions[i].View(), cash)
    }

    constructor (mult: Multipliers, cash: real)
      ensures Valid() && this.mult == mult && View() == Account(map[], cash)
    {
      this.mult := mult;
      this.cash := cash;
      allPositions := map[];
    }

    method GetPosition(inst: uint32) returns (p: CPosition)
      requires Valid()
      modifies this`allPositions
      ensures Valid() && inst in allPositions && p == allPositions[inst]
      ensures inst in old(allPositions) ==> allPositions == old(allPositions)
      ensures inst !in old(allPositions) ==> fresh(p) && allPositions == old(allPositions)[inst := p]
      ensures View() == Touch(mult, old(View()), inst) && p.View() == BookOf(mult, old(View()), inst)
    {
      if inst in allPositions {
        p := allPositions[inst];
      } else {
        p := new CPosition(mult(inst));
        allPositions := allPositions[inst := p];
      }
    }

    method OnUpdateOrder(o: Order)
      requires Valid()
      modifies this`allPositions, allPositions.Values
      ensures Valid() && fresh(allPositions.Values - old(allPositions.Values))
      ensures View() == UpdateOrder(mult, old(View()), o)
    {
      if o.exchange.SSE? || o.exchange.SZE? {
        HandleSecurityOrder(o);
      } else {
        HandleFutureOrder(o);
      }
    }

    /** Find or create the instrument's position and trade on it. */
    method TradeOn(inst: uint32, t: TradeInfo)
      requires Valid()
      modifies this`allPositions, allPositions.Values
      ensures Valid() && fresh(allPositions.Values - old(allPositions.Values))
      ensures View() == WithTrade(mult, old(View()), inst, t)
    {
      var pos := GetPosition(inst);
      Exchange(inst, t);
      TouchThenWrite(mult, old(View()), inst, AddTrade(BookOf(mult, old(View()), inst), t));
    }

    method Exchange(inst: uint32, t: TradeInfo)
      requires Valid() && inst in allPositions
      modifies allPositions[inst]
      ensures View().books == old(View()).books[inst := AddTrade(old(View()).books[inst], t)]
    {
      var _ := allPositions[inst].DoTrade(t);
      OnlyChanged(inst);
    }

    /** When only one position object was written, only its entry of the account changes. */
    twostate lemma OnlyChanged(inst: uint32)
      requires old(Valid()) && inst in old(allPositions) && allPositions == old(allPositions)
      requires forall i :: i in allPositions && i != inst ==> unchanged(allPositions[i])
      ensures View().books == old(View()).books[inst := allPositions[inst].View()]
    {
    }

    method HandleSecurityOrder(o: Order)
      requires Valid() && (o.exchange.SSE? || o.exchange.SZE?)
      modifies this`allPositions, allPositions.Values
      ensures Valid() && fresh(allPositions.Values - old(allPositions.Values))
      ensures View() == UpdateOrder(mult, old(View()), o)
    {
      if o.status.OrderFilled? {
        if o.longShort.Long? {
          TradeOn(o.inst, TradeInfo(o.tradePrice, o.filledQty, true, true, true));
        } else {
          TradeOn(o.inst, TradeInfo(o.tradePrice, o.filledQty, false, false, false));
        }
      } else {
        var _ := GetPosition(o.inst);
      }
    }

    method HandleFutureOrder(o: Order)
      requires Valid() && !(o.exchange.SSE? || o.exchange.SZE?)
      modifies this`allPositions, allPositions.Values
      ensures Valid() && fresh(allPositions.Values - old(allPositions.Values))
      ensures View() == UpdateOrder(mult, old(View()), o)
    {
      if o.status.OrderFilled? {
        if o.openClose.Open? {
          TradeOn(o.inst, TradeInfo(o.tradePrice, o.filledQty, true, o.longShort.Long?, true));
        } else {
          TradeOn(o.inst, TradeInfo(o.tradePrice, o.filledQty, false, o.longShort.Long?, o.openClose.CloseToday?));
        }
      } else {
        var _ := GetPosition(o.inst);
      }
    }

    method OnMarketData(inst: uint32, price: real)
      requires Valid()
      modifies allPositions.Values
      ensures Valid() && View() == OrderData.UpdatePrice(old(View()), inst, price)
    {
      if inst in allPositions {
        allPositions[inst].UpdatePrice(price);
      }
    }

    /** The loop variable is a copy of each entry, so moving its lots leaves the manager as it was. */
    method ResetPositionTodayToYst()
    {
      var todo := allPositions.Keys;
      while todo != {}
        decreases todo
      {
        var i :| i in todo;
        var todayPos, ystPos := allPositions[i].longPosition, allPositions[i].longPositionYst;
        ystPos := ystPos + seq(|todayPos|, k requires 0 <= k < |todayPos| => todayPos[k].(isToday := false));
        todayPos := [];
        todo := todo - {i};
      }
    }

    /** Move one position's profit into the cash and re-base it. */
    method RollPosition(i: uint32, ghost books: map<uint32, Book>, ghost todo: set<uint32>)
      requires Valid() && i in allPositions
      requires todo <= books.Keys && i in todo && View().books == RolledExcept(books, todo)
      modifies this`cash, allPositions[i]
      ensures View().books == RolledExcept(books, todo - {i})
      ensures cash == old(cash) + PnlNow(books)(i)
    {
      var pos := allPositions[i];
      var profit := pos.GetPositionPnl(pos.lastPrice);
      cash := cash + profit;
      pos.ResetPnL();
      pos.ResetTradeCount();
      OnlyChanged(i);
      RolledStep(books, todo, i);
    }

    /** One turn of the day-start loop. */
    method RollNext(todo: set<uint32>, ghost books: map<uint32, Book>) returns (rest: set<uint32>)
      requires Valid() && todo != {} && todo <= books.Keys == allPositions.Keys
      requires View().books == RolledExcept(books, todo)
      modifies this`cash, allPositions.Values
      ensures rest < todo && View().books == RolledExcept(books, rest)
      ensures cash + SumOver(rest, PnlNow(books)) == old(cash) + SumOver(todo, PnlNow(books))
    {
      var i :| i in todo;
      SumRemove(todo, PnlNow(books), i);
      RollPosition(i, books, todo);
      rest := todo - {i};
    }

    method RollAll(ghost books: map<uint32, Book>)
      requires Valid() && books.Keys == allPositions.Keys && View().books == RolledExcept(books, books.Keys)
      modifies this`cash, allPositions.Values
      ensures View().books == RolledExcept(books, {})
      ensures cash == old(cash) + SumOver(books.Keys, PnlNow(books))
    {
      var todo := allPositions.Keys;
      while todo != {}
        invariant todo <= books.Keys
        invariant View().books == RolledExcept(books, todo)
        invariant cash + SumOver(todo, PnlNow(books)) == old(cash) + SumOver(books.Keys, PnlNow(books))
        decreases todo
      {
        todo := RollNext(todo, books);
      }
    }

    method OnStartDay()
      requires Valid()
      modifies this`cash, allPositions.Values
      ensures Valid() && View() == StartDay(old(View()))
    {
      ResetPositionTodayToYst();
      ghost var books := View().books;
      NoneRolled(books);
      hide RolledExcept, Rolled, PnlNow;
      RollAll(books);
    }
  }
}
