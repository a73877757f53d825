/** Requests, orders, and the account they act on. */
module OrderData {
  import opened Position

  datatype Exchange = CFFEX | DCE | SSE | SZE | SHFE | CZCE

  datatype OpenClose = NoOpenClose | Open | Close | CloseToday | CloseYst

  datatype LongShort = NoLongShort | Long | Short

  datatype OrderStatus = OrderNew | OrderRejected | OrderFilled

  datatype ErrorCode = NoError | NotEnoughCash | NotEnoughInventory

  datatype RequestType =
    | SecurityCancel | SecurityModify | SseNewOrder | SzeNewOrder
    | CffexNewOrder | DceNewOrder | ShfeNewOrder | CzceNewOrder
    | OtherRequest

  datatype Request = Request(kind: RequestType, inst: uint32, qty: uint32, price: real,
                             openClose: OpenClose, longShort: LongShort)

  datatype Order = Order(requestId: nat, orderId: nat, exchange: Exchange, inst: uint32, qty: uint32, price: real,
                         filledQty: uint32, tradePrice: real, openClose: OpenClose, longShort: LongShort,
                         status: OrderStatus, error: ErrorCode)

  predicate IsSecurity(kind: RequestType) {
    kind.SseNewOrder? || kind.SzeNewOrder?
  }

  predicate IsFuture(kind: RequestType) {
    kind.CffexNewOrder? || kind.DceNewOrder? || kind.ShfeNewOrder? || kind.CzceNewOrder?
  }

  function ExchangeOf(kind: RequestType): Exchange
    requires IsSecurity(kind) || IsFuture(kind)
  {
    match kind
    case SzeNewOrder => SZE
    case SseNewOrder => SSE
    case CffexNewOrder => CFFEX
    case DceNewOrder => DCE
    case ShfeNewOrder => SHFE
    case CzceNewOrder => CZCE
  }

  /** The value of the position manager: a book per instrument seen so far, and the cash. */
  datatype Account = Account(books: map<uint32, Book>, cash: real)

  /** The table of contract multipliers. */
  type Multipliers = uint32 -> uint32

  /** The book getPosition would return. */
  function BookOf(mult: Multipliers, acc: Account, inst: uint32): Book {
    if inst in acc.books then acc.books[inst] else EmptyBook(mult(inst))
  }

  /** getPosition creates the instrument's book when it is missing. */
  function Touch(mult: Multipliers, acc: Account, inst: uint32): Account {
    acc.(books := acc.books[inst := BookOf(mult, acc, inst)])
  }

  function WithTrade(mult: Multipliers, acc: Account, inst: uint32, t: TradeInfo): Account {
    acc.(books := acc.books[inst := AddTrade(BookOf(mult, acc, inst), t)])
  }

  lemma TouchThenWrite(mult: Multipliers, acc: Account, inst: uint32, b: Book)
    ensures Touch(mult, acc, inst).books[inst] == BookOf(mult, acc, inst)
    ensures Touch(mult, acc, inst).books[inst := b] == acc.books[inst := b]
    ensures Touch(mult, acc, inst).cash == acc.cash
  {
  }

  /** The trade a filled order stands for.  A security is bought into today's lots and sold from yesterday's. */
  function TradeOf(o: Order): TradeInfo {
    if o.exchange.SSE? || o.exchange.SZE? then
      TradeInfo(o.tradePrice, o.filledQty, o.longShort.Long?, o.longShort.Long?, o.longShort.Long?)
    else if o.openClose.Open? then
      TradeInfo(o.tradePrice, o.filledQty, true, o.longShort.Long?, true)
    else
      TradeInfo(o.tradePrice, o.filledQty, false, o.longShort.Long?, o.openClose.CloseToday?)
  }

  function UpdateOrder(mult: Multipliers, acc: Account, o: Order): Account {
    if o.status.OrderFilled? then WithTrade(mult, acc, o.inst, TradeOf(o)) else Touch(mult, acc, o.inst)
  }

  function UpdatePrice(acc: Account, inst: uint32, price: real): Account {
    if inst in acc.books then acc.(books := acc.books[inst := acc.books[inst].(lastPrice := price)]) else acc
  }

  /** The sum of a value over a set of instruments. */
  ghost function SumOver(insts: set<uint32>, value: uint32 -> real): real {
    if insts == {} then 0.0
    else var i :| i in insts; value(i) + SumOver(insts - {i}, value)
  }

  /** A position's profit, marked at its own last price. */
  function Profit(b: Book): real {
    PositionPnl(b, b.lastPrice)
  }

  function PnlNow(books: map<uint32, Book>): uint32 -> real {
    (i: uint32) => if i in books then Profit(books[i]) else 0.0
  }

  /** Cash plus the marked profit of every position. */
  ghost function Equity(acc: Account): real {
    acc.cash + SumOver(acc.books.Keys, PnlNow(acc.books))
  }

  function Rolled(b: Book): Book {
    ResetPnl(b).(tradeCount := 0)
  }

  /** The books while a day start is under way: those still to do are as they were. */
  ghost function RolledExcept(books: map<uint32, Book>, todo: set<uint32>): map<uint32, Book> {
    map i | i in books :: if i in todo then books[i] else Rolled(books[i])
  }

  lemma RolledStep(books: map<uint32, Book>, todo: set<uint32>, i: uint32)
    requires todo <= books.Keys && i in todo
    ensures RolledExcept(books, todo)[i] == books[i]
    ensures RolledExcept(books, todo - {i}) == RolledExcept(books, todo)[i := Rolled(books[i])]
  {
  }

  lemma NoneRolled(books: map<uint32, Book>)
    ensures RolledExcept(books, books.Keys) == books
  {
    hide Rolled;
  }

  /** The nightly mark to market.  The today-to-yesterday move works on copies and changes nothing. */
  ghost function StartDay(acc: Account): Account {
    Account(RolledExcept(acc.books, {}), Equity(acc))
  }

  lemma {:induction false} SumRemove(insts: set<uint32>, value: uint32 -> real, i: uint32)
    requires i in insts
    ensures SumOver(insts, value) == value(i) + SumOver(insts - {i}, value)
  {
    var j :| j in insts && SumOver(insts, value) == value(j) + SumOver(insts - {j}, value);
    if i != j {
      SumRemove(insts - {j}, value, i);
      SumRemove(insts - {i}, value, j);
      assert insts - {j} - {i} == insts - {i} - {j};
    }
  }

  lemma {:induction false} SumSame(insts: set<uint32>, v: uint32 -> real, w: uint32 -> real)
    requires forall i :: i in insts ==> v(i) == w(i)
    ensures SumOver(insts, v) == SumOver(insts, w)
  {
    if insts != {} {
      var i :| i in insts;
      SumRemove(insts, v, i);
      SumRemove(insts, w, i);
      SumSame(insts - {i}, v, w);
    }
  }
}
