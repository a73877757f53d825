# Models and proofs for the BluesTrading back-test engine

A Dafny model of the back-test engine, and of the algorithms in the vendored gtest, mox and sample sources whose
correctness is as hard to see. `dafny verify dfyconfig.toml` checks everything.

**Day scheduler** (`Calendar`, `Scheduler`, `SchedulerRuns`, `TestFixtures`). Strategy instances times trading days
are tasks on a shared pool. A task runs if its date is the next working day of its instance and posts itself again
otherwise; a producer posts the days and waits while 15 of them are in memory. The model is a transition system with
one step for every access to shared state, so all interleavings of the producer and any number of workers are
covered; a worker that has posted its task again holds its own reference to the day until a later step. Its invariant
gives mutual exclusion per instance, replay in order, and a counter equal to the number of live days. A rank function
then shows that every weakly fair infinite run finishes all the work: repeated `getNextWorkingDay` lists exactly the
days the producer posts, so the oldest unfinished task is always in play or about to be posted. The class
`TestFixture` carries out the steps on the real fields, and its `Run` takes a new fixture through any schedule.

**Ledger** (`Position`, `PositionLaws`, `OrderData`, `PositionManager`, `OrderManager`, `AccountLaws`, `Buckets`,
`Conservation`, `OrderRecords`, `Yesterday`, `StrategyLedger`, `StrategySteps`, `Strategy`). Lot queues are run-length
forms of queues of single units; a close drops the oldest units and realizes their price differences. Over whole
back-tests cash plus marked profit equals initial cash plus what every execution ever made is worth; an account
without any lots, four counters and a last price for each instrument, says what the real one accepts, holds and is
worth; every accepted request ends in orders filled in full at its price, announced before and after the fill, and no
order is left open; and the strategy's average-cost ledger equals the position's profit at every mark price, each of
its steps selling at the bid and buying at the ask. Closes are split over today's and yesterday's lots without ever
asking a queue for more than it holds. Classes for `CPosition`, `testPositionManger`, `FakeOrderManager` and
`SingleStrategy` update their fields in place and are tied to the functions the laws are about;
`SingleStrategy.TradeDay` runs a whole day of steps. The strategy passes each request on by value
(interface/IOrderManager.h:31-39), so its own quantity is not the one the order manager reduces. Prices are `real`.

**Replay** (`Timers`, `TimerLimits`, `Replay`, `ReplayOrder`, `StartOfDay`, `Replayer`). The timer loop with the
strategy's callback that sets a further timer: exactly when it ends and when it stays in order, firing times,
independence of intermediate stops; the merge of tick stores in any order of arrival, ties included; the timers a day
starts with and when they fire; and the log of a whole day, delivery by delivery.

**Regular expressions** (`Regex`, `RegexClasses`, `RegexEngine`). gtest's simple engine against the denoted language,
and that language built up from the characters each atom stands for.
**Parameter grid** (`Arithmetic`, `Grid`). The rows of `parserProps` and the Chinese remainder theorem.
**Expected calls** (`Mox`, `MockQueue`). mox's queue as an acceptor of a language of call sequences.
**Prime tables** (`Primes`), **UTF-8** (`Utf8`), **test filters, order and shards** (`Filters`, `Shuffling`,
`TestOrder`, `Sharding`, `UnitTest`).

Where the code does less than its documentation says, the code is modelled and the exact condition is proved:

- `resetPositionTodayToYst` iterates over copies, so no lot ever becomes a yesterday lot. A sale of a security is
  accepted exactly when its quantity is 0 (`Yesterday.YesterdayStaysEmpty`).
- A request that names neither direction is not checked. It stays partly unmatched exactly when it sells more of a
  security than the long lots of yesterday, or closes more than the long lots it is matched with
  (`AccountLaws.LeftoverIff`).
- The amount of a queue multiplies each price with the quantity so far. With positive prices and no wrap-around it is
  the sum of price times quantity exactly when no lot but the last holds anything (`PositionLaws.AmountIsCostIff`).
- Without overnight mode the ledgers restart in agreement exactly from a flat position; with it, exactly when the kept
  cost sums are worth nothing; the jump reset keeps the agreement exactly when nothing is held
  (`StrategyLedger.DayStartAgreesIff`, `OvernightAgreesIff`, `JumpResetAgreesIff`).
- The timer loop up to time t ends exactly when, for every due timer that repeats, with trigger T and interval d,
  2^32 - g + T mod g > t, where g is the greatest common divisor of d and 2^32 (`TimerLimits.LoopEndsIff`); where no
  trigger wraps, exactly when no due timer repeats with interval 0 (`TimerLimits.NoWrapEndsIff`). After a repeating
  timer fires, the next firing is earlier exactly when T + d >= 2^32 (`TimerLimits.GoesBackIff`); the loop ends and
  never goes back exactly when d >= 1 and T + ((t - T) / d + 1) * d < 2^32 for every such timer
  (`TimerLimits.EndsForwardIff`).
- Registering a test case after a shuffle keeps the death test cases in front exactly when it is no death test case,
  or the first of the other test cases still comes first among them, or there are none
  (`UnitTest.RegistrationAfterShuffleIff`).
- `FullMatch` is a full match exactly for regexes that do not end in an escaped dollar sign
  (`RegexEngine.FullMatchIsFullIff`).
- The grid holds every combination exactly once only for pairwise coprime list lengths whose product fits in 32 bits,
  or when some list is empty (`Grid.EveryChoiceOnceIff`).
- Replay accepts exactly the language of the queue when no multiple-times group holds a call that can start the next
  entry, and otherwise loses a word (`Mox.ReplayIsLanguageIff`).

## Model

| member | source | states |
|---|---|---|
| `Calendar.GetNextWorkingDay` | backtestbed/testfixture.h:44-62 | the branches on Friday and Saturday find the first day after the given one that is not on a weekend |
| `Calendar.ProducerDates` | backtestbed/testfixture.cpp:184-202 | the date loop posts exactly the weekdays of [start, end), which are also the chain of next working days from the day before start |
| `Calendar.ChainListsWeekdays` | backtestbed/testfixture.h:44-62 | repeating the next-working-day step lists every weekday up to the end, each once, in order |
| `Calendar.WeekdaysMembers` | backtestbed/testfixture.cpp:189-194 | the listed days are exactly the non-weekend days of the range, strictly increasing |
| `Scheduler.InitInv` | backtestbed/testfixture.cpp:86-90 | the initial state, every instance at the day before start, satisfies the invariant |
| `Scheduler.StepKeepsInv` | backtestbed/testfixture.h:65-81 | every enabled step of every thread keeps the whole invariant: each outstanding task exactly once in play, tasks in play plus tasks to post equal unfinished days, the counter equals the live days and is at most 15 |
| `Scheduler.CarriersDiffer` | backtestbed/testfixture.h:65-81 | no task is ever in the hands of two workers |
| `Scheduler.FinishCountsOne` | backtestbed/testfixture.h:69-75 | finishing a day lowers the count of unfinished (instance, day) pairs by exactly one |
| `SchedulerRuns.RunKeepsInv` | backtestbed/testfixture.h:65-81 | the invariant holds after any sequence of steps of any threads |
| `SchedulerRuns.MutualExclusion` | backtestbed/testfixture.h:65-81 | in every interleaving two workers that are replaying are replaying different instances, although only the write on finish guards entry |
| `SchedulerRuns.ReplayOrder` | backtestbed/testfixture.h:65-81 | in every interleaving an instance has replayed a prefix of the working days of [start, end), and a day being replayed is the next one of that list |
| `SchedulerRuns.MemoryCap` | backtestbed/testfixture.cpp:221-230 | in every reachable state the counter is the number of days some thread or task still refers to, the reference of a worker that has just posted its task again included; it is at most 15, and 0 when nothing is in flight |
| `SchedulerRuns.ProducerWaitsIff` | backtestbed/testfixture.cpp:196-201 | in every reachable state the producer waits before a working day exactly while 15 days are in memory |
| `SchedulerRuns.DeadlockFree` | backtestbed/testfixture.cpp:196-201 | in every reachable state in which some instance has days left, some thread can move, despite the cap |
| `SchedulerRuns.HelperCanMove` | backtestbed/testfixture.cpp:196-201 | the thread that the oldest unfinished day waits for can always move |
| `SchedulerRuns.StepRank` | backtestbed/testfixture.h:65-81 | every step either finishes a day or keeps all current dates without raising the rank, and lowers the rank if the helper moved |
| `SchedulerRuns.SomeDayFinishes` | backtestbed/testfixture.h:65-81 | in every fair infinite run with work left some day finishes later |
| `SchedulerRuns.EveryFairRunCompletes` | backtestbed/testfixture.cpp:184-202 | with at least one worker every fair infinite run reaches a state in which every instance has replayed exactly the working days of [start, end) |
| `SchedulerRuns.StuckIsComplete` | backtestbed/testfixture.cpp:184-202 | a run in which no step is enabled any more has replayed everything |
| `SchedulerRuns.RunIsCarried` | backtestbed/testfixture.h:65-81 | the enabled entries of any schedule form a run, and a schedule that is a run is carried out entry by entry |
| `TestFixtures.TestFixture.constructor` | backtestbed/testfixture.cpp:86-90 | the fields start in the initial state of the transition system |
| `TestFixtures.TestFixture.ScanDate` | backtestbed/testfixture.cpp:189-202 | one turn of the date loop is the step that skips a weekend day or begins a day below the cap, and nothing when neither is enabled |
| `TestFixtures.TestFixture.PostNext` | backtestbed/testfixture.cpp:244-250 | one turn of the posting loop posts the next instance, or ends the day and drops its reference |
| `TestFixtures.TestFixture.DropReference` | backtestbed/testfixture.cpp:224-229 | the counter falls exactly when no task, worker or producer refers to the day any more |
| `TestFixtures.TestFixture.TakeTask` | backtestbed/testfixture.cpp:106-108 | a pool thread takes the oldest posted task |
| `TestFixtures.TestFixture.CheckDate` | backtestbed/testfixture.h:67-69 | the guard compares the posted day with the next working day of the instance |
| `TestFixtures.TestFixture.PostAgain` | backtestbed/testfixture.h:77-81 | a task that may not run goes to the end of the queue, and the worker keeps its own reference to the day |
| `TestFixtures.TestFixture.FinishDay` | backtestbed/testfixture.h:74-75 | finishing writes the current date and records the day for that instance only |
| `TestFixtures.TestFixture.ReturnFromTask` | backtestbed/testfixture.cpp:224-229 | a worker that returns, from a finished task or from one it posted again, drops its reference to the day |
| `TestFixtures.TestFixture.Perform` | backtestbed/testfixture.h:65-81 | one turn of the named thread is the step of the transition system |
| `TestFixtures.TestFixture.Run` | backtestbed/testfixture.cpp:184-202 | a new fixture driven through any schedule ends where the enabled entries lead, all of them when the schedule is a run: every log is a prefix of the working days, no instance replays two days at once, the counter is the number of live days and at most 15, and when nothing can move any more every log is complete |
| `Position.CPosition.PushPosition` | interface/IPositionManager.h:162-186 | the lot goes to the back of the one queue its two flags name |
| `Position.CPosition.MatchPositions` | interface/IPositionManager.h:211-231 | the in-place matching loop leaves the queue and the realized profit of the recursive definition, and reports what found no position |
| `Position.CPosition.DoTrade` | interface/IPositionManager.h:189-258 | one trade changes the four queues, the realized profit and the trade count as the function the laws are about says |
| `Position.CPosition.RemarkQueue` | interface/IPositionManager.h:64-77 | one loop of the reset closes and reopens at the last price the quantities the queue holds on entry |
| `Position.CPosition.ResetPnL` | interface/IPositionManager.h:62-127 | the four loops of the reset in the order of the source |
| `Position.CPosition.GetPositionPnl` | interface/IPositionManager.h:261-287 | realized profit plus the value of every lot at the mark price |
| `Position.CPosition.GetTotalQty` | interface/IPositionManager.h:291-302 | the quantity sum, wrapped at 32 bits, and the amount, which multiplies each price with the quantity so far |
| `PositionLaws.ConsumeTakesOldest` | interface/IPositionManager.h:213-225 | closing drops exactly the oldest min(quantity, total) units of a queue, zero-quantity lots included, and leaves the rest unmatched |
| `PositionLaws.GainSumsOldest` | interface/IPositionManager.h:213-225 | the realized profit is the multiplier times the sum of the signed price differences of the units dropped |
| `PositionLaws.CloseRefinesUnits` | interface/IPositionManager.h:189-258 | unit-lot refinement: a close drops the oldest units of the one queue it names, realizes their differences, and touches no other queue |
| `PositionLaws.AmountIsCostIff` | interface/IPositionManager.h:291-302 | for positive prices and a total below 2^32 the amount is the sum of price times quantity exactly when every lot but the last is empty |
| `PositionLaws.TradesCounted` | interface/IPositionManager.h:189-258 | after any trades the trade count is the quantity they opened, in 32 bits |
| `PositionLaws.TradeLaw` | interface/IPositionManager.h:189-287 | marked at any price p, a trade changes the profit by multiplier x executed quantity x (p - trade price) and the net position by the executed quantity |
| `PositionLaws.MarkLaw` | interface/IPositionManager.h:261-287 | moving the mark price changes the profit by multiplier x net position x move |
| `PositionLaws.RemarkUnits` | interface/IPositionManager.h:64-77 | re-marking a whole queue leaves every unit at the last price and every other queue alone |
| `PositionLaws.ResetLaw` | interface/IPositionManager.h:62-127 | the reset, which mutates the queues it walks, keeps every quantity, re-bases every unit at the last price and leaves no profit |
| `PositionManager.TestPositionManager.GetPosition` | backtestbed/testpositionmanager.cpp:10-23 | a missing position is created empty with its multiplier, an existing one is returned, and no other changes |
| `PositionManager.TestPositionManager.OnUpdateOrder` | backtestbed/testpositionmanager.cpp:35-46 | an order update changes the one position as the account function says |
| `PositionManager.TestPositionManager.HandleSecurityOrder` | backtestbed/testpositionmanager.cpp:51-81 | a filled security order buys into the long queue of today or sells from the long queue of yesterday |
| `PositionManager.TestPositionManager.HandleFutureOrder` | backtestbed/testpositionmanager.cpp:83-121 | a filled futures order opens today or closes the bucket its flag names |
| `PositionManager.TestPositionManager.OnMarketData` | backtestbed/testpositionmanager.cpp:136-143 | a price update moves the last price of a known instrument only |
| `PositionManager.TestPositionManager.OnStartDay` | backtestbed/testpositionmanager.cpp:123-219 | the day start moves the profit of every position into the cash and resets it; the move of lots to yesterday works on copies and changes nothing |
| `OrderManager.FakeOrderManager.GenerateRequest` | backtestbed/fakeordermanager.cpp:310-319 | the order key is the request counter in the high 32 bits, and the counter advances by two, modulo 2^32 |
| `OrderManager.FakeOrderManager.CheckNewOrderRequestValid` | backtestbed/fakeordermanager.cpp:192-293 | the decision of the specification, with the creation of missing positions as its only effect |
| `OrderManager.FakeOrderManager.GenerateFutureOrder` | backtestbed/fakeordermanager.cpp:377-510 | the orders of a request: one rejected, one opening, or a close split over lots of today and then of yesterday; and the quantity left in the request, reduced by the part of today |
| `OrderManager.FakeOrderManager.PlaceOrder` | backtestbed/fakeordermanager.cpp:146-157 | an order is recorded and announced, and when accepted filled, applied and announced again; `OrderRecords.AcceptedIsCarried` says what that leaves behind |
| `OrderManager.FakeOrderManager.PlaceOrders` | backtestbed/fakeordermanager.cpp:146-157 | the orders of one request are placed one after another |
| `OrderManager.FakeOrderManager.HandleSecurityNew` | backtestbed/fakeordermanager.cpp:124-137 | a security request is checked, recorded, announced and filled |
| `OrderManager.FakeOrderManager.HandleFutureNew` | backtestbed/fakeordermanager.cpp:141-158 | a futures request is checked, split, reduced and placed |
| `OrderManager.FakeOrderManager.SubmitRequest` | backtestbed/fakeordermanager.cpp:14-42 | the new state is the function `OrderRecords`, `Conservation` and `AccountLaws` are about; the request is recorded under its number as it came in; the caller finds the reduced quantity in it; an unknown request type fails after using up a request number |
| `OrderManager.FakeOrderManager.OnStartDay` | backtestbed/fakeordermanager.cpp:88-95 | a day start drops every order |
| `AccountLaws.CloseOrders` | backtestbed/fakeordermanager.cpp:407-479 | an accepted close yields at most two orders, of different buckets, summing to the requested quantity, with the keys of the request |
| `AccountLaws.CloseIsCovered` | backtestbed/fakeordermanager.cpp:255-281 | for Long and Short closes each order stays inside its bucket and the unmatched branch is never reached, even when the 32-bit sums wrap; without wrap acceptance is exactly coverage |
| `AccountLaws.RequestKeepsYstPart` | backtestbed/fakeordermanager.cpp:453-457 | an accepted close is left with exactly the quantity ordered from the lots of yesterday; every other request is left alone |
| `AccountLaws.LeftoverIff` | backtestbed/fakeordermanager.cpp:204-287 | an accepted security or futures request leaves something unmatched exactly when it names neither direction and sells more than the long lots of yesterday, or closes more than the long lots it is matched with |
| `AccountLaws.RejectChangesNothing` | backtestbed/fakeordermanager.cpp:383-406 | a rejected request changes no position and no cash; it is recorded as rejected and announced once |
| `AccountLaws.KeysCollideIff` | backtestbed/fakeordermanager.cpp:310-319 | two requests share an order key exactly when they are a multiple of 2^31 apart |
| `AccountLaws.FreshKeys` | backtestbed/fakeordermanager.cpp:148-148 | within 2^31 requests the keys of a request are new and differ from each other |
| `AccountLaws.OrdersAreKept` | backtestbed/fakeordermanager.cpp:148-148 | over any run of at most 2^31 requests of a day a recorded order keeps its key and contents |
| `OrderRecords.AcceptedIsCarried` | backtestbed/fakeordermanager.cpp:124-158 | within 2^31 requests an accepted request adds, under its own keys, orders filled in full at its price, with its instrument, direction and exchange, whose filled quantities sum to the requested one: for a close the part of today under the first key and the rest under the second; each is announced unfilled and then filled; earlier orders stay |
| `OrderRecords.RejectedIsRecorded` | backtestbed/fakeordermanager.cpp:383-406 | a rejected request adds one order as it came in, rejected for cash or for inventory and filled for nothing, and announces it once |
| `OrderRecords.NoOrderLeftOpen` | backtestbed/fakeordermanager.cpp:141-158 | over any run of requests, prices and day starts every recorded order is filled in full or rejected |
| `OrderRecords.DayStartsWithoutOrders` | backtestbed/fakeordermanager.cpp:88-95 | whatever happened before, a day starts without orders |
| `OrderRecords.RequestExecutes` | backtestbed/testpositionmanager.cpp:51-121 | an accepted request executes its whole quantity at its price, bought for Long and sold for Short; one without a direction sells what there is |
| `Buckets.AcceptsIsCheck` | backtestbed/fakeordermanager.cpp:192-293 | acceptance depends on the four queue totals alone, and for a purchase of a security on the cash |
| `Buckets.TradeRefines` | interface/IPositionManager.h:189-258 | a trade moves the four queue totals as it moves four plain counters |
| `Buckets.SubmitRefines` | backtestbed/fakeordermanager.cpp:141-158 | a request, with its check and its split, moves the queue totals of its instrument as the counters say and those of no other |
| `Buckets.EventRefines` | backtestbed/testpositionmanager.cpp:123-219 | each request, price update and day start moves the account as it moves the machine |
| `Buckets.QueuesRefineCounters` | backtestbed/fakeordermanager.cpp:14-42 | from an empty account and over any run, a machine without lots, which carries four counters and a last price for each instrument, its own cash and one profit figure, says which instruments have a position, their queue totals and last prices, the cash, the equity, and whether the next request is accepted |
| `Conservation.StartDayLaw` | backtestbed/testpositionmanager.cpp:208-219 | the day start leaves the equity unchanged and equal to the cash, and the profit and the trade count of every position at 0 |
| `Conservation.EventKeeps` | backtestbed/fakeordermanager.cpp:14-42 | each request, price update and day start keeps equity equal to initial cash plus traded worth, and net positions equal to summed executions |
| `Conservation.RunKeeps` | backtestbed/fakeordermanager.cpp:14-42 | any run of requests, price updates and day starts keeps both |
| `Conservation.EquityConservation` | backtestbed/testpositionmanager.cpp:208-219 | over any run from an empty account, cash plus marked profit is the initial cash plus multiplier x signed quantity x (last price - trade price) summed over every execution ever made |
| `Yesterday.YesterdayStaysEmpty` | backtestbed/testpositionmanager.cpp:123-134 | in every reachable account the queues of yesterday are empty, so a sale of a security is accepted exactly when its quantity is 0, and an accepted close of futures is at most one order, against lots of today |
| `StrategyLedger.EnterShortKeeps` | strategy/SingleStrategy.cpp:335-358 | opening short keeps counters equal to queue totals and both profits equal at every mark price |
| `StrategyLedger.EnterLongKeeps` | strategy/SingleStrategy.cpp:361-385 | opening long keeps counters equal to queue totals and both profits equal at every mark price |
| `StrategyLedger.ExitAccepted` | strategy/SingleStrategy.cpp:395-427 | a close of at most the counted quantity is never rejected by the order manager |
| `StrategyLedger.ExitLongKeeps` | strategy/SingleStrategy.cpp:395-411 | closing long at average cost keeps the two ledgers equal at every mark price |
| `StrategyLedger.ExitShortKeeps` | strategy/SingleStrategy.cpp:412-428 | closing short at average cost keeps the two ledgers equal at every mark price |
| `StrategyLedger.FlatDayAgrees` | strategy/SingleStrategy.cpp:325-499 | from a flat day start, after any run of steps and at every mark price, strategy profit plus open value is the profit of the position, and the counters are the queue totals, never both positive |
| `StrategyLedger.LedgersAgree` | strategy/SingleStrategy.cpp:325-499 | after any run of enter, exit, liquidate and price steps the average-cost profit plus open value equals the profit of the position at every mark price, the counters equal the queue totals, and never both are positive |
| `StrategyLedger.DayStartAgreesIff` | strategy/SingleStrategy.cpp:121-130 | without overnight mode a day starts with the ledgers in agreement exactly when the position is flat |
| `StrategyLedger.OvernightAgreesIff` | strategy/SingleStrategy.cpp:121-130 | in overnight mode they agree exactly when the kept cost sums are worth nothing at the last price |
| `StrategyLedger.JumpResetAgreesIff` | strategy/SingleStrategy.cpp:273-279 | the jump reset keeps the ledgers in agreement exactly when the strategy holds nothing |
| `StrategySteps.EnterTrades` | strategy/SingleStrategy.cpp:325-388 | from ledgers in agreement, a short signal with room sells int(ppl + 0.5) at the bid, else a long signal with room buys as many at the ask, else nothing changes |
| `StrategySteps.ExitTrades` | strategy/SingleStrategy.cpp:390-428 | a long signal with a long position sells min(int(ppl + 0.5), held) at the bid and books multiplier x size x (bid - average cost), a short signal with a short position buys back at the ask alike, else nothing changes |
| `StrategySteps.EveryStepTrades` | strategy/SingleStrategy.cpp:325-468 | what every step trades, the liquidation at bid and ask and the price update without a trade included |
| `Strategy.SingleStrategy.constructor` | strategy/SingleStrategy.cpp:816-841 | the fields AddInstrument sets |
| `Strategy.SingleStrategy.CalculatePnl` | strategy/SingleStrategy.cpp:470-499 | the average-cost profit and the cost sum of the closed side |
| `Strategy.SingleStrategy.SellToOpen` | strategy/SingleStrategy.cpp:343-355 | a short entry submits the order and updates counter, trade count and cost sum |
| `Strategy.SingleStrategy.BuyToOpen` | strategy/SingleStrategy.cpp:369-381 | a long entry submits the order and updates counter, trade count and cost sum |
| `Strategy.SingleStrategy.SellToClose` | strategy/SingleStrategy.cpp:398-408 | a long exit of min(ppl + 0.5, open quantity), truncated, with its profit taken before the counter falls |
| `Strategy.SingleStrategy.BuyToClose` | strategy/SingleStrategy.cpp:415-425 | a short exit of min(ppl + 0.5, open quantity), truncated, with its profit taken before the counter falls |
| `Strategy.SingleStrategy.OnEnter` | strategy/SingleStrategy.cpp:325-388 | doEnter: the guards on both counters around the two entries; from ledgers in agreement, the trades of `StrategySteps.EnterTrades` |
| `Strategy.SingleStrategy.OnExit` | strategy/SingleStrategy.cpp:390-468 | doExit, and liquidate as doExit with both signals on; from ledgers in agreement, the trades of `StrategySteps.ExitTrades` |
| `Strategy.SingleStrategy.TakeSteps` | strategy/SingleStrategy.cpp:214-240 | any sequence of entries, exits, liquidations and price updates, carried out one after another, is the run the laws are about |
| `Strategy.SingleStrategy.TradeDay` | strategy/SingleStrategy.cpp:325-499 | after such a sequence on the real objects, started in agreement, the counters are the queue totals of the position and strategy profit plus open value is its profit at every mark price |
| `Timers.FireFacts` | backtestbed/faketimerprovider.cpp:110-125 | exactly which timers are there after one firing, for any interval and with wrap-around: the others, the fired one moved on or gone, and what its callback set under a free key |
| `Timers.FireKeepsSane` | backtestbed/faketimerprovider.cpp:110-125 | a firing keeps every timer in range, and moves nothing to a time before its own |
| `Timers.FireIsLighter` | backtestbed/faketimerprovider.cpp:110-125 | the termination measure falls with every firing, also when the callback sets a timer |
| `Timers.AdvanceOrder` | backtestbed/faketimerprovider.cpp:101-126 | the firings of any timers in range are strictly ordered by time, consumer and event, none later than the target time, and no trigger at or before it is left |
| `Timers.AdvanceAfter` | backtestbed/faketimerprovider.cpp:101-126 | what fires later than a given firing at the start does so throughout |
| `Timers.AdvanceInTwoSteps` | backtestbed/faketimerprovider.cpp:101-126 | advancing to t1 and then to t2 gives the log and the timers of advancing straight to t2 |
| `Timers.ScheduleCount` | backtestbed/faketimerprovider.cpp:116-119 | a due repeating timer is due (t - T)/d + 1 times |
| `Timers.RepeatingTimerFires` | backtestbed/faketimerprovider.cpp:101-126 | it fires at exactly those times and is then set for the next of them, whatever other timers and callbacks do |
| `Timers.OneShotFires` | backtestbed/faketimerprovider.cpp:120-123 | a due one-shot timer fires at its trigger before anything else under its key, and is gone for good if no callback sets the key; otherwise it stays as it was |
| `Timers.AbsentKeyStaysAbsent` | backtestbed/faketimerprovider.cpp:26-41 | a key that nobody sets never fires |
| `TimerLimits.LoopEndsIff` | backtestbed/faketimerprovider.cpp:101-126 | with callbacks and 32-bit wrap-around, the loop ends if and only if for every due repeating timer the highest trigger it is ever set to, 2^32 - g + T mod g, lies after the target time |
| `TimerLimits.NoWrapEndsIff` | backtestbed/faketimerprovider.cpp:101-126 | where no trigger wraps, the loop ends if and only if no due timer repeats with interval 0 |
| `TimerLimits.ZeroIntervalNeverEnds` | backtestbed/faketimerprovider.cpp:116-119 | one due timer that repeats with interval 0 keeps the loop going for ever, whatever the other timers and the callbacks do |
| `TimerLimits.GoesBackIff` | backtestbed/faketimerprovider.cpp:116-119 | after a repeating timer fires, the next firing is at an earlier time if and only if its trigger plus its interval reaches 2^32 |
| `TimerLimits.WrapGoesBack` | backtestbed/faketimerprovider.cpp:101-126 | a due timer whose trigger wraps before it passes the target time makes the log of a loop that ends go back in time |
| `Timers.BeyondFormula` | backtestbed/faketimerprovider.cpp:116-119 | the first trigger a repeating timer reaches after time t is T + ((t - T) / d + 1) * d |
| `TimerLimits.EndsForwardIff` | backtestbed/faketimerprovider.cpp:101-126 | the loop ends without firing back in time if and only if every due repeating timer has d >= 1 and T + ((t - T) / d + 1) * d < 2^32 |
| `TimerLimits.SaneRuns` | backtestbed/faketimerprovider.cpp:101-126 | for such timers the turns of the loop give the log and the timers all other laws are about |
| `Replay.MergeContents` | backtestbed/marketdatareplayer.cpp:57-94 | the merged list is the multiset union of the two lists |
| `Replay.MergeSorted` | backtestbed/marketdatareplayer.cpp:57-94 | merging time-sorted lists gives a time-sorted list |
| `Replay.MergeAnyOrder` | backtestbed/marketdatareplayer.cpp:57-94 | in whatever order the stores arrive, the list is time-sorted, holds exactly their ticks, and shows the ticks of each store in their original order |
| `ReplayOrder.LaterStoresFirst` | backtestbed/marketdatareplayer.cpp:57-94 | of ticks of the same time those of the store that arrived later come first |
| `Replay.TicksInterleaved` | backtestbed/marketdatareplayer.cpp:41-55 | from any tick on, the combined log does not go back in time and nothing fires at or before a tick already delivered |
| `Replay.DayInterleaving` | backtestbed/marketdatareplayer.cpp:41-55 | the log of a day, ticks after the last second included: times do not decrease, timers due at or before a tick fire before it, every tick reaches every consumer once in order, and the firings are those of the timers alone |
| `ReplayOrder.DeliveryAt` | backtestbed/marketdatareplayer.cpp:48-51 | with n consumers the delivery number i * n + j is that of the i-th tick to the j-th consumer |
| `ReplayOrder.LastSecond` | backtestbed/marketdatareplayer.cpp:41-55 | the timers run to 86399000 ms, or to the last tick when that is later |
| `Replayer.FakeTimerProvider.SetTimer` | backtestbed/faketimerprovider.cpp:26-41 | a timer with that key is kept, otherwise the new one goes to its place in the map order; the result says which |
| `Replayer.FakeTimerProvider.CancelTimer` | backtestbed/faketimerprovider.cpp:43-46 | the timer with that key goes, and the result says whether there was one |
| `Replayer.FakeTimerProvider.GetNextTimer` | backtestbed/faketimerprovider.cpp:128-150 | the scan finds the earliest trigger, the first key among equals |
| `Replayer.FakeTimerProvider.FireNext` | backtestbed/faketimerprovider.cpp:112-123 | one turn of the loop: clock, callback, then rescheduling or removal |
| `Replayer.FakeTimerProvider.AdvanceToTime` | backtestbed/faketimerprovider.cpp:101-126 | for exactly the timers with which the loop ends in order, it ends with the timers and the log of the recursive definition and the clock at the target |
| `Replayer.FakeTimerProvider.StartDate` | backtestbed/faketimerprovider.cpp:67-83 | the clock goes to 0 and every consumer sets its timers, in map order; `StartOfDay.DayStartsWith` says which timers that leaves |
| `Replayer.FakeTimerProvider.EndDate` | backtestbed/faketimerprovider.cpp:86-99 | for the current date the rest of the day fires and all timers go; for another date nothing happens |
| `Replayer.MarketDataReplayer.AddDataStore` | backtestbed/marketdatareplayer.cpp:57-94 | the three loops compute the merge |
| `Replayer.MarketDataReplayer.StartReplay` | backtestbed/marketdatareplayer.cpp:41-55 | a replay appends exactly the log of the day and leaves no timers; a day that begins without timers fires every repeating timer of its start at d, 2d, 3d and so on; for date 0 the end of the day is passed over |
| `StartOfDay.StartTimersReady` | strategy/SingleStrategy.cpp:86-111 | whatever intervals within the day the consumers ask for at its start, the replay is well defined |
| `StartOfDay.DayStartsWith` | backtestbed/faketimerprovider.cpp:67-83 | a day starts with exactly the timers the consumers set in onStartDay, for each event the first one set |
| `StartOfDay.RepeatingWishFires` | backtestbed/faketimerprovider.cpp:67-126 | in the log of the day a repeating timer of interval d set at its start fires at exactly d, 2d, 3d and so on to its end |
| `StartOfDay.ReactionFires` | strategy/SingleStrategy.cpp:72-79 | the repeating timer a callback sets at time T fires at exactly T + d, T + 2d and so on |
| `StartOfDay.OpeningWishFires` | strategy/SingleStrategy.cpp:72-107 | a timer set once at the start of the day fires once, and the one its callback sets fires through the rest of the day |
| `StartOfDay.StrategyTimersFire` | strategy/SingleStrategy.cpp:72-107 | every strategy fires event 1 once, at 32399500 ms, and event 2 at 32400000 ms and every 500 ms after it |
| `Regex.ParseInvertsRender` | protobuf-2.6.1/gtest/src/gtest-port.cc:257-311 | a regex parses to a pattern exactly when that pattern is valid and is written that way, so every valid regex has one meaning |
| `Regex.HeadOnce` | protobuf-2.6.1/gtest/src/gtest-port.cc:364-372 | a head match of an unrepeated atom is a match of its first character and a head match of the rest |
| `Regex.HeadRepeated` | protobuf-2.6.1/gtest/src/gtest-port.cc:320-342 | a head match of a repeated atom is a head match of the rest after some admissible number of characters |
| `Regex.SomewhereIsHead` | protobuf-2.6.1/gtest/src/gtest-port.cc:383-396 | some substring lies in the language, respecting both anchors, exactly when some suffix has a matching head |
| `RegexClasses.AtomStands` | protobuf-2.6.1/gtest/src/gtest-port.cc:210-249 | the characters an atom stands for, listed by code: the ten digits, six blanks, letters, digits and underscore, their complements, the five control characters, each escaped punctuation mark for itself, all but the newline for a dot |
| `RegexClasses.EscapesAndReserved` | protobuf-2.6.1/gtest/src/gtest-port.cc:210-227 | which characters may be escaped, may stand unescaped, and may repeat an atom |
| `RegexClasses.OnceLanguage` | protobuf-2.6.1/gtest/src/gtest-port.cc:364-372 | a one-atom pattern has exactly the one-character words of its set |
| `RegexClasses.RepeatedLanguage` | protobuf-2.6.1/gtest/src/gtest-port.cc:320-342 | a repeated atom has the words over its set, not empty for `+` and of at most one character for `?` |
| `RegexClasses.Sequence` | protobuf-2.6.1/gtest/src/gtest-port.cc:347-373 | items one after another have the concatenations of their words |
| `RegexClasses.PlainTextIsFound` | protobuf-2.6.1/gtest/src/gtest-port.cc:383-396 | plain text is a valid regex and is found exactly where it occurs as a substring, at the start after `^` and at the end before `$` |
| `RegexEngine.ScanIsParseAtStart` | protobuf-2.6.1/gtest/src/gtest-port.cc:257-311 | the scanning conditions of the validator accept exactly the regexes that parse |
| `RegexEngine.ValidateRegex` | protobuf-2.6.1/gtest/src/gtest-port.cc:257-311 | the loop accepts exactly the valid regexes, and not NULL |
| `RegexEngine.MatchRepetitionAndRegexAtHead` | protobuf-2.6.1/gtest/src/gtest-port.cc:320-342 | true exactly when some admissible repetition count leaves a head match of the rest |
| `RegexEngine.MatchRegexAtHead` | protobuf-2.6.1/gtest/src/gtest-port.cc:347-373 | true exactly when some prefix, the whole string under a closing anchor, lies in the language; the mutual recursion terminates |
| `RegexEngine.MatchRegexAnywhere` | protobuf-2.6.1/gtest/src/gtest-port.cc:383-396 | soundness and completeness: true exactly when some substring lies in the language, respecting both anchors |
| `RegexEngine.RE.constructor` | protobuf-2.6.1/gtest/src/gtest-port.cc:417-448 | a valid regex is stored with its anchored form, an invalid one is marked |
| `RegexEngine.RE.FullMatch` | protobuf-2.6.1/gtest/src/gtest-port.cc:406-408 | what FullMatch accepts, for every regex |
| `RegexEngine.RE.PartialMatch` | protobuf-2.6.1/gtest/src/gtest-port.cc:411-414 | true exactly when the regex is valid and some substring lies in its language, which `RegexClasses` builds up from listed characters |
| `RegexEngine.FullPatternParses` | protobuf-2.6.1/gtest/src/gtest-port.cc:430-447 | the stored full pattern has the same items, anchored at the start, and at the end unless an escaped dollar sign was taken for an anchor |
| `RegexEngine.FullMatchMeaning` | protobuf-2.6.1/gtest/src/gtest-port.cc:406-408 | searching with the full pattern accepts exactly what FullMatches says |
| `RegexEngine.FullMatchIsFullIff` | protobuf-2.6.1/gtest/src/gtest-port.cc:430-447 | FullMatch accepts exactly the whole-string matches if and only if the regex does not end in an escaped dollar sign |
| `Grid.ParserProps` | util/util.cpp:83-108 | the nested loops give one row for each value of the 32-bit product, each with exactly the property names and the value at row number modulo list length; for pairwise coprime lengths whose product fits every combination of values is that of some row |
| `Grid.SomeNumber` | util/util.cpp:101-104 | for pairwise coprime lengths every choice of positions is hit below the product |
| `Grid.OneNumber` | util/util.cpp:101-104 | for pairwise coprime lengths no two numbers below the product hit the same positions |
| `Grid.SharedDivisorLosesOne` | util/util.cpp:101-104 | two lengths with a common divisor leave some choice without a row |
| `Grid.WrapLosesOne` | util/util.cpp:88-91 | a product that does not fit in 32 bits leaves some choice without a row |
| `Grid.EveryChoiceOnceIff` | util/util.cpp:83-108 | every choice is in exactly one row if and only if some list is empty or the lengths are pairwise coprime and their product fits |
| `Grid.UsedEqually` | util/util.cpp:101-104 | for any lengths whose product fits, every position of a list is used in exactly rows / length rows |
| `Mox.StepKeeps` | protobuf-2.6.1/python/mox.py:588-613 | replay keeps the queue well formed and unambiguous |
| `Mox.StepSound` | protobuf-2.6.1/python/mox.py:588-613 | an expected call followed by a word of the remaining queue is a word of the queue |
| `Mox.StepComplete` | protobuf-2.6.1/python/mox.py:588-613 | without a clash, a call that starts a word is expected and the rest is a word of the remaining queue |
| `Mox.EmptyWord` | protobuf-2.6.1/python/mox.py:331-347 | the final verification passes exactly when the remaining queue stands for the empty sequence |
| `Mox.EmptyGroupBlocks` | protobuf-2.6.1/python/mox.py:1318-1331 | a multiple-times group without methods is never satisfied, so no call sequence passes it |
| `Mox.AcceptedIsInLanguage` | protobuf-2.6.1/python/mox.py:588-613 | whatever the queue, an accepted call sequence is a concatenation of the ordered calls, permutations of the unordered groups and words using every method of the multiple-times groups |
| `Mox.LanguageIsAccepted` | protobuf-2.6.1/python/mox.py:588-613 | without a clash every such concatenation is accepted |
| `Mox.LostWordRejected` | protobuf-2.6.1/python/mox.py:1285-1316 | a group that holds a call which can start the next entry loses a word |
| `Mox.ReplayIsLanguageIff` | protobuf-2.6.1/python/mox.py:588-613 | replay accepts exactly the language of a recorded queue if and only if no group clashes with the entry after it |
| `MockQueue.CallQueue.PopNextMethod` | protobuf-2.6.1/python/mox.py:581-586 | the oldest item, or the unexpected-call error |
| `MockQueue.CallQueue.VerifyMethodCall` | protobuf-2.6.1/python/mox.py:588-613 | the loop over group objects changed in place has the outcome and the queue of one replay step |
| `MockQueue.CallQueue.Ask` | protobuf-2.6.1/python/mox.py:604-607 | what a group object answers, as a replay step with the group at the head of the queue |
| `MockQueue.CallQueue.Verify` | protobuf-2.6.1/python/mox.py:331-347 | passes for an empty queue and for one satisfied multiple-times group |
| `MockQueue.UnorderedGroup.MethodCalled` | protobuf-2.6.1/python/mox.py:1223-1255 | the first equal method goes, and the group returns to the head unless empty |
| `MockQueue.MultipleTimesGroup.MethodCalled` | protobuf-2.6.1/python/mox.py:1285-1316 | a call of the group is counted and the group stays in front; another call goes on only from a satisfied group |
| `MockQueue.MultipleTimesGroup.IsSatisfied` | protobuf-2.6.1/python/mox.py:1318-1331 | the nested strike-off loops decide whether there are methods and every one was called |
| `Primes.RootIsEnough` | protobuf-2.6.1/gtest/samples/prime_tables.h:59-64 | a number with no divisor up to its root has none |
| `Primes.PrimeAbove` | protobuf-2.6.1/gtest/samples/prime_tables.h:69-75 | Euclid: there is a prime above every number, which bounds the search |
| `Primes.OnTheFlyPrimeTable.IsPrime` | protobuf-2.6.1/gtest/samples/prime_tables.h:56-67 | trial division to the root decides primality of every integer |
| `Primes.OnTheFlyPrimeTable.GetNextPrime` | protobuf-2.6.1/gtest/samples/prime_tables.h:69-75 | the least prime above p from 0 on, and -1 below; the loop ends |
| `Primes.PreCalculatedPrimeTable.CalculatePrimesUpTo` | protobuf-2.6.1/gtest/samples/prime_tables.h:102-114 | the sieve marks exactly the primes up to max |
| `Primes.PreCalculatedPrimeTable.constructor` | protobuf-2.6.1/gtest/samples/prime_tables.h:83-87 | a new table is the sieved one |
| `Primes.PreCalculatedPrimeTable.IsPrime` | protobuf-2.6.1/gtest/samples/prime_tables.h:89-91 | primality inside the table, false outside |
| `Primes.PreCalculatedPrimeTable.GetNextPrime` | protobuf-2.6.1/gtest/samples/prime_tables.h:93-99 | the least prime above p in the table, or -1 exactly when it has none |
| `Primes.HybridPrimeTable.IsPrime` | protobuf-2.6.1/gtest/samples/sample8_unittest.cc:62-67 | agrees with primality everywhere, whichever table answers |
| `Primes.HybridPrimeTable.GetNextPrime` | protobuf-2.6.1/gtest/samples/sample8_unittest.cc:69-75 | the least prime above p from 0 on; at -1 the answer depends on the table |
| `Utf8.OneRoundTrip` | protobuf-2.6.1/gtest/src/gtest.cc:1395-1426 | decoding the bytes of a code point up to U+10FFFF, surrogates included, gives it back with its length, by section 3 of RFC 3629 |
| `Utf8.DecodeEncoded` | protobuf-2.6.1/gtest/src/gtest.cc:1464-1486 | decoding the concatenated bytes of any sequence of code points gives it back |
| `Utf8.PairBack` | protobuf-2.6.1/gtest/src/gtest.cc:1435-1449 | a surrogate pair becomes a code point above the basic plane that section 2.1 of RFC 2781 encodes as that pair |
| `Utf8.UnitsBack` | protobuf-2.6.1/gtest/src/gtest.cc:1464-1486 | encoding the code points again gives back the 16-bit units, lone surrogates included |
| `Utf8.RoundTrip` | protobuf-2.6.1/gtest/src/gtest.cc:1464-1486 | decoding the output and encoding in 16-bit units gives back the input |
| `Utf8.ConversionIsInjective` | protobuf-2.6.1/gtest/src/gtest.cc:1464-1486 | different strings are converted differently |
| `Utf8.CodePointToUtf8` | protobuf-2.6.1/gtest/src/gtest.cc:1395-1426 | the buffer holds, up to its NUL, the encoded code point, nothing for zero, or the invalid text above 21 bits |
| `Utf8.InvalidText` | protobuf-2.6.1/gtest/src/gtest.cc:1416-1423 | the text of an invalid code point is its number in hexadecimal digits between the fixed words and a bracket |
| `Utf8.ProcessedFacts` | protobuf-2.6.1/gtest/src/gtest.cc:1464-1486 | what is converted: the units before the NUL, at most num_chars of them unless that is -1 |
| `Utf8.WideStringToUtf8` | protobuf-2.6.1/gtest/src/gtest.cc:1464-1486 | the loop converts the units before the NUL, at most num_chars of them unless that is -1 |
| `Filters.MatcherIsLanguage` | protobuf-2.6.1/gtest/src/gtest.cc:434-448 | the recursive wildcard matcher decides the language of the pattern |
| `Filters.FindPattern` | protobuf-2.6.1/gtest/src/gtest.cc:451-470 | the loop over the patterns decides the filter |
| `Filters.FilterIsUnion` | protobuf-2.6.1/gtest/src/gtest.cc:451-470 | a filter matches the union of the languages of its colon-separated patterns |
| `Filters.QuestionMarks` | protobuf-2.6.1/gtest/src/gtest.cc:434-448 | n question marks stand for any n characters |
| `Filters.SelectedWithoutDash` | protobuf-2.6.1/gtest/src/gtest.cc:474-501 | a filter without a dash selects the tests whose name, test case and test joined by a dot, one of its patterns denotes |
| `Filters.SelectedWithDash` | protobuf-2.6.1/gtest/src/gtest.cc:474-501 | with a dash, the tests denoted by a pattern before it, all when there is none, and by no pattern behind it |
| `Filters.DisabledTests` | protobuf-2.6.1/gtest/src/gtest.cc:4337-4343 | a test is disabled exactly when its name or that of its test case begins with DISABLED_ or holds it after a slash |
| `Filters.DeathTestCaseNames` | protobuf-2.6.1/gtest/src/gtest.cc:153-156 | a death test case is one whose name ends in DeathTest or holds DeathTest before a slash |
| `Sharding.ExactlyOneShard` | protobuf-2.6.1/gtest/src/gtest.cc:4306-4308 | a runnable test is selected on exactly one shard index, any other on none |
| `Sharding.ShardCount` | protobuf-2.6.1/gtest/src/gtest.cc:4348-4353 | how many tests a shard selects |
| `Sharding.ShardsAreBalanced` | protobuf-2.6.1/gtest/src/gtest.cc:4348-4353 | two shards differ by at most one test |
| `Sharding.ShardsCoverAll` | protobuf-2.6.1/gtest/src/gtest.cc:4348-4353 | all shards together select every runnable test |
| `Sharding.ListByList` | protobuf-2.6.1/gtest/src/gtest.cc:4328-4366 | the nested loops over test cases choose as one loop over all tests would |
| `Sharding.ChosenIsSelected` | protobuf-2.6.1/gtest/src/gtest.cc:4348-4353 | with sharding ignored every runnable test is chosen, otherwise those of the shard |
| `TestOrder.RegisteredKeeps` | protobuf-2.6.1/gtest/src/gtest.cc:4051-4064 | registration keeps the death test cases in front of the others |
| `TestOrder.RegistrationOrder` | protobuf-2.6.1/gtest/src/gtest.cc:4035-4068 | after any registrations the death test cases come first, and both kinds are in the order of first registration |
| `TestOrder.Random.Generate` | protobuf-2.6.1/gtest/src/gtest.cc:285-299 | the generator, with its 32-bit arithmetic, gives a number below the range and a state below 2^31 |
| `TestOrder.ShuffleRange` | protobuf-2.6.1/gtest/src/gtest-internal-inl.h:308-326 | the range is drawn from the back with the numbers of the generator, as `Shuffling` says, and nothing outside it moves |
| `Shuffling.PickAt` | protobuf-2.6.1/gtest/src/gtest-internal-inl.h:319-321 | the j-th number drawn is the j-th state of the generator after its start, modulo what is left of the range |
| `Shuffling.DrawnAt` | protobuf-2.6.1/gtest/src/gtest-internal-inl.h:317-325 | the j-th place from the end gets the element at the j-th pick of what was left, the last of which moves into the hole |
| `Shuffling.EveryOrderOnce` | protobuf-2.6.1/gtest/src/gtest-internal-inl.h:308-326 | of distinct elements every order, and nothing else, comes from exactly one sequence of picks |
| `TestOrder.PickedPermutation` | protobuf-2.6.1/gtest/src/gtest-internal-inl.h:586-589 | a permutation of the indices runs a permutation of the test cases |
| `TestOrder.RangesApart` | protobuf-2.6.1/gtest/src/gtest.cc:4424-4431 | shuffling the two ranges apart keeps a permutation and keeps the first range in front |
| `UnitTest.TestCase.AddTestInfo` | protobuf-2.6.1/gtest/src/gtest.cc:2330-2333 | a new test gets the next index |
| `UnitTest.TestCase.ShuffleTests` | protobuf-2.6.1/gtest/src/gtest.cc:2369-2371 | the indices are those of the shuffle from the state of the generator; every test of the test case still runs once |
| `UnitTest.TestCase.UnshuffleTests` | protobuf-2.6.1/gtest/src/gtest.cc:2374-2378 | the indices are those of registration again |
| `UnitTest.TestCase.FilterTests` | protobuf-2.6.1/gtest/src/gtest.cc:4334-4365 | the inner loop marks the tests the protocol chooses, from the counts so far, and the test case if one of them is |
| `UnitTest.UnitTestImpl.GetTestCase` | protobuf-2.6.1/gtest/src/gtest.cc:4035-4068 | an existing test case is returned; a new one is inserted as the registration order says, with the next index; an unshuffled index order stays the identity, and an index order with the death test cases first stays so exactly under the stated condition |
| `UnitTest.RegistrationAfterShuffleIff` | protobuf-2.6.1/gtest/src/gtest.cc:4051-4067 | a shuffled index order that has the death test cases first still has them first after a new one is registered exactly when there are no other test cases or the first of them comes first among its kind |
| `UnitTest.UnitTestImpl.AddTestInfo` | protobuf-2.6.1/gtest/src/gtest-internal-inl.h:647-667 | the test is added to the test case of its name and to no other |
| `UnitTest.UnitTestImpl.RunOrder` | protobuf-2.6.1/gtest/src/gtest-internal-inl.h:586-589 | every test case is run once, and the death test cases before all others exactly when the index order has them first |
| `UnitTest.UnitTestImpl.ShuffleTests` | protobuf-2.6.1/gtest/src/gtest.cc:4424-4436 | the indices are those of the two shuffles, and the tests of each test case those of the shuffles after them; every test case is still run once, and the death test cases run before all others exactly when the index order had them first |
| `UnitTest.UnitTestImpl.UnshuffleTests` | protobuf-2.6.1/gtest/src/gtest.cc:4439-4446 | both index orders are those of registration again |
| `UnitTest.UnitTestImpl.RunAllTests` | protobuf-2.6.1/gtest/src/gtest.cc:4145-4210 | every iteration visits every test case once with the death test cases first, in the order its seed gives or, unshuffled, that of registration, and leaves the order of registration |
| `UnitTest.RunProgram` | protobuf-2.6.1/gtest/src/gtest.cc:4035-4215 | end to end: whatever tests are registered in whatever order and whatever the seeds, every iteration visits every registered test case once and the death test cases before the others, in the order the seed gives; without shuffling in the order of registration |
| `UnitTest.UnitTestImpl.FilterTests` | protobuf-2.6.1/gtest/src/gtest.cc:4317-4368 | the marked tests of all test cases are those chosen, the result counts them, and a test case runs exactly when one of its tests does |

## Left out

- Database, file archive, socket, UDP and DLL code, console output and the loading of tick files: input and output over libraries that are not shown; loads are taken to finish.
- Calendar conversion: dates are day numbers with a day of the week; the sleeps of the producer are not modelled, because the discarded future blocks until the day has been posted, so that the cap check and the increment are one step.
- Memory-level races on `current_date` and the counter: every access is one atomic step.
- SchedulerRuns.EveryFairRunCompletes: needs at least one worker; on a machine that reports zero cores the pool is empty.
- Order notifications are a log of announcements; re-entrant requests from a subscriber are not modelled.
- Strategy signals (moving averages, logarithms, tick guards, the stop-loss flag) are arbitrary booleans of each step; statistics are left out.
- Strategy.SingleStrategy.CalculatePnl: `net_pnl_`, the same profit less a commission, is left out.
- Strategy.SingleStrategy.constructor: the signal, commission and limit fields are left out with the signals they serve.
- StrategyLedger.LedgersAgree: takes a lots-per-order setting that is not negative and fits the int counters together with the position limit.
- The lookup of orders by request number, which misses a close filled only from lots of yesterday.
- PositionLaws.AmountIsCostIff: takes positive prices and a total below 2^32; with wrap-around or negative prices the errors of single lots can cancel.
- IEEE rounding: prices and profits are real numbers.
- Replayer.FakeTimerProvider.AdvanceToTime: takes exactly the timers with which the loop ends without going back in time; `TimerLimits` says what happens with all others. A callback sets at most one timer, as the strategy does, with a positive interval that stays below 2^32 up to the target time, and cancels none.
- Replayer.FakeTimerProvider.EndDate: the onEndDay callbacks of the consumers are left out; the strategy logs its results there.
- The nested timer maps are one sequence sorted by consumer and event; a tick carries the number of the store that owns it.
- The scan of regex text past 2^64 characters, and characters outside a `char`'s range in the class escapes.
- Grid.ParserProps: the row loop counts in an int; from 2^31 rows on its overflow is undefined and not modelled. The parsing of the configuration text is left out.
- The recording phase of mox, comparators as parameters, and calls made twice through one saved method object, which its identity sets (as Python 2 hashes method objects) would count once.
- Primes.OnTheFlyPrimeTable.IsPrime: unbounded integers; the square of the loop variable overflows an int from 2147395601 on.
- Primes.HybridPrimeTable.GetNextPrime: below -1 a precalculated table would be read out of bounds, so that is required not to happen.
- Utf8.WideStringToUtf8: for 16-bit wide characters; 32-bit ones, which are code points as they are, are left out.
- TestOrder.ShuffleRange: the range checks of the source abort the program and are preconditions here; every order comes from one sequence of picks, but that the generator gives every such sequence is not claimed.
- Typed and parameterised test registration, environment variables of the sharding protocol (they arrive as parameters), death-test processes, colours, printing and flag parsing.
- Instrument tables (multipliers, tick sizes) are parameters.
