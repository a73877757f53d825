/** The day scheduler: every (strategy instance, trading day) pair is a task on a shared FIFO pool.
    A worker runs a task only if its day is the instance's next working day and reposts it otherwise;
    a producer feeds the days under a cap on the days held in memory.
    All reads and writes of shared state are single atomic steps; steps of different threads interleave freely. */
module Scheduler {
  import opened Calendar

  const MAX_DAY_IN_MEMORY := 15

  datatype Config = Config(start: int, end: int, instances: nat, workers: nat)

  datatype Task = Task(inst: nat, day: int)

  /** What a pool thread is doing; every state but `Idle` keeps the day's replayer alive. */
  datatype Worker =
    | Idle
    | Checking(task: Task)   // task taken, guard not yet evaluated
    | Replaying(task: Task)  // guard held: StartReplay in progress
    | Reposting(task: Task)  // guard failed: about to post the task again
    | Releasing(task: Task)  // day replayed or task posted again, own reference not yet dropped

  datatype Producer =
    | Scanning(date: int)             // about to look at `date`
    | Posting(date: int, next: nat)   // inside processOneDay, about to post instance `next`

  datatype State = State(
    queue: seq<Task>,
    workers: seq<Worker>,
    current: seq<int>,      // each instance's `current_date`
    producer: Producer,
    inMemory: int,          // `dayInMemoryCount`
    log: seq<seq<int>>)     // days each instance has replayed, in order

  datatype Action =
    | SkipWeekend | BeginDay | PostTask | EndDay
    | Pick(w: nat) | Check(w: nat) | Repost(w: nat) | Finish(w: nat) | Release(w: nat)

  datatype Process = ProducerThread | WorkerThread(w: nat)

  function Actor(a: Action): Process {
    match a
    case Pick(w) => WorkerThread(w)
    case Check(w) => WorkerThread(w)
    case Repost(w) => WorkerThread(w)
    case Finish(w) => WorkerThread(w)
    case Release(w) => WorkerThread(w)
    case _ => ProducerThread
  }

  // ---------- who refers to what ----------

  /** The sum of a weight over the workers. */
  function Total(workers: seq<Worker>, weight: Worker -> nat): nat {
    if workers == [] then 0 else weight(workers[0]) + Total(workers[1..], weight)
  }

  predicate Carrying(worker: Worker) {
    !worker.Idle? && !worker.Releasing?
  }

  function CarryingWeight(): Worker -> nat {
    (worker: Worker) => if Carrying(worker) then 1 else 0
  }

  function TaskWeight(t: Task): Worker -> nat {
    (worker: Worker) => if Carrying(worker) && worker.task == t then 1 else 0
  }

  /** How often task t is in play: queued, or in the hands of a worker that has not replayed it yet. */
  function Copies(s: State, t: Task): nat {
    multiset(s.queue)[t] + Total(s.workers, TaskWeight(t))
  }

  /** Number of tasks in play. */
  function InPlay(s: State): nat {
    |s.queue| + Total(s.workers, CarryingWeight())
  }

  /** The days whose replayer is alive: some queued task, worker or the producer refers to it. */
  function LiveDays(s: State): set<int> {
    (set t | t in s.queue :: t.day)
    + (set worker | worker in s.workers && !worker.Idle? :: worker.task.day)
    + (if s.producer.Posting? then {s.producer.date} else {})
  }

  // ---------- the transition system ----------

  function Init(c: Config): State {
    State([], seq(c.workers, _ => Idle), seq(c.instances, _ => c.start - 1), Scanning(c.start), 0,
          seq(c.instances, _ => []))
  }

  predicate Enabled(c: Config, s: State, a: Action) {
    match a
    case SkipWeekend => s.producer.Scanning? && s.producer.date < c.end && IsWeekend(s.producer.date)
    case BeginDay =>
      s.producer.Scanning? && s.producer.date < c.end && !IsWeekend(s.producer.date) && s.inMemory < MAX_DAY_IN_MEMORY
    case PostTask => s.producer.Posting? && s.producer.next < c.instances
    case EndDay => s.producer.Posting? && s.producer.next >= c.instances
    case Pick(w) => w < |s.workers| && s.workers[w].Idle? && s.queue != []
    case Check(w) => w < |s.workers| && s.workers[w].Checking? && s.workers[w].task.inst < |s.current|
    case Repost(w) => w < |s.workers| && s.workers[w].Reposting?
    case Finish(w) =>
      w < |s.workers| && s.workers[w].Replaying? && s.workers[w].task.inst < |s.current| && |s.current| == |s.log|
    case Release(w) => w < |s.workers| && s.workers[w].Releasing?
  }

  /** Dropping a reference to `day` destroys the replayer when it was the last one. */
  function Drop(s: State, day: int): State {
    if day in LiveDays(s) then s else s.(inMemory := s.inMemory - 1)
  }

  function Step(c: Config, s: State, a: Action): State
    requires Enabled(c, s, a)
  {
    match a
    case SkipWeekend => s.(producer := Scanning(s.producer.date + 1))
    case BeginDay => s.(producer := Posting(s.producer.date, 0), inMemory := s.inMemory + 1)
    case PostTask =>
      s.(queue := s.queue + [Task(s.producer.next, s.producer.date)],
         producer := s.producer.(next := s.producer.next + 1))
    case EndDay => Drop(s.(producer := Scanning(s.producer.date + 1)), s.producer.date)
    case Pick(w) => s.(queue := s.queue[1..], workers := s.workers[w := Checking(s.queue[0])])
    case Check(w) =>
      var t := s.workers[w].task;
      s.(workers := s.workers[w := if NextWorkingDay(s.current[t.inst]) == t.day then Replaying(t) else Reposting(t)])
    case Repost(w) =>
      s.(queue := s.queue + [s.workers[w].task], workers := s.workers[w := Releasing(s.workers[w].task)])
    case Finish(w) =>
      var t := s.workers[w].task;
      s.(current := s.current[t.inst := t.day],
         log := s.log[t.inst := s.log[t.inst] + [t.day]],
         workers := s.workers[w := Releasing(t)])
    case Release(w) => Drop(s.(workers := s.workers[w := Idle]), s.workers[w].task.day)
  }

  // ---------- the invariant ----------

  /** The producer has posted task t. */
  predicate Posted(c: Config, s: State, t: Task) {
    && t.inst < c.instances
    && c.start <= t.day < c.end && !IsWeekend(t.day)
    && (t.day < s.producer.date || (s.producer.Posting? && t.day == s.producer.date && t.inst < s.producer.next))
  }

  predicate Outstanding(c: Config, s: State, t: Task)
    requires |s.current| == c.instances
  {
    Posted(c, s, t) && t.day > s.current[t.inst]
  }

  /** Working days instance after instance still has to replay. */
  function Unfinished(current: seq<int>, end: int): nat {
    if current == [] then 0 else Unfinished(current[1..], end) + CountWeekdays(current[0] + 1, end)
  }

  /** Tasks the producer has still to post. */
  function Unposted(c: Config, s: State): int {
    match s.producer
    case Scanning(date) => c.instances * CountWeekdays(date, c.end)
    case Posting(date, next) => c.instances * CountWeekdays(date + 1, c.end) + c.instances - next
  }

  ghost predicate Shape(c: Config, s: State) {
    && |s.workers| == c.workers && |s.current| == c.instances && |s.log| == c.instances
    && c.start <= s.producer.date
    && (s.producer.Scanning? ==> s.producer.date == c.start || s.producer.date <= c.end)
    && (s.producer.Posting? ==>
          s.producer.date < c.end && !IsWeekend(s.producer.date) && s.producer.next <= c.instances)
  }

  ghost predicate HistoryInv(c: Config, s: State)
    requires Shape(c, s)
  {
    forall i :: 0 <= i < c.instances ==>
      && (s.current[i] == c.start - 1 || Posted(c, s, Task(i, s.current[i])))
      && s.log[i] == Weekdays(c.start, s.current[i] + 1)
  }

  ghost predicate FlightInv(c: Config, s: State)
    requires Shape(c, s)
  {
    && (forall t :: Copies(s, t) == if Outstanding(c, s, t) then 1 else 0)
    && InPlay(s) + Unposted(c, s) == Unfinished(s.current, c.end)
  }

  ghost predicate WorkerInv(c: Config, s: State)
    requires Shape(c, s)
  {
    forall w :: 0 <= w < c.workers ==>
      && (s.workers[w].Replaying? ==>
            s.workers[w].task.inst < c.instances
            && s.workers[w].task.day == NextWorkingDay(s.current[s.workers[w].task.inst]))
      && (s.workers[w].Releasing? ==> Posted(c, s, s.workers[w].task))
  }

  ghost predicate MemoryInv(s: State) {
    s.inMemory == |LiveDays(s)| <= MAX_DAY_IN_MEMORY
  }

  ghost predicate Inv(c: Config, s: State) {
    Shape(c, s) && HistoryInv(c, s) && FlightInv(c, s) && WorkerInv(c, s) && MemoryInv(s)
  }

  // ---------- bookkeeping lemmas ----------

  lemma {:induction false} TotalUpdate(workers: seq<Worker>, w: nat, worker: Worker, weight: Worker -> nat)
    requires w < |workers|
    ensures Total(workers[w := worker], weight) + weight(workers[w]) == Total(workers, weight) + weight(worker)
  {
    if w > 0 {
      TotalUpdate(workers[1..], w - 1, worker, weight);
      assert workers[w := worker][1..] == workers[1..][w - 1 := worker];
    } else {
      assert workers[0 := worker][1..] == workers[1..];
    }
  }

  lemma {:induction false} InitialTotal(n: nat, weight: Worker -> nat)
    requires weight(Idle) == 0
    ensures Total(seq(n, _ => Idle), weight) == 0
  {
    if n > 0 {
      InitialTotal(n - 1, weight);
      assert seq(n, _ => Idle)[1..] == seq(n - 1, _ => Idle);
    }
  }

  lemma {:induction false} UnfinishedUpdate(current: seq<int>, i: nat, day: int, end: int)
    requires i < |current|
    ensures Unfinished(current[i := day], end)
         == Unfinished(current, end) - CountWeekdays(current[i] + 1, end) + CountWeekdays(day + 1, end)
  {
    if i > 0 {
      UnfinishedUpdate(current[1..], i - 1, day, end);
      assert current[i := day][1..] == current[1..][i - 1 := day];
    } else {
      assert current[0 := day][1..] == current[1..];
    }
  }

  lemma {:induction false} InitialUnfinished(n: nat, date: int, end: int)
    ensures Unfinished(seq(n, _ => date), end) == n * CountWeekdays(date + 1, end)
  {
    hide CountWeekdays;
    if n > 0 {
      InitialUnfinished(n - 1, date, end);
      assert seq(n, _ => date)[1..] == seq(n - 1, _ => date);
      OneMore(n, CountWeekdays(date + 1, end));
    }
  }

  lemma OneMore(n: nat, w: nat)
    requires n > 0
    ensures n * w == (n - 1) * w + w
  {
  }

  /** A task in a worker's hands is in play, so it is posted and unfinished. */
  lemma CarriedIsOutstanding(c: Config, s: State, w: nat)
    requires Shape(c, s) && FlightInv(c, s) && w < c.workers && Carrying(s.workers[w])
    ensures Outstanding(c, s, s.workers[w].task) && Copies(s, s.workers[w].task) == 1
  {
    var t := s.workers[w].task;
    TotalUpdate(s.workers, w, Idle, TaskWeight(t));
    assert Copies(s, t) >= 1;
  }

  lemma QueuedIsOutstanding(c: Config, s: State, t: Task)
    requires Shape(c, s) && FlightInv(c, s) && t in s.queue
    ensures Outstanding(c, s, t) && Copies(s, t) == 1
  {
    assert t in multiset(s.queue);
    assert Copies(s, t) >= 1;
  }

  /** No task is in the hands of two workers. */
  lemma CarriersDiffer(c: Config, s: State, v: nat, w: nat)
    requires Shape(c, s) && FlightInv(c, s)
    requires v < c.workers && w < c.workers && v != w && Carrying(s.workers[v]) && Carrying(s.workers[w])
    ensures s.workers[v].task != s.workers[w].task
  {
    var t := s.workers[w].task;
    TotalUpdate(s.workers, v, Idle, TaskWeight(t));
    TotalUpdate(s.workers[v := Idle], w, Idle, TaskWeight(t));
    CarriedIsOutstanding(c, s, w);
  }

  // ---------- every step keeps the invariant ----------

  lemma StepShape(c: Config, s: State, a: Action)
    requires Shape(c, s) && Enabled(c, s, a)
    ensures Shape(c, Step(c, s, a))
  {
  }

  /** Posted tasks stay posted; only PostTask adds one. */
  lemma PostedStable(c: Config, s: State, a: Action, t: Task)
    requires Shape(c, s) && Enabled(c, s, a)
    ensures Posted(c, Step(c, s, a), t) <==>
            Posted(c, s, t) || (a.PostTask? && t == Task(s.producer.next, s.producer.date))
  {
  }

  lemma FinishedDay(c: Config, s: State, w: nat)
    requires Inv(c, s) && Enabled(c, s, Finish(w))
    ensures var t := s.workers[w].task;
      && Outstanding(c, s, t) && t.day == NextWorkingDay(s.current[t.inst])
      && Weekdays(c.start, t.day + 1) == Weekdays(c.start, s.current[t.inst] + 1) + [t.day]
  {
    hide MemoryInv, FlightInv, Weekdays, CountWeekdays;
    var t := s.workers[w].task;
    CarriedIsOutstanding(c, s, w);
    var cur := s.current[t.inst];
    FirstWorkingDay(cur);
    StepToNext(cur);
    WeekdaysSplit(c.start, cur + 1, t.day + 1);
  }

  lemma StepHistory(c: Config, s: State, a: Action)
    requires Inv(c, s) && Enabled(c, s, a)
    ensures Shape(c, Step(c, s, a)) && HistoryInv(c, Step(c, s, a))
  {
    hide FlightInv, WorkerInv, MemoryInv, LiveDays, Posted;
    StepShape(c, s, a);
    if a.Finish? {
      FinishedDay(c, s, a.w);
    }
    var s' := Step(c, s, a);
    forall i | 0 <= i < c.instances
      ensures s'.current[i] == c.start - 1 || Posted(c, s', Task(i, s'.current[i]))
      ensures s'.log[i] == Weekdays(c.start, s'.current[i] + 1)
    {
      PostedStable(c, s, a, Task(i, s'.current[i]));
    }
  }

  lemma StepWorkers(c: Config, s: State, a: Action)
    requires Inv(c, s) && Enabled(c, s, a)
    ensures Shape(c, Step(c, s, a)) && WorkerInv(c, Step(c, s, a))
  {
    hide HistoryInv, MemoryInv, FlightInv, Copies, InPlay, LiveDays, NextWorkingDay, Unfinished, Unposted;
    StepShape(c, s, a);
    var s' := Step(c, s, a);
    if a.Check? || a.Repost? || a.Finish? {
      CarriedIsOutstanding(c, s, a.w);
    }
    forall v | 0 <= v < c.workers
      ensures s'.workers[v].Replaying? ==>
                s'.workers[v].task.inst < c.instances
                && s'.workers[v].task.day == NextWorkingDay(s'.current[s'.workers[v].task.inst])
      ensures s'.workers[v].Releasing? ==> Posted(c, s', s'.workers[v].task)
    {
      if s'.workers[v].Releasing? {
        PostedStable(c, s, a, s'.workers[v].task);
      }
      if a.Finish? && v != a.w && s.workers[v].Replaying? {
        CarriersDiffer(c, s, v, a.w);
      }
    }
  }

  lemma CountFromWeekday(date: int, end: int)
    requires date < end
    ensures CountWeekdays(date, end) == CountWeekdays(date + 1, end) + if IsWeekend(date) then 0 else 1
  {
    WeekdaysSplit(date, date + 1, end);
  }

  lemma ProducerCopies(c: Config, s: State, a: Action, t: Task)
    requires Shape(c, s) && HistoryInv(c, s) && Enabled(c, s, a) && Actor(a) == ProducerThread
    requires Copies(s, t) == if Outstanding(c, s, t) then 1 else 0
    ensures var s' := Step(c, s, a); Shape(c, s') && Copies(s', t) == if Outstanding(c, s', t) then 1 else 0
  {
    StepShape(c, s, a);
    PostedStable(c, s, a, t);
    if a.PostTask? && t == Task(s.producer.next, s.producer.date) {
      assert HistoryInv(c, s);
      assert s.current[t.inst] == c.start - 1 || Posted(c, s, Task(t.inst, s.current[t.inst]));
    }
  }

  lemma WorkerCopies(c: Config, s: State, a: Action, t: Task)
    requires Shape(c, s) && Enabled(c, s, a) && Actor(a).WorkerThread? && !a.Finish?
    requires Copies(s, t) == if Outstanding(c, s, t) then 1 else 0
    ensures var s' := Step(c, s, a); Shape(c, s') && Copies(s', t) == if Outstanding(c, s', t) then 1 else 0
  {
    hide Shape, Posted, Copies, NextWorkingDay, LiveDays;
    StepShape(c, s, a);
    PostedStable(c, s, a, t);
    CopiesKept(c, s, a, t);
  }

  /** A worker passes its task on, or goes on with it. */
  lemma CopiesKept(c: Config, s: State, a: Action, t: Task)
    requires Shape(c, s) && Enabled(c, s, a) && Actor(a).WorkerThread? && !a.Finish?
    ensures Copies(Step(c, s, a), t) == Copies(s, t)
  {
    hide Shape, Total, NextWorkingDay, LiveDays;
    TotalUpdate(s.workers, a.w, Step(c, s, a).workers[a.w], TaskWeight(t));
    if a.Pick? {
      assert s.queue == [s.queue[0]] + s.queue[1..];
    }
  }

  lemma FinishCopies(c: Config, s: State, w: nat, t: Task)
    requires Inv(c, s) && Enabled(c, s, Finish(w))
    ensures var s' := Step(c, s, Finish(w)); Shape(c, s') && Copies(s', t) == if Outstanding(c, s', t) then 1 else 0
  {
    StepShape(c, s, Finish(w));
    PostedStable(c, s, Finish(w), t);
    CarriedIsOutstanding(c, s, w);
    FirstWorkingDay(s.current[s.workers[w].task.inst]);
    TotalUpdate(s.workers, w, Releasing(s.workers[w].task), TaskWeight(t));
    assert Copies(s, t) == if Outstanding(c, s, t) then 1 else 0;
  }

  lemma FinishCountsOne(c: Config, s: State, w: nat)
    requires Inv(c, s) && Enabled(c, s, Finish(w))
    ensures Unfinished(Step(c, s, Finish(w)).current, c.end) == Unfinished(s.current, c.end) - 1
  {
    hide HistoryInv, MemoryInv, FlightInv, Unfinished, Weekdays;
    var t := s.workers[w].task;
    CarriedIsOutstanding(c, s, w);
    NextConsumesOne(s.current[t.inst], c.end);
    UnfinishedUpdate(s.current, t.inst, t.day, c.end);
  }

  lemma StepUnposted(c: Config, s: State, a: Action)
    requires Shape(c, s) && Enabled(c, s, a)
    ensures Unposted(c, Step(c, s, a)) == Unposted(c, s) - if a.PostTask? then 1 else 0
  {
    if a.SkipWeekend? || a.BeginDay? {
      CountFromWeekday(s.producer.date, c.end);
    }
    if a.BeginDay? {
      var rest := CountWeekdays(s.producer.date + 1, c.end);
      assert c.instances * (rest + 1) == c.instances * rest + c.instances;
    }
  }

  lemma StepInPlay(c: Config, s: State, a: Action)
    requires Shape(c, s) && Enabled(c, s, a)
    ensures InPlay(Step(c, s, a)) == InPlay(s) + (if a.PostTask? then 1 else 0) - (if a.Finish? then 1 else 0)
  {
    if Actor(a).WorkerThread? {
      TotalUpdate(s.workers, a.w, Step(c, s, a).workers[a.w], CarryingWeight());
    }
  }

  lemma StepFlight(c: Config, s: State, a: Action)
    requires Inv(c, s) && Enabled(c, s, a)
    ensures Shape(c, Step(c, s, a)) && FlightInv(c, Step(c, s, a))
  {
    StepShape(c, s, a);
    StepInPlay(c, s, a);
    StepUnposted(c, s, a);
    var s' := Step(c, s, a);
    if a.Finish? {
      FinishCountsOne(c, s, a.w);
    }
    forall t ensures Copies(s', t) == if Outstanding(c, s', t) then 1 else 0 {
      assert Copies(s, t) == if Outstanding(c, s, t) then 1 else 0;
      if a.Finish? {
        FinishCopies(c, s, a.w, t);
      } else if Actor(a) == ProducerThread {
        ProducerCopies(c, s, a, t);
      } else {
        WorkerCopies(c, s, a, t);
      }
    }
  }

  /** Nothing refers to a day before the producer has begun it. */
  lemma FreshDay(c: Config, s: State)
    requires Inv(c, s) && s.producer.Scanning?
    ensures s.producer.date !in LiveDays(s)
  {
    forall t | t in s.queue ensures t.day < s.producer.date {
      QueuedIsOutstanding(c, s, t);
    }
    forall w | 0 <= w < c.workers && !s.workers[w].Idle? ensures s.workers[w].task.day < s.producer.date {
      if Carrying(s.workers[w]) {
        CarriedIsOutstanding(c, s, w);
      }
    }
  }

  lemma ProducerMemory(c: Config, s: State, a: Action)
    requires MemoryInv(s) && Enabled(c, s, a) && Actor(a) == ProducerThread
    requires a.BeginDay? ==> s.producer.date !in LiveDays(s)
    ensures MemoryInv(Step(c, s, a))
  {
    var s' := Step(c, s, a);
    match a
    case SkipWeekend => assert LiveDays(s') == LiveDays(s);
    case BeginDay => assert LiveDays(s') == LiveDays(s) + {s.producer.date};
    case PostTask =>
      var t := Task(s.producer.next, s.producer.date);
      assert forall x :: x in s'.queue <==> x in s.queue || x == t;
      assert LiveDays(s') == LiveDays(s);
    case EndDay =>
      assert LiveDays(s') == if s.producer.date in LiveDays(s') then LiveDays(s) else LiveDays(s) - {s.producer.date};
  }

  lemma WorkerMemory(c: Config, s: State, a: Action)
    requires Shape(c, s) && MemoryInv(s) && Enabled(c, s, a) && Actor(a).WorkerThread?
    ensures MemoryInv(Step(c, s, a))
  {
    if a.Release? {
      ReleaseDrops(s, a.w);
    } else {
      WorkerMoves(s, Step(c, s, a), a.w);
    }
  }

  /** Every step of every thread keeps the invariant. */
  lemma StepKeepsInv(c: Config, s: State, a: Action)
    requires Inv(c, s) && Enabled(c, s, a)
    ensures Inv(c, Step(c, s, a))
  {
    StepHistory(c, s, a);
    StepWorkers(c, s, a);
    StepFlight(c, s, a);
    if Actor(a) == ProducerThread {
      if a.BeginDay? {
        FreshDay(c, s);
      }
      ProducerMemory(c, s, a);
    } else {
      WorkerMemory(c, s, a);
    }
  }

  lemma InitInv(c: Config)
    ensures Inv(c, Init(c))
  {
    var s := Init(c);
    InitialTotal(c.workers, CarryingWeight());
    InitialUnfinished(c.instances, c.start - 1, c.end);
    forall t ensures Copies(s, t) == 0 && !Outstanding(c, s, t) {
      InitialTotal(c.workers, TaskWeight(t));
    }
    assert LiveDays(s) == {};
  }

  /** Passing a task between the queue and a worker moves its reference along. */
  lemma WorkerMoves(s: State, s': State, w: nat)
    requires w < |s.workers| == |s'.workers| && s'.workers == s.workers[w := s'.workers[w]] && s'.producer == s.producer
    requires
      || (s.workers[w].Idle? && s.queue != [] && !s'.workers[w].Idle?
          && s'.workers[w].task == s.queue[0] && s'.queue == s.queue[1..])
      || (!s.workers[w].Idle? && !s'.workers[w].Idle? && s'.workers[w].task == s.workers[w].task
          && (s'.queue == s.queue || s'.queue == s.queue + [s.workers[w].task]))
    ensures LiveDays(s') == LiveDays(s)
  {
    WorkerDayLive(s', w);
    WorkerDayLive(s, w);
    assert forall v :: 0 <= v < |s.workers| && v != w ==> s'.workers[v] == s.workers[v];
    LiveSubset(s, LiveDays(s'));
    LiveSubset(s', LiveDays(s));
  }

  lemma WorkerDayLive(s: State, w: nat)
    requires w < |s.workers|
    ensures !s.workers[w].Idle? ==> s.workers[w].task.day in LiveDays(s)
    ensures forall v :: 0 <= v < |s.workers| && !s.workers[v].Idle? ==> s.workers[v].task.day in LiveDays(s)
    ensures forall t :: t in s.queue ==> t.day in LiveDays(s)
  {
    forall v | 0 <= v < |s.workers| && !s.workers[v].Idle? ensures s.workers[v].task.day in LiveDays(s) {
      assert s.workers[v] in s.workers;
    }
  }

  lemma LiveSubset(s: State, days: set<int>)
    requires forall v :: 0 <= v < |s.workers| && !s.workers[v].Idle? ==> s.workers[v].task.day in days
    requires forall t :: t in s.queue ==> t.day in days
    requires s.producer.Posting? ==> s.producer.date in days
    ensures LiveDays(s) <= days
  {
  }

  /** After a release the live days are the old ones, without the released day if nothing else refers to it. */
  lemma ReleaseDrops(s: State, w: nat)
    requires w < |s.workers| && !s.workers[w].Idle?
    ensures var s' := s.(workers := s.workers[w := Idle]); var day := s.workers[w].task.day;
      day in LiveDays(s) && LiveDays(s') == if day in LiveDays(s') then LiveDays(s) else LiveDays(s) - {day}
  {
    var s' := s.(workers := s.workers[w := Idle]);
    var day := s.workers[w].task.day;
    WorkerDayLive(s, w);
    WorkerDayLive(s', w);
    assert forall v :: 0 <= v < |s.workers| && v != w ==> s'.workers[v] == s.workers[v];
    LiveSubset(s, LiveDays(s') + {day});
    LiveSubset(s', LiveDays(s));
  }
}
