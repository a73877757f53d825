/** What holds of every run of the day scheduler: safety in every reachable state, and completion of every fair run. */
module SchedulerRuns {
  import opened Calendar
  import opened Scheduler

  // ---------- finite runs: safety ----------

  predicate IsRun(c: Config, s: State, actions: seq<Action>)
    decreases |actions|
  {
    actions == [] || (Enabled(c, s, actions[0]) && IsRun(c, Step(c, s, actions[0]), actions[1..]))
  }

  function After(c: Config, s: State, actions: seq<Action>): State
    requires IsRun(c, s, actions)
    decreases |actions|
  {
    if actions == [] then s else After(c, Step(c, s, actions[0]), actions[1..])
  }

  lemma {:induction false} RunKeepsInv(c: Config, s: State, actions: seq<Action>)
    requires Inv(c, s) && IsRun(c, s, actions)
    ensures Inv(c, After(c, s, actions))
    decreases |actions|
  {
    if actions != [] {
      StepKeepsInv(c, s, actions[0]);
      RunKeepsInv(c, Step(c, s, actions[0]), actions[1..]);
    }
  }

  /** In every interleaving, no instance has two days running at once. */
  lemma MutualExclusion(c: Config, actions: seq<Action>, v: nat, w: nat)
    requires IsRun(c, Init(c), actions)
    requires var s := After(c, Init(c), actions);
      v < |s.workers| && w < |s.workers| && v != w && s.workers[v].Replaying? && s.workers[w].Replaying?
    ensures var s := After(c, Init(c), actions); s.workers[v].task.inst != s.workers[w].task.inst
  {
    var s := After(c, Init(c), actions);
    InitInv(c);
    RunKeepsInv(c, Init(c), actions);
    if s.workers[v].task.inst == s.workers[w].task.inst {
      CarriersDiffer(c, s, v, w);
    }
  }

  /** Each instance has replayed a prefix of the working days of [start, end), each day once and in order;
      a day being replayed is the next one of that list. */
  lemma ReplayOrder(c: Config, actions: seq<Action>)
    requires IsRun(c, Init(c), actions)
    ensures var s := After(c, Init(c), actions); var all := Weekdays(c.start, c.end);
      && |s.log| == c.instances
      && (forall i :: 0 <= i < c.instances ==> s.log[i] <= all)
      && (forall w :: 0 <= w < |s.workers| && s.workers[w].Replaying? ==>
            var t := s.workers[w].task;
            t.inst < c.instances && |s.log[t.inst]| < |all| && t.day == all[|s.log[t.inst]|])
  {
    hide HistoryInv, FlightInv, WorkerInv, MemoryInv, Weekdays, Init;
    var s := After(c, Init(c), actions);
    var all := Weekdays(c.start, c.end);
    InitInv(c);
    RunKeepsInv(c, Init(c), actions);
    forall i | 0 <= i < c.instances ensures s.log[i] <= all {
      LogIsPrefix(c, s, i);
    }
    forall w | 0 <= w < |s.workers| && s.workers[w].Replaying?
      ensures var t := s.workers[w].task;
        t.inst < c.instances && |s.log[t.inst]| < |all| && t.day == all[|s.log[t.inst]|]
    {
      ReplayedIsNext(c, s, w);
    }
  }

  lemma ReplayedIsNext(c: Config, s: State, w: nat)
    requires Inv(c, s) && w < |s.workers| && s.workers[w].Replaying?
    ensures var t := s.workers[w].task; var all := Weekdays(c.start, c.end);
      t.inst < c.instances && |s.log[t.inst]| < |all| && t.day == all[|s.log[t.inst]|]
  {
    hide FlightInv, WorkerInv, MemoryInv, NextWorkingDay, Weekdays, CountWeekdays;
    var t := s.workers[w].task;
    assert t.inst < c.instances by {
      CarriedIsOutstanding(c, s, w);
    }
    FinishedDay(c, s, w);
    WeekdaysSplit(c.start, t.day + 1, c.end);
    assert s.log[t.inst] == Weekdays(c.start, s.current[t.inst] + 1);
  }

  lemma LogIsPrefix(c: Config, s: State, i: nat)
    requires Inv(c, s) && i < c.instances
    ensures s.log[i] + Weekdays(s.current[i] + 1, c.end) == Weekdays(c.start, c.end)
  {
    hide FlightInv, WorkerInv, MemoryInv, NextWorkingDay;
    if s.current[i] + 1 <= c.end {
      WeekdaysSplit(c.start, s.current[i] + 1, c.end);
    }
  }

  /** The counter is the number of live replayers, which never exceeds the cap; it returns to 0 when
      nothing is in flight, so no replayer is leaked or freed twice. */
  lemma MemoryCap(c: Config, actions: seq<Action>)
    requires IsRun(c, Init(c), actions)
    ensures var s := After(c, Init(c), actions);
      && s.inMemory == |LiveDays(s)| <= 15
      && (s.queue == [] && (forall worker :: worker in s.workers ==> worker.Idle?) && s.producer.Scanning?
          ==> s.inMemory == 0)
  {
    InitInv(c);
    RunKeepsInv(c, Init(c), actions);
  }

  /** The producer waits before a working day exactly while 15 days are in memory. */
  lemma ProducerWaitsIff(c: Config, actions: seq<Action>)
    requires IsRun(c, Init(c), actions)
    ensures var s := After(c, Init(c), actions);
      s.producer.Scanning? && s.producer.date < c.end && !IsWeekend(s.producer.date) ==>
        (Enabled(c, s, BeginDay) <==> |LiveDays(s)| != 15)
  {
    hide Init, LiveDays;
    MemoryCap(c, actions);
  }

  /** The entries of a schedule that are enabled when their turn comes. */
  function Carried(c: Config, s: State, schedule: seq<Action>): seq<Action>
    decreases |schedule|
  {
    if schedule == [] then []
    else if Enabled(c, s, schedule[0]) then [schedule[0]] + Carried(c, Step(c, s, schedule[0]), schedule[1..])
    else Carried(c, s, schedule[1..])
  }

  /** A schedule that is a run is carried out entry by entry. */
  lemma {:induction false} RunIsCarried(c: Config, s: State, schedule: seq<Action>)
    ensures IsRun(c, s, Carried(c, s, schedule))
    ensures IsRun(c, s, schedule) ==> Carried(c, s, schedule) == schedule
    decreases |schedule|
  {
    hide Enabled, Step;
    if schedule != [] {
      if Enabled(c, s, schedule[0]) {
        var rest := Carried(c, Step(c, s, schedule[0]), schedule[1..]);
        RunIsCarried(c, Step(c, s, schedule[0]), schedule[1..]);
        assert ([schedule[0]] + rest)[1..] == rest;
      } else {
        RunIsCarried(c, s, schedule[1..]);
      }
    }
  }

  // ---------- progress: the lead task ----------

  /** An instance that is furthest behind. */
  function Lead(current: seq<int>): (i: nat)
    requires current != []
    ensures i < |current|
  {
    if |current| == 1 then 0
    else var j := 1 + Lead(current[1..]); if current[j] < current[0] then j else 0
  }

  lemma {:induction false} LeadIsLeast(current: seq<int>)
    requires current != []
    ensures forall i :: 0 <= i < |current| ==> current[Lead(current)] <= current[i]
  {
    if |current| > 1 {
      LeadIsLeast(current[1..]);
      assert forall i :: 1 <= i < |current| ==> current[i] == current[1..][i - 1];
    }
  }

  function LeadTask(s: State): Task
    requires s.current != []
  {
    var i := Lead(s.current);
    Task(i, NextWorkingDay(s.current[i]))
  }

  lemma NextMonotone(d: int, e: int)
    requires d <= e
    ensures NextWorkingDay(d) <= NextWorkingDay(e)
  {
    FirstWorkingDay(d);
    FirstWorkingDay(e);
  }

  lemma {:induction false} SomeUnfinished(current: seq<int>, end: int) returns (i: nat)
    requires Unfinished(current, end) > 0
    ensures i < |current| && NextWorkingDay(current[i]) < end
  {
    NextConsumesOne(current[0], end);
    if CountWeekdays(current[0] + 1, end) > 0 {
      i := 0;
    } else {
      i := SomeUnfinished(current[1..], end);
      i := i + 1;
    }
  }

  /** The lead task: unfinished, a working day of the range, and no outstanding task has an earlier day. */
  lemma LeadTaskFacts(c: Config, s: State)
    requires Inv(c, s) && Unfinished(s.current, c.end) > 0
    ensures s.current != []
    ensures var t := LeadTask(s);
      && t.inst < c.instances && c.start <= t.day < c.end && !IsWeekend(t.day) && t.day > s.current[t.inst]
      && (Posted(c, s, t) <==> Outstanding(c, s, t))
      && (!Posted(c, s, t) ==> s.producer.date <= t.day)
    ensures forall u :: Outstanding(c, s, u) ==> LeadTask(s).day <= u.day
  {
    var i := SomeUnfinished(s.current, c.end);
    var t := LeadTask(s);
    LeadIsLeast(s.current);
    NextMonotone(s.current[t.inst], s.current[i]);
    FirstWorkingDay(s.current[t.inst]);
    assert s.current[t.inst] == c.start - 1 || Posted(c, s, Task(t.inst, s.current[t.inst]));
    forall u | Outstanding(c, s, u) ensures t.day <= u.day {
      FirstWorkingDay(s.current[u.inst]);
      NextMonotone(s.current[t.inst], s.current[u.inst]);
    }
  }

  // ---------- progress: where the lead task is ----------

  function Index(queue: seq<Task>, t: Task): nat {
    if queue == [] || queue[0] == t then 0 else 1 + Index(queue[1..], t)
  }

  lemma {:induction false} IndexFacts(queue: seq<Task>, t: Task, x: Task)
    requires t in queue
    ensures Index(queue, t) < |queue|
    ensures Index(queue + [x], t) == Index(queue, t)
    ensures queue[0] != t ==> t in queue[1..] && Index(queue, t) == 1 + Index(queue[1..], t)
  {
    if queue[0] != t {
      IndexFacts(queue[1..], t, x);
      assert (queue + [x])[1..] == queue[1..] + [x];
    }
  }

  lemma {:induction false} IndexAtEnd(queue: seq<Task>, t: Task)
    ensures Index(queue + [t], t) <= |queue|
  {
    if queue != [] {
      IndexAtEnd(queue[1..], t);
      assert (queue + [t])[1..] == queue[1..] + [t];
    }
  }

  predicate Holds(worker: Worker, t: Task) {
    Carrying(worker) && worker.task == t
  }

  function Holder(workers: seq<Worker>, t: Task): nat {
    if workers == [] || Holds(workers[0], t) then 0 else 1 + Holder(workers[1..], t)
  }

  lemma {:induction false} HolderFound(workers: seq<Worker>, t: Task)
    requires Total(workers, TaskWeight(t)) > 0
    ensures Holder(workers, t) < |workers| && Holds(workers[Holder(workers, t)], t)
  {
    if !Holds(workers[0], t) {
      HolderFound(workers[1..], t);
    }
  }

  /** An outstanding task is in exactly one place. */
  lemma OnePlace(c: Config, s: State, t: Task)
    requires Shape(c, s) && FlightInv(c, s) && Outstanding(c, s, t)
    ensures t !in s.queue ==> Holder(s.workers, t) < c.workers && Holds(s.workers[Holder(s.workers, t)], t)
    ensures forall w :: 0 <= w < c.workers && Holds(s.workers[w], t) ==> t !in s.queue && w == Holder(s.workers, t)
  {
    assert Copies(s, t) == 1;
    if t !in s.queue {
      HolderFound(s.workers, t);
    }
    forall w | 0 <= w < c.workers && Holds(s.workers[w], t) ensures t !in s.queue && w == Holder(s.workers, t) {
      TotalUpdate(s.workers, w, Idle, TaskWeight(t));
      HolderFound(s.workers, t);
      if w != Holder(s.workers, t) {
        CarriersDiffer(c, s, w, Holder(s.workers, t));
      }
    }
  }

  function FirstReleasing(workers: seq<Worker>): nat {
    if workers == [] || workers[0].Releasing? then 0 else 1 + FirstReleasing(workers[1..])
  }

  lemma {:induction false} FirstReleasingFound(workers: seq<Worker>, w: nat)
    requires w < |workers| && workers[w].Releasing?
    ensures FirstReleasing(workers) < |workers| && workers[FirstReleasing(workers)].Releasing?
  {
    if !workers[0].Releasing? {
      FirstReleasingFound(workers[1..], w - 1);
    }
  }

  // ---------- progress: a rank that no step raises ----------

  function ReleasingWeight(): Worker -> nat {
    (worker: Worker) => if worker.Releasing? then 1 else 0
  }

  /** Steps a worker needs to become idle, when it does not finish a day. */
  function Busyness(): Worker -> nat {
    (worker: Worker) => if worker.Idle? then 0 else if worker.Checking? then 3 else if worker.Reposting? then 2 else 1
  }

  lemma {:induction false} BusynessBound(workers: seq<Worker>)
    ensures Total(workers, Busyness()) <= 3 * |workers|
  {
    if workers != [] {
      BusynessBound(workers[1..]);
    }
  }

  /** More than the producer's steps for one date and the releases that may follow them. */
  function Width(c: Config): nat {
    c.instances + c.workers + 2
  }

  /** Producer steps until it has posted `day` for every instance, with room for the releases in between. */
  function ProducerDistance(c: Config, p: Producer, day: int): int {
    match p
    case Scanning(date) => (day - date) * Width(c) + c.instances + 2
    case Posting(date, next) => (day - date) * Width(c) + c.instances + 1 - next
  }

  function Rank(c: Config, s: State): int
    requires s.current != []
  {
    var t := LeadTask(s);
    var top := 4 * Unfinished(s.current, c.end) + 3 * |s.workers|;
    if !Posted(c, s, t) then
      top + 20 + ProducerDistance(c, s.producer, t.day)
      + if s.producer.Scanning? then Total(s.workers, ReleasingWeight()) else 0
    else if t in s.queue then
      4 * Index(s.queue, t) + Total(s.workers, Busyness()) + 3
    else
      var w := Holder(s.workers, t);
      if w < |s.workers| && s.workers[w].Reposting? then top + 10
      else if w < |s.workers| && s.workers[w].Checking? then 2
      else 1
  }

  /** The thread whose next step lowers the rank or finishes a day. */
  function Helper(c: Config, s: State): Process
    requires s.current != []
  {
    var t := LeadTask(s);
    if !Posted(c, s, t) then
      if s.producer.Scanning? && !IsWeekend(s.producer.date) && s.inMemory >= MAX_DAY_IN_MEMORY
      then WorkerThread(FirstReleasing(s.workers)) else ProducerThread
    else if t in s.queue then WorkerThread(0)
    else WorkerThread(Holder(s.workers, t))
  }

  ghost predicate CanMove(c: Config, s: State, p: Process) {
    exists a :: Actor(a) == p && Enabled(c, s, a)
  }

  ghost predicate Progressing(c: Config, s: State) {
    Inv(c, s) && Unfinished(s.current, c.end) > 0 && c.workers > 0
  }

  lemma {:induction false} UnpostedNonNegative(c: Config, s: State)
    requires Shape(c, s)
    ensures Unposted(c, s) >= 0
  {
  }

  lemma QueueBound(c: Config, s: State)
    requires Inv(c, s)
    ensures |s.queue| <= Unfinished(s.current, c.end)
  {
    UnpostedNonNegative(c, s);
  }

  lemma DistanceNonNegative(c: Config, s: State, day: int)
    requires Shape(c, s) && s.producer.date <= day
    ensures ProducerDistance(c, s.producer, day) >= 1
  {
    assert (day - s.producer.date) * Width(c) >= 0;
  }

  lemma RankPositive(c: Config, s: State)
    requires Progressing(c, s)
    ensures s.current != [] && Rank(c, s) >= 1
  {
    LeadTaskFacts(c, s);
    if !Posted(c, s, LeadTask(s)) {
      DistanceNonNegative(c, s, LeadTask(s).day);
    }
  }

  /** While the lead task waits for the producer, a full memory is held only by workers about to release it. */
  lemma BlockedByReleasing(c: Config, s: State)
    requires Progressing(c, s) && s.producer.Scanning? && s.inMemory >= MAX_DAY_IN_MEMORY
    requires s.current != [] && !Posted(c, s, LeadTask(s))
    ensures FirstReleasing(s.workers) < |s.workers| && s.workers[FirstReleasing(s.workers)].Releasing?
  {
    hide HistoryInv, FlightInv, WorkerInv, NextWorkingDay, CountWeekdays, Unfinished;
    LeadTaskFacts(c, s);
    assert LiveDays(s) != {};
    if t :| t in s.queue {
      QueuedIsOutstanding(c, s, t);
    }
    var worker :| worker in s.workers && !worker.Idle?;
    var w :| 0 <= w < |s.workers| && s.workers[w] == worker;
    if Carrying(worker) {
      CarriedIsOutstanding(c, s, w);
    }
    FirstReleasingFound(s.workers, w);
  }

  /** Deadlock freedom: with work left, the helper can move. */
  lemma HelperCanMove(c: Config, s: State)
    requires Progressing(c, s)
    ensures s.current != [] && CanMove(c, s, Helper(c, s))
  {
    LeadTaskFacts(c, s);
    var t := LeadTask(s);
    if !Posted(c, s, t) {
      if Helper(c, s) == ProducerThread {
        ProducerCanMove(c, s);
      } else {
        BlockedByReleasing(c, s);
        assert Enabled(c, s, Release(FirstReleasing(s.workers)));
      }
    } else {
      OnePlace(c, s, t);
      WorkerCanMove(c, s, Helper(c, s).w);
    }
  }

  lemma WorkLeft(c: Config, s: State, i: nat)
    requires Inv(c, s) && i < c.instances && s.log[i] != Weekdays(c.start, c.end)
    ensures Unfinished(s.current, c.end) > 0
  {
    LogIsPrefix(c, s, i);
    if Unfinished(s.current, c.end) == 0 {
      NothingLeft(s.current, c.end, i);
    }
  }

  /** In every reachable state with work left, some thread can move. */
  lemma DeadlockFree(c: Config, actions: seq<Action>, i: nat)
    requires IsRun(c, Init(c), actions) && c.workers > 0 && i < c.instances
    requires var s := After(c, Init(c), actions); i < |s.log| && s.log[i] != Weekdays(c.start, c.end)
    ensures exists a :: Enabled(c, After(c, Init(c), actions), a)
  {
    InitInv(c);
    RunKeepsInv(c, Init(c), actions);
    WorkLeft(c, After(c, Init(c), actions), i);
    HelperCanMove(c, After(c, Init(c), actions));
  }

  /** A run that can go no further has replayed everything. */
  lemma StuckIsComplete(c: Config, actions: seq<Action>)
    requires IsRun(c, Init(c), actions) && c.workers > 0
    requires forall a :: !Enabled(c, After(c, Init(c), actions), a)
    ensures Complete(c, After(c, Init(c), actions))
  {
    hide Init, Weekdays;
    ReplayOrder(c, actions);
    forall i | 0 <= i < c.instances ensures After(c, Init(c), actions).log[i] == Weekdays(c.start, c.end) {
      if After(c, Init(c), actions).log[i] != Weekdays(c.start, c.end) {
        DeadlockFree(c, actions, i);
      }
    }
  }

  /** A run goes on with any step that is enabled at its end. */
  lemma {:induction false} RunGoesOn(c: Config, s: State, actions: seq<Action>, a: Action)
    requires IsRun(c, s, actions) && Enabled(c, After(c, s, actions), a)
    ensures IsRun(c, s, actions + [a]) && After(c, s, actions + [a]) == Step(c, After(c, s, actions), a)
    decreases |actions|
  {
    if actions == [] {
      assert actions + [a] == [a];
    } else {
      assert (actions + [a])[1..] == actions[1..] + [a];
      RunGoesOn(c, Step(c, s, actions[0]), actions[1..], a);
    }
  }

  lemma ProducerCanMove(c: Config, s: State)
    requires Shape(c, s) && s.producer.date < c.end
    requires s.producer.Posting? || IsWeekend(s.producer.date) || s.inMemory < MAX_DAY_IN_MEMORY
    ensures CanMove(c, s, ProducerThread)
  {
    var a := if s.producer.Posting? then if s.producer.next < c.instances then PostTask else EndDay
             else if IsWeekend(s.producer.date) then SkipWeekend else BeginDay;
    assert Enabled(c, s, a) && Actor(a) == ProducerThread;
  }

  lemma WorkerCanMove(c: Config, s: State, w: nat)
    requires Inv(c, s) && w < c.workers && (s.workers[w].Idle? ==> s.queue != [])
    ensures CanMove(c, s, WorkerThread(w))
  {
    if Carrying(s.workers[w]) {
      CarriedIsOutstanding(c, s, w);
    }
    var a := match s.workers[w]
             case Idle => Pick(w)
             case Checking(_) => Check(w)
             case Replaying(_) => Finish(w)
             case Reposting(_) => Repost(w)
             case Releasing(_) => Release(w);
    assert Enabled(c, s, a) && Actor(a) == WorkerThread(w);
  }

  // ---------- progress: how one step moves the rank ----------

  /** A step that finishes no day never raises the rank, keeps the helper unless it lowers the rank,
      and lowers the rank when the helper takes it. */
  ghost predicate RankMoves(c: Config, s: State, a: Action)
    requires Enabled(c, s, a) && s.current != []
  {
    var s' := Step(c, s, a);
    && s'.current != []
    && Rank(c, s') <= Rank(c, s)
    && (Rank(c, s') == Rank(c, s) ==> Helper(c, s') == Helper(c, s) && Actor(a) != Helper(c, s))
  }

  /** A producer step shortens the distance; one that goes back to scanning by more than the number of workers. */
  lemma DistanceStep(c: Config, s: State, a: Action, day: int)
    requires Enabled(c, s, a) && (s.producer.Posting? ==> s.producer.next <= c.instances)
    ensures var before, after := ProducerDistance(c, s.producer, day), ProducerDistance(c, Step(c, s, a).producer, day);
      if Actor(a) != ProducerThread then Step(c, s, a).producer == s.producer
      else if a.EndDay? then after < before - c.workers else after < before
  {
    if a.SkipWeekend? || a.EndDay? {
      var gap := day - s.producer.date;
      assert (gap - 1) * Width(c) == gap * Width(c) - Width(c);
    }
  }

  lemma {:induction false} ReleasingBound(workers: seq<Worker>)
    ensures Total(workers, ReleasingWeight()) <= |workers|
  {
    if workers != [] {
      ReleasingBound(workers[1..]);
    }
  }

  /** While the producer scans for the day of the lead task, only releases and its own steps are left. */
  lemma OnlyReleases(c: Config, s: State, a: Action)
    requires Progressing(c, s) && s.producer.Scanning? && s.current != [] && !Posted(c, s, LeadTask(s))
    requires Enabled(c, s, a)
    ensures Actor(a) == ProducerThread || a.Release?
  {
    hide HistoryInv, FlightInv, WorkerInv, MemoryInv, NextWorkingDay, CountWeekdays, Unfinished, LiveDays;
    LeadTaskFacts(c, s);
    if a.Pick? {
      QueuedIsOutstanding(c, s, s.queue[0]);
    } else if a.Check? || a.Repost? || a.Finish? {
      CarriedIsOutstanding(c, s, a.w);
    }
  }

  lemma ReleasingStep(c: Config, s: State, a: Action)
    requires Enabled(c, s, a) && (Actor(a) == ProducerThread || a.Release?)
    ensures Total(Step(c, s, a).workers, ReleasingWeight())
         == Total(s.workers, ReleasingWeight()) - if a.Release? then 1 else 0
    ensures !a.Release? ==> Step(c, s, a).workers == s.workers
  {
    if a.Release? {
      TotalUpdate(s.workers, a.w, Idle, ReleasingWeight());
    }
  }

  lemma RankWhileUnposted(c: Config, s: State, a: Action)
    requires Enabled(c, s, a) && !a.Finish? && s.current != [] && |s.workers| == c.workers
    requires !Posted(c, s, LeadTask(s)) && !Posted(c, Step(c, s, a), LeadTask(s))
    requires Helper(c, s).WorkerThread? ==>
               Helper(c, s).w < |s.workers| && s.workers[Helper(c, s).w].Releasing?
    requires s.producer.Posting? ==> s.producer.next <= c.instances
    requires s.producer.Scanning? ==> Actor(a) == ProducerThread || a.Release?
    ensures RankMoves(c, s, a)
  {
    DistanceStep(c, s, a, LeadTask(s).day);
    if s.producer.Scanning? {
      ReleasingStep(c, s, a);
    }
    ReleasingBound(s.workers);
  }

  lemma RankWhenPosted(c: Config, s: State, a: Action)
    requires Progressing(c, s) && Enabled(c, s, a) && !a.Finish? && s.current != []
    requires !Posted(c, s, LeadTask(s)) && Posted(c, Step(c, s, a), LeadTask(s))
    ensures RankMoves(c, s, a)
  {
    LeadTaskFacts(c, s);
    var s' := Step(c, s, a);
    PostedStable(c, s, a, LeadTask(s));
    DistanceNonNegative(c, s, LeadTask(s).day);
    IndexAtEnd(s.queue, LeadTask(s));
    QueueBound(c, s);
    BusynessBound(s.workers);
  }

  lemma BusynessStep(c: Config, s: State, a: Action)
    requires Enabled(c, s, a) && Actor(a).WorkerThread? && !a.Finish?
    ensures Total(Step(c, s, a).workers, Busyness()) <= Total(s.workers, Busyness()) + if a.Pick? then 3 else -1
  {
    TotalUpdate(s.workers, a.w, Step(c, s, a).workers[a.w], Busyness());
  }

  /** The lead task moves up the queue, or leaves it into the picking worker's hands. */
  lemma PlaceStep(c: Config, s: State, a: Action, t: Task)
    requires Enabled(c, s, a) && !a.Finish? && t in s.queue
    ensures var s' := Step(c, s, a);
      if a.Pick? && s.queue[0] == t then Holds(s'.workers[a.w], t) && s'.workers[a.w].Checking?
      else t in s'.queue && Index(s'.queue, t) == Index(s.queue, t) - if a.Pick? then 1 else 0
  {
    match a
    case PostTask => IndexFacts(s.queue, t, Task(s.producer.next, s.producer.date));
    case Repost(w) => IndexFacts(s.queue, t, s.workers[w].task);
    case Pick(w) => IndexFacts(s.queue, t, t);
    case _ =>
  }

  lemma RankWhileQueued(c: Config, s: State, a: Action)
    requires Enabled(c, s, a) && !a.Finish? && s.current != []
    requires Posted(c, s, LeadTask(s)) && LeadTask(s) in s.queue && Posted(c, Step(c, s, a), LeadTask(s))
    requires var t := LeadTask(s); var s' := Step(c, s, a);
      forall w :: 0 <= w < |s'.workers| && Holds(s'.workers[w], t) ==> t !in s'.queue && w == Holder(s'.workers, t)
    ensures RankMoves(c, s, a)
  {
    PlaceStep(c, s, a, LeadTask(s));
    if Actor(a).WorkerThread? {
      BusynessStep(c, s, a);
    }
  }

  lemma RankWhileHeld(c: Config, s: State, a: Action)
    requires Enabled(c, s, a) && !a.Finish? && s.current != []
    requires Posted(c, s, LeadTask(s)) && LeadTask(s) !in s.queue && Posted(c, Step(c, s, a), LeadTask(s))
    requires |s.queue| <= Unfinished(s.current, c.end)
    requires var t := LeadTask(s); var h := Holder(s.workers, t); var s' := Step(c, s, a);
      && h < |s.workers| && Holds(s.workers[h], t)
      && (forall w :: 0 <= w < |s'.workers| && Holds(s'.workers[w], t) ==> t !in s'.queue && w == Holder(s'.workers, t))
    ensures RankMoves(c, s, a)
  {
    hide Posted, Unfinished, NextWorkingDay, LiveDays;
    var s' := Step(c, s, a);
    var t := LeadTask(s);
    var h := Holder(s.workers, t);
    if Actor(a) == WorkerThread(h) {
      if a.Repost? {
        IndexAtEnd(s.queue, t);
        BusynessBound(s'.workers);
      } else {
        assert a.Check? && Holds(s'.workers[h], t);
      }
    } else {
      assert Holds(s'.workers[h], t) && s'.workers[h] == s.workers[h];
    }
  }

  lemma StepRank(c: Config, s: State, a: Action)
    requires Progressing(c, s) && Enabled(c, s, a) && s.current != []
    ensures if a.Finish? then Unfinished(Step(c, s, a).current, c.end) < Unfinished(s.current, c.end)
            else Step(c, s, a).current == s.current && RankMoves(c, s, a)
  {
    if a.Finish? {
      FinishCountsOne(c, s, a.w);
    } else {
      LeadTaskFacts(c, s);
      var t := LeadTask(s);
      if !Posted(c, s, t) {
        if Posted(c, Step(c, s, a), t) {
          RankWhenPosted(c, s, a);
        } else {
          if Helper(c, s).WorkerThread? {
            BlockedByReleasing(c, s);
          }
          if s.producer.Scanning? {
            OnlyReleases(c, s, a);
          }
          RankWhileUnposted(c, s, a);
        }
      } else {
        RankWhileInPlay(c, s, a);
      }
    }
  }

  lemma RankWhileInPlay(c: Config, s: State, a: Action)
    requires Progressing(c, s) && Enabled(c, s, a) && !a.Finish? && s.current != []
    requires Posted(c, s, LeadTask(s))
    ensures RankMoves(c, s, a)
  {
    hide LeadTask, Posted, Enabled;
    LeadTaskFacts(c, s);
    PostedStable(c, s, a, LeadTask(s));
    OnePlace(c, s, LeadTask(s));
    StepKeepsInv(c, s, a);
    OnePlace(c, Step(c, s, a), LeadTask(s));
    QueueBound(c, s);
    if LeadTask(s) in s.queue {
      RankWhileQueued(c, s, a);
    } else {
      RankWhileHeld(c, s, a);
    }
  }

  // ---------- infinite runs: every fair run completes ----------

  datatype Move = Stutter | Do(a: Action)

  ghost predicate IsInfiniteRun(c: Config, states: nat -> State, moves: nat -> Move) {
    states(0) == Init(c) && forall n: nat :: Follows(c, states, moves, n)
  }

  ghost predicate Follows(c: Config, states: nat -> State, moves: nat -> Move, n: nat) {
    match moves(n)
    case Stutter => states(n + 1) == states(n)
    case Do(a) => Enabled(c, states(n), a) && states(n + 1) == Step(c, states(n), a)
  }

  ghost predicate Moves(moves: nat -> Move, m: nat, p: Process) {
    moves(m).Do? && Actor(moves(m).a) == p
  }

  ghost predicate ServedAfter(c: Config, states: nat -> State, moves: nat -> Move, p: Process, n: nat) {
    exists m: nat :: n <= m && (Moves(moves, m, p) || !CanMove(c, states(m), p))
  }

  /** Weak fairness: no thread stays able to move forever without moving. */
  ghost predicate IsFair(c: Config, states: nat -> State, moves: nat -> Move) {
    forall p: Process, n: nat :: ServedAfter(c, states, moves, p, n)
  }

  lemma {:induction false} InvAlong(c: Config, states: nat -> State, moves: nat -> Move, n: nat)
    requires IsInfiniteRun(c, states, moves)
    ensures Inv(c, states(n))
  {
    hide Inv, Enabled;
    if n == 0 {
      InitInv(c);
    } else {
      InvAlong(c, states, moves, n - 1);
      assert Follows(c, states, moves, n - 1);
      if moves(n - 1).Do? {
        StepKeepsInv(c, states(n - 1), moves(n - 1).a);
      }
    }
  }

  /** One position of an infinite run: a day finishes, or the rank moves as `RankMoves` says. */
  lemma RunStepRank(c: Config, states: nat -> State, moves: nat -> Move, j: nat)
    requires IsInfiniteRun(c, states, moves) && c.workers > 0
    requires states(j).current != [] && Unfinished(states(j).current, c.end) > 0
    ensures var s, s' := states(j), states(j + 1);
      || Unfinished(s'.current, c.end) < Unfinished(s.current, c.end)
      || (&& s'.current == s.current && Rank(c, s') <= Rank(c, s)
          && (Rank(c, s') == Rank(c, s) ==> Helper(c, s') == Helper(c, s) && !Moves(moves, j, Helper(c, s))))
    ensures CanMove(c, states(j), Helper(c, states(j))) && Rank(c, states(j)) >= 1
  {
    InvAlong(c, states, moves, j);
    HelperCanMove(c, states(j));
    RankPositive(c, states(j));
    assert Follows(c, states, moves, j);
    if moves(j).Do? {
      StepRank(c, states(j), moves(j).a);
    }
  }

  lemma {:induction false} SomeDayFinishes(c: Config, states: nat -> State, moves: nat -> Move, n: nat) returns (m: nat)
    requires IsInfiniteRun(c, states, moves) && IsFair(c, states, moves) && c.workers > 0
    requires states(n).current != [] && Unfinished(states(n).current, c.end) > 0
    ensures Unfinished(states(m).current, c.end) < Unfinished(states(n).current, c.end)
    decreases Rank(c, states(n))
  {
    var h := Helper(c, states(n));
    assert ServedAfter(c, states, moves, h, n);
    var stop: nat :| n <= stop && (Moves(moves, stop, h) || !CanMove(c, states(stop), h));
    var j := n;
    while true
      invariant n <= j <= stop && states(j).current == states(n).current
      invariant Rank(c, states(j)) == Rank(c, states(n)) && Helper(c, states(j)) == h
      decreases stop - j
    {
      RunStepRank(c, states, moves, j);
      if Unfinished(states(j + 1).current, c.end) < Unfinished(states(n).current, c.end) {
        return j + 1;
      }
      if Rank(c, states(j + 1)) < Rank(c, states(n)) {
        m := SomeDayFinishes(c, states, moves, j + 1);
        return;
      }
      j := j + 1;
    }
  }

  lemma {:induction false} AllDaysFinish(c: Config, states: nat -> State, moves: nat -> Move, n: nat) returns (m: nat)
    requires IsInfiniteRun(c, states, moves) && IsFair(c, states, moves) && c.workers > 0
    ensures Unfinished(states(m).current, c.end) == 0
    decreases Unfinished(states(n).current, c.end)
  {
    if Unfinished(states(n).current, c.end) == 0 {
      m := n;
    } else {
      m := SomeDayFinishes(c, states, moves, n);
      m := AllDaysFinish(c, states, moves, m);
    }
  }

  /** Every instance has replayed every working day of [start, end). */
  ghost predicate Complete(c: Config, s: State) {
    |s.log| == c.instances && forall i :: 0 <= i < c.instances ==> s.log[i] == Weekdays(c.start, c.end)
  }

  lemma {:induction false} NothingLeft(current: seq<int>, end: int, i: nat)
    requires i < |current| && Unfinished(current, end) == 0
    ensures Weekdays(current[i] + 1, end) == []
  {
    if i > 0 {
      NothingLeft(current[1..], end, i - 1);
    }
  }

  /** With at least one worker, every fair run reaches a state in which all the work is done:
      the 15-day cap can neither deadlock the pool nor starve an instance. */
  lemma EveryFairRunCompletes(c: Config, states: nat -> State, moves: nat -> Move)
    requires IsInfiniteRun(c, states, moves) && IsFair(c, states, moves) && c.workers > 0
    ensures exists n: nat :: Complete(c, states(n))
  {
    hide HistoryInv, FlightInv, WorkerInv, MemoryInv, Weekdays, Unfinished, IsInfiniteRun, IsFair;
    var n := AllDaysFinish(c, states, moves, 0);
    InvAlong(c, states, moves, n);
    var s := states(n);
    forall i | 0 <= i < c.instances ensures s.log[i] == Weekdays(c.start, c.end) {
      NothingLeft(s.current, c.end, i);
      LogIsPrefix(c, s, i);
    }
    assert Complete(c, states(n));
  }
}
