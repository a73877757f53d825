/** The back-test fixture's shared fields, and the code each of its threads runs between two scheduling points.
    Every method is one step of the transition system. */
module TestFixtures {
  import opened Calendar
  import opened Scheduler
  import opened SchedulerRuns

  class TestFixture {
    const config: Config
    var io: seq<Task>              // the io_service queue
    var workers: seq<Worker>
    var current: seq<int>          // *inst.current_date, one cell per instance
    var producer: Producer
    var dayInMemoryCount: int
    var log: seq<seq<int>>         // the dates each instance's logger has recorded

    function View(): State
      reads this
    {
      State(io, workers, current, producer, dayInMemoryCount, log)
    }

    constructor (config: Config)
      ensures this.config == config && View() == Init(config)
    {
      this.config := config;
      io, dayInMemoryCount := [], 0;
      workers := seq(config.workers, _ => Idle);
      current := seq(config.instances, _ => config.start - 1);
      producer := Scanning(config.start);
      log := seq(config.instances, _ => []);
    }

    /** One turn of the date loop: skip a weekend day, or, below the cap, enter processOneDay. */
    method ScanDate() returns (progress: bool)
      requires producer.Scanning?
      modifies this
      ensures progress == (Enabled(config, old(View()), SkipWeekend) || Enabled(config, old(View()), BeginDay))
      ensures View() == if Enabled(config, old(View()), SkipWeekend) then Step(config, old(View()), SkipWeekend)
                        else if Enabled(config, old(View()), BeginDay) then Step(config, old(View()), BeginDay)
                        else old(View())
    {
      var date := producer.date;
      progress := false;
      if date < config.end {
        if DayOfWeek(date) == SUNDAY || DayOfWeek(date) == SATURDAY {
          producer := Scanning(date + 1);
          progress := true;
        } else if !(dayInMemoryCount >= MAX_DAY_IN_MEMORY) {
          dayInMemoryCount := dayInMemoryCount + 1;
          producer := Posting(date, 0);
          progress := true;
        }
      }
    }

    /** One turn of processOneDay's posting loop, or its return, which drops the local reference. */
    method PostNext()
      requires producer.Posting?
      modifies this
      ensures View() == Step(config, old(View()), if old(producer).next < config.instances then PostTask else EndDay)
    {
      var date, next := producer.date, producer.next;
      if next < config.instances {
        io := io + [Task(next, date)];
        producer := Posting(date, next + 1);
      } else {
        producer := Scanning(date + 1);
        DropReference(date);
      }
    }

    /** The shared pointer's deleter runs when no reference to the day is left. */
    method DropReference(day: int)
      modifies this`dayInMemoryCount
      ensures View() == Drop(old(View()), day)
    {
      if day !in LiveDays(View()) {
        dayInMemoryCount := dayInMemoryCount - 1;
      }
    }

    method TakeTask(w: nat)
      requires Enabled(config, View(), Pick(w))
      modifies this
      ensures View() == Step(config, old(View()), Pick(w))
    {
      workers := workers[w := Checking(io[0])];
      io := io[1..];
    }

    /** The guard of runDataOnDay. */
    method CheckDate(w: nat)
      requires Enabled(config, View(), Check(w))
      modifies this
      ensures View() == Step(config, old(View()), Check(w))
    {
      var task := workers[w].task;
      var targetDate := GetNextWorkingDay(current[task.inst]);
      if targetDate == task.day {
        workers := workers[w := Replaying(task)];
      } else {
        workers := workers[w := Reposting(task)];
      }
    }

    /** The task goes to the end of the queue; the worker's own reference lasts until it returns. */
    method PostAgain(w: nat)
      requires Enabled(config, View(), Repost(w))
      modifies this
      ensures View() == Step(config, old(View()), Repost(w))
    {
      io := io + [workers[w].task];
      workers := workers[w := Releasing(workers[w].task)];
    }

    /** The end of StartReplay, followed by the write of current_date. */
    method FinishDay(w: nat)
      requires Enabled(config, View(), Finish(w))
      modifies this
      ensures View() == Step(config, old(View()), Finish(w))
    {
      var task := workers[w].task;
      log := log[task.inst := log[task.inst] + [task.day]];
      current := current[task.inst := task.day];
      workers := workers[w := Releasing(task)];
    }

    method ReturnFromTask(w: nat)
      requires Enabled(config, View(), Release(w))
      modifies this
      ensures View() == Step(config, old(View()), Release(w))
    {
      var day := workers[w].task.day;
      workers := workers[w := Idle];
      DropReference(day);
    }

    /** One step of the thread a schedule names. */
    method Perform(a: Action)
      requires Enabled(config, View(), a)
      modifies this
      ensures View() == Step(config, old(View()), a)
    {
      match a
      case SkipWeekend => var _ := ScanDate();
      case BeginDay => var _ := ScanDate();
      case PostTask => PostNext();
      case EndDay => PostNext();
      case Pick(w) => TakeTask(w);
      case Check(w) => CheckDate(w);
      case Repost(w) => PostAgain(w);
      case Finish(w) => FinishDay(w);
      case Release(w) => ReturnFromTask(w);
    }

    /** A new fixture driven through any schedule: an entry that is not enabled when its turn comes is passed over, the
        others are carried out in turn.  Every instance has replayed working days of [start, end) in order, never two
        at once, under the cap, and if nothing is enabled any more, all of them. */
    method Run(schedule: seq<Action>)
      requires View() == Init(config)
      modifies this
      ensures var done := Carried(config, Init(config), schedule);
        IsRun(config, Init(config), done) && View() == After(config, Init(config), done)
      ensures IsRun(config, Init(config), schedule) ==> View() == After(config, Init(config), schedule)
      ensures |log| == config.instances && forall i :: 0 <= i < |log| ==> log[i] <= Weekdays(config.start, config.end)
      ensures forall v, w :: 0 <= v < w < |workers| && workers[v].Replaying? && workers[w].Replaying? ==>
        workers[v].task.inst != workers[w].task.inst
      ensures dayInMemoryCount == |LiveDays(View())| <= 15
      ensures config.workers > 0 && (forall a :: !Enabled(config, View(), a)) ==> Complete(config, View())
    {
      hide Init, Step, Enabled, LiveDays, Weekdays;
      ghost var done: seq<Action> := [];
      for k := 0 to |schedule|
        invariant IsRun(config, Init(config), done) && View() == After(config, Init(config), done)
        invariant done + Carried(config, View(), schedule[k..]) == Carried(config, Init(config), schedule)
      {
        CarriedNext(config, View(), schedule, k, done);
        if Enabled(config, View(), schedule[k]) {
          RunGoesOn(config, Init(config), done, schedule[k]);
          Perform(schedule[k]);
          done := done + [schedule[k]];
        }
      }
      assert done + Carried(config, View(), schedule[|schedule|..]) == done;
      RunIsCarried(config, Init(config), schedule);
      RunIsSafe(config, done);
      if config.workers > 0 && forall a :: !Enabled(config, View(), a) {
        StuckIsComplete(config, done);
      }
    }
  }

  lemma CarriedNext(c: Config, s: State, schedule: seq<Action>, k: nat, done: seq<Action>)
    requires k < |schedule|
    ensures var a, rest := schedule[k], schedule[k + 1..];
      done + Carried(c, s, schedule[k..])
      == if Enabled(c, s, a) then (done + [a]) + Carried(c, Step(c, s, a), rest) else done + Carried(c, s, rest)
  {
    hide Enabled, Step;
    assert schedule[k..][1..] == schedule[k + 1..];
  }

  lemma RunIsSafe(c: Config, actions: seq<Action>)
    requires IsRun(c, Init(c), actions)
    ensures var s := After(c, Init(c), actions);
      && |s.log| == c.instances && (forall i :: 0 <= i < |s.log| ==> s.log[i] <= Weekdays(c.start, c.end))
      && (forall v, w :: 0 <= v < w < |s.workers| && s.workers[v].Replaying? && s.workers[w].Replaying? ==>
            s.workers[v].task.inst != s.workers[w].task.inst)
      && s.inMemory == |LiveDays(s)| <= 15
  {
    hide Init, LiveDays, Weekdays;
    ReplayOrder(c, actions);
    MemoryCap(c, actions);
    var s := After(c, Init(c), actions);
    forall v, w | 0 <= v < w < |s.workers| && s.workers[v].Replaying? && s.workers[w].Replaying?
      ensures s.workers[v].task.inst != s.workers[w].task.inst
    {
      MutualExclusion(c, actions, v, w);
    }
  }
}
