/** Exactly when the timer loop ends, and exactly when it fires in order, for every timer the 32-bit fields can hold. */
module TimerLimits {
  import opened Arithmetic
  import opened Timers

  /** Triggers that fit their fields. */
  predicate InRange(ts: seq<Timer>) {
    forall t :: t in ts ==> t.trigger < UINT32_RANGE
  }

  /** The first n turns of advanceToTime's loop, or fewer when it ends before. */
  function Run(reactions: Reactions, ts: seq<Timer>, time: nat, n: nat): Advanced
    decreases n
  {
    if n == 0 || !Due(ts, time) then Advanced([], ts)
    else
      var rest := Run(reactions, Fire(reactions, ts), time, n - 1);
      Advanced([FiringOf(ts[NextIndex(ts)])] + rest.log, rest.timers)
  }

  /** The loop ends within n turns. */
  predicate EndsWithin(reactions: Reactions, ts: seq<Timer>, time: nat, n: nat) {
    !Due(Run(reactions, ts, time, n).timers, time)
  }

  ghost predicate LoopEnds(reactions: Reactions, ts: seq<Timer>, time: nat) {
    exists n: nat :: EndsWithin(reactions, ts, time, n)
  }

  lemma DueWhen(ts: seq<Timer>, u: Timer, time: nat)
    requires u in ts && u.trigger <= time
    ensures Due(ts, time) && ts[NextIndex(ts)].trigger <= u.trigger
  {
    NextIsLeast(ts);
  }

  // ---------- when the loop ends ----------

  /** A timer that repeats leaves the due times if the highest trigger it is ever set to lies after them. */
  predicate Leaves(t: Timer, time: nat) {
    Top(t.trigger, t.interval, UINT32_RANGE) > time
  }

  predicate Stuck(t: Timer, time: nat) {
    t.repeat && t.trigger <= time && !Leaves(t, time)
  }

  predicate NoneStuck(ts: seq<Timer>, time: nat) {
    forall t :: t in ts ==> !Stuck(t, time)
  }

  lemma TopMoved(t: Timer)
    ensures Top(Moved(t).trigger, t.interval, UINT32_RANGE) == Top(t.trigger, t.interval, UINT32_RANGE)
    ensures Moved(t).trigger <= Top(t.trigger, t.interval, UINT32_RANGE)
  {
    SameRemainder(t.trigger, 1, t.interval, UINT32_RANGE);
    NeverAboveTop(t.trigger, 1, t.interval, UINT32_RANGE);
    assert 1 * t.interval == t.interval;
  }

  /** A stuck timer stays, or is set to a time that is due as well. */
  lemma StuckStays(reactions: Reactions, ts: seq<Timer>, time: nat, u: Timer) returns (u': Timer)
    requires Sorted(ts) && u in ts && Stuck(u, time)
    ensures Due(ts, time) && Sorted(Fire(reactions, ts)) && u' in Fire(reactions, ts) && Stuck(u', time)
  {
    hide Sorted, Fire, HasKey, NextIndex, Top, Moved;
    DueWhen(ts, u, time);
    FireFacts(reactions, ts);
    if u == ts[NextIndex(ts)] {
      u' := Moved(u);
      TopMoved(u);
      MovedFields(u);
    } else {
      u' := u;
    }
  }

  lemma MovedFields(t: Timer)
    ensures Moved(t).interval == t.interval && Moved(t).repeat == t.repeat && Moved(t).trigger < UINT32_RANGE
  {
  }

  lemma {:induction false} StuckNeverEnds(reactions: Reactions, ts: seq<Timer>, time: nat, u: Timer, n: nat)
    requires Sorted(ts) && u in ts && Stuck(u, time)
    ensures !EndsWithin(reactions, ts, time, n)
    decreases n
  {
    hide Sorted, Fire, NextIndex, Stuck;
    var u' := StuckStays(reactions, ts, time, u);
    if n > 0 {
      StuckNeverEnds(reactions, Fire(reactions, ts), time, u', n - 1);
    }
  }

  /** Turns until the trigger is after `time`, looking at most `bound` turns ahead. */
  function Turns(trigger: nat, interval: nat, time: nat, bound: nat): nat
    decreases bound
  {
    if bound == 0 || trigger > time then 0
    else 1 + Turns((trigger + interval) % UINT32_RANGE, interval, time, bound - 1)
  }

  lemma {:induction false} TurnsSettle(trigger: nat, interval: nat, time: nat, k: nat, b: nat, b': nat)
    requires trigger < UINT32_RANGE && (trigger + k * interval) % UINT32_RANGE > time && k <= b && k <= b'
    ensures Turns(trigger, interval, time, b) == Turns(trigger, interval, time, b')
    decreases k
  {
    if trigger <= time {
      assert k != 0;
      OneTurnLess(trigger, interval, k);
      TurnsSettle((trigger + interval) % UINT32_RANGE, interval, time, k - 1, b - 1, b' - 1);
    }
  }

  lemma OneTurnLess(trigger: nat, interval: nat, k: nat)
    requires k > 0
    ensures ((trigger + interval) % UINT32_RANGE + (k - 1) * interval) % UINT32_RANGE
         == (trigger + k * interval) % UINT32_RANGE
  {
    var a, c := trigger + interval, (k - 1) * interval;
    assert k * interval == c + interval;
    assert a == UINT32_RANGE * (a / UINT32_RANGE) + a % UINT32_RANGE;
    Multiple(UINT32_RANGE, a / UINT32_RANGE);
    AddMultiple(a % UINT32_RANGE + c, UINT32_RANGE * (a / UINT32_RANGE), UINT32_RANGE);
  }

  lemma TurnsFall(t: Timer, time: nat, b: nat)
    requires t.trigger < UINT32_RANGE && t.trigger <= time && Leaves(t, time) && b >= UINT32_RANGE
    ensures Turns(Moved(t).trigger, t.interval, time, b) < Turns(t.trigger, t.interval, time, b)
  {
    hide Top;
    var k := TopIsReached(t.trigger, t.interval, UINT32_RANGE);
    assert k != 0;
    OneTurnLess(t.trigger, t.interval, k);
    TurnsSettle(Moved(t).trigger, t.interval, time, k - 1, b - 1, b);
  }

  /** The turns left for the timers whose triggers wrap on the way. */
  function Wild(time: nat, b: nat): Timer -> nat {
    (t: Timer) =>
      if t.repeat && t.trigger <= time && !SaneTimer(t, time) then Turns(t.trigger, t.interval, time, b) else 0
  }

  lemma SaneIsNotStuck(t: Timer, time: nat)
    requires SaneTimer(t, time)
    ensures !Stuck(t, time)
  {
    if t.repeat && t.trigger <= time {
      hide Top;
      var k := (time - t.trigger) / t.interval + 1;
      BeyondFormula(t.trigger, t.interval, time);
      BeyondBounds(t.trigger, t.interval, time);
      NeverAboveTop(t.trigger, k, t.interval, UINT32_RANGE);
    }
  }

  /** A firing leaves no timer stuck when none was. */
  lemma FireKeepsFree(reactions: Reactions, ts: seq<Timer>, time: nat)
    requires Sorted(ts) && InRange(ts) && NoneStuck(ts, time) && SaneReactions(reactions, time) && Due(ts, time)
    ensures Sorted(Fire(reactions, ts)) && InRange(Fire(reactions, ts)) && NoneStuck(Fire(reactions, ts), time)
  {
    hide Sorted, Fire, HasKey, NextIndex, Top, Moved, Spawned, SaneReactions, SaneTimer;
    var t := ts[NextIndex(ts)];
    FireFacts(reactions, ts);
    SaneSpawned(reactions, t, time);
    forall u | u in Fire(reactions, ts) ensures !Stuck(u, time) && u.trigger < UINT32_RANGE {
      if u in Spawned(reactions, t) {
        SaneIsNotStuck(u, time);
        SaneFits(u, time);
      } else if t.repeat && u == Moved(t) {
        assert t in ts && !Stuck(t, time);
        TopMoved(t);
        MovedFields(t);
      }
    }
  }

  lemma SaneFits(t: Timer, time: nat)
    requires SaneTimer(t, time)
    ensures t.trigger < UINT32_RANGE
  {
  }

  /** Every turn takes from the turns of the wild timers, or leaves those and lightens the load. */
  lemma TurnCounts(reactions: Reactions, ts: seq<Timer>, time: nat, b: nat)
    requires Sorted(ts) && InRange(ts) && NoneStuck(ts, time) && SaneReactions(reactions, time) && Due(ts, time)
    requires b >= UINT32_RANGE
    ensures var wild := Wild(time, b); var ts' := Fire(reactions, ts);
      || Sum(ts', wild) < Sum(ts, wild)
      || (Sum(ts', wild) == Sum(ts, wild) && Weight(ts', time) < Weight(ts, time))
  {
    hide Sorted, Fire, HasKey, NextIndex, Top, Moved, Spawned, SaneReactions, SaneTimer, Sum, Turns, Weight;
    var t := ts[NextIndex(ts)];
    assert t in ts && !Stuck(t, time);
    SumFire(reactions, ts, Wild(time, b));
    SaneSpawned(reactions, t, time);
    MovedFields(t);
    if SaneTimer(t, time) {
      if t.repeat {
        SaneMoved(t, time);
      }
      FireIsLighter(reactions, ts, time);
    } else {
      WildRepeats(t, time);
      TurnsFall(t, time, b);
    }
  }

  lemma WildRepeats(t: Timer, time: nat)
    requires t.trigger < UINT32_RANGE && !SaneTimer(t, time)
    ensures t.repeat && t.trigger <= time
  {
  }

  lemma {:induction false} FreeEnds(reactions: Reactions, ts: seq<Timer>, time: nat, b: nat) returns (n: nat)
    requires Sorted(ts) && InRange(ts) && NoneStuck(ts, time) && SaneReactions(reactions, time) && b >= UINT32_RANGE
    ensures EndsWithin(reactions, ts, time, n)
    decreases Sum(ts, Wild(time, b)), Weight(ts, time)
  {
    hide Sorted, InRange, NoneStuck, Fire, NextIndex, SaneReactions, Sum, Weight, Wild;
    n := 0;
    if Due(ts, time) {
      FireKeepsFree(reactions, ts, time);
      TurnCounts(reactions, ts, time, b);
      n := FreeEnds(reactions, Fire(reactions, ts), time, b);
      n := n + 1;
    }
  }

  /** The loop ends if and only if, for every due timer that repeats, the highest multiple of gcd(interval, 2^32) steps
      from its trigger lies after `time`.  Callbacks may set further timers. */
  lemma LoopEndsIff(reactions: Reactions, ts: seq<Timer>, time: nat)
    requires Sorted(ts) && InRange(ts) && SaneReactions(reactions, time)
    ensures LoopEnds(reactions, ts, time) <==> NoneStuck(ts, time)
  {
    hide EndsWithin, Stuck;
    if NoneStuck(ts, time) {
      var n := FreeEnds(reactions, ts, time, UINT32_RANGE);
    } else {
      var u :| u in ts && Stuck(u, time);
      forall n: nat ensures !EndsWithin(reactions, ts, time, n) {
        StuckNeverEnds(reactions, ts, time, u, n);
      }
    }
  }

  /** No due timer with a positive interval has a trigger that wraps on the way past `time`. */
  predicate NoWrap(ts: seq<Timer>, time: nat) {
    forall t :: t in ts && t.repeat && t.trigger <= time && t.interval >= 1 ==>
      Beyond(t.trigger, t.interval, time) < UINT32_RANGE
  }

  /** Without wrap-around, the loop ends if and only if no due timer repeats with interval 0. */
  lemma NoWrapEndsIff(reactions: Reactions, ts: seq<Timer>, time: nat)
    requires Sorted(ts) && InRange(ts) && SaneReactions(reactions, time) && NoWrap(ts, time)
    ensures LoopEnds(reactions, ts, time) <==> forall t :: t in ts && t.repeat && t.trigger <= time ==> t.interval >= 1
  {
    hide LoopEnds, Stuck, Beyond;
    LoopEndsIff(reactions, ts, time);
    forall t | t in ts && t.repeat && t.trigger <= time ensures Stuck(t, time) <==> t.interval == 0 {
      if t.interval == 0 {
        ZeroIsStuck(t, time);
      } else {
        SaneIsNotStuck(t, time);
      }
    }
    forall t | t in ts && !(t.repeat && t.trigger <= time) ensures !Stuck(t, time) {
      NotDueIsNotStuck(t, time);
    }
  }

  lemma NotDueIsNotStuck(t: Timer, time: nat)
    requires !(t.repeat && t.trigger <= time)
    ensures !Stuck(t, time)
  {
  }

  lemma ZeroIsStuck(t: Timer, time: nat)
    requires t.repeat && t.interval == 0 && t.trigger <= time && t.trigger < UINT32_RANGE
    ensures Stuck(t, time)
  {
    hide Top;
    var k := TopIsReached(t.trigger, 0, UINT32_RANGE);
  }

  /** A due timer that repeats with interval 0 keeps the loop going for ever, whatever else there is. */
  lemma ZeroIntervalNeverEnds(reactions: Reactions, ts: seq<Timer>, time: nat, t: Timer)
    requires Sorted(ts) && InRange(ts) && t in ts && t.repeat && t.interval == 0 && t.trigger <= time
    ensures !LoopEnds(reactions, ts, time)
  {
    hide EndsWithin, Stuck;
    ZeroIsStuck(t, time);
    forall n: nat ensures !EndsWithin(reactions, ts, time, n) {
      StuckNeverEnds(reactions, ts, time, t, n);
    }
  }

  // ---------- when it fires in order ----------

  predicate Forward(log: seq<Firing>) {
    forall i, j :: 0 <= i < j < |log| ==> log[i].time <= log[j].time
  }

  /** Intervals that fit their fields. */
  predicate Fits(ts: seq<Timer>) {
    forall t :: t in ts ==> t.interval < UINT32_RANGE
  }

  /** After a repeating timer has fired, what fires next is earlier if and only if its trigger wraps. */
  lemma GoesBackIff(reactions: Reactions, ts: seq<Timer>, time: nat)
    requires Sorted(ts) && InRange(ts) && Fits(ts) && SaneReactions(reactions, time) && Due(ts, time)
    requires ts[NextIndex(ts)].repeat
    ensures var t := ts[NextIndex(ts)]; var ts' := Fire(reactions, ts);
      ts' != [] && (ts'[NextIndex(ts')].trigger < t.trigger <==> t.trigger + t.interval >= UINT32_RANGE)
  {
    hide Sorted, Fire, HasKey, NextIndex, Spawned, SaneReactions;
    var t := ts[NextIndex(ts)];
    var ts' := Fire(reactions, ts);
    assert t in ts;
    FireFacts(reactions, ts);
    SaneSpawned(reactions, t, time);
    NextIsLeast(ts);
    assert Moved(t) in ts';
    NextIsLeast(ts');
    assert ts'[NextIndex(ts')] in ts';
  }

  lemma ForwardCons(first: Firing, log: seq<Firing>)
    ensures Forward([first] + log) <==> Forward(log) && forall i :: 0 <= i < |log| ==> first.time <= log[i].time
  {
    var all := [first] + log;
    assert forall i :: 0 <= i < |log| ==> log[i] == all[i + 1];
    if Forward(all) {
      forall i, j | 0 <= i < j < |log| ensures log[i].time <= log[j].time {
        assert all[i + 1].time <= all[j + 1].time;
      }
      forall i | 0 <= i < |log| ensures first.time <= log[i].time {
        assert all[0].time <= all[i + 1].time;
      }
    }
  }

  lemma FireFits(reactions: Reactions, ts: seq<Timer>, time: nat)
    requires Sorted(ts) && InRange(ts) && Fits(ts) && SaneReactions(reactions, time) && Due(ts, time)
    ensures Sorted(Fire(reactions, ts)) && InRange(Fire(reactions, ts)) && Fits(Fire(reactions, ts))
  {
    hide Sorted, Fire, HasKey, NextIndex;
    assert ts[NextIndex(ts)] in ts;
    FireFacts(reactions, ts);
  }

  /** A timer whose trigger wraps on the way makes the log of a loop that ends go back. */
  lemma {:induction false} WrapGoesBack(reactions: Reactions, ts: seq<Timer>, time: nat, n: nat, u: Timer)
    requires Sorted(ts) && InRange(ts) && Fits(ts) && SaneReactions(reactions, time)
    requires EndsWithin(reactions, ts, time, n)
    requires u in ts && u.repeat && u.trigger <= time && u.interval >= 1 && !SaneTimer(u, time)
    ensures !Forward(Run(reactions, ts, time, n).log)
    decreases n
  {
    hide Sorted, InRange, Fits, Fire, HasKey, NextIndex, SaneReactions, Forward, SaneTimer;
    DueWhen(ts, u, time);
    var t, ts' := ts[NextIndex(ts)], Fire(reactions, ts);
    var rest := Run(reactions, ts', time, n - 1);
    FireFacts(reactions, ts);
    FireFits(reactions, ts, time);
    ForwardCons(FiringOf(t), rest.log);
    if u != t {
      WrapGoesBack(reactions, ts', time, n - 1, u);
    } else if u.trigger + u.interval >= UINT32_RANGE {
      GoesBackIff(reactions, ts, time);
      assert Due(ts', time) && rest.log[0] == FiringOf(ts'[NextIndex(ts')]);
    } else {
      WildMoved(u, time);
      WrapGoesBack(reactions, ts', time, n - 1, Moved(u));
    }
  }

  lemma WildMoved(u: Timer, time: nat)
    requires u.trigger < UINT32_RANGE && u.repeat && u.trigger <= time && u.interval >= 1 && !SaneTimer(u, time)
    requires u.trigger + u.interval < UINT32_RANGE
    ensures var v := Moved(u); v.repeat && v.trigger <= time && v.interval >= 1 && !SaneTimer(v, time)
  {
    assert Beyond(u.trigger, u.interval, time) == Beyond(u.trigger + u.interval, u.interval, time);
  }

  lemma {:induction false} SaneRuns(reactions: Reactions, ts: seq<Timer>, time: nat) returns (n: nat)
    requires Sorted(ts) && Sane(ts, time) && SaneReactions(reactions, time)
    ensures EndsWithin(reactions, ts, time, n) && Run(reactions, ts, time, n) == Advance(reactions, ts, time)
    decreases Weight(ts, time)
  {
    hide Sorted, Sane, SaneReactions, Fire, NextIndex, Advance, Weight;
    n := 0;
    if !Due(ts, time) {
      AdvanceStop(reactions, ts, time);
    } else {
      AdvanceStep(reactions, ts, time);
      n := SaneRuns(reactions, Fire(reactions, ts), time);
      n := n + 1;
    }
  }

  ghost predicate EndsForward(reactions: Reactions, ts: seq<Timer>, time: nat) {
    exists n: nat :: EndsWithin(reactions, ts, time, n) && Forward(Run(reactions, ts, time, n).log)
  }

  /** The loop ends without ever firing back in time if and only if every due timer that repeats has a positive
      interval d and T + ((t - T) / d + 1) * d below 2^32.  Then it is the run all other laws are about. */
  lemma EndsForwardIff(reactions: Reactions, ts: seq<Timer>, time: nat)
    requires Sorted(ts) && InRange(ts) && Fits(ts) && SaneReactions(reactions, time)
    ensures EndsForward(reactions, ts, time) <==> Sane(ts, time)
  {
    hide Sorted, InRange, Fits, SaneReactions, EndsWithin, Run, SaneTimer, Advance;
    if Sane(ts, time) {
      var n := SaneRuns(reactions, ts, time);
      AdvanceOrder(reactions, ts, time);
    } else {
      var u :| u in ts && !SaneTimer(u, time);
      assert u.trigger < UINT32_RANGE by {
        FitsTrigger(ts, u);
      }
      WildRepeats(u, time);
      forall n: nat | EndsWithin(reactions, ts, time, n) ensures !Forward(Run(reactions, ts, time, n).log) {
        if u.interval == 0 {
          ZeroIsStuck(u, time);
          StuckNeverEnds(reactions, ts, time, u, n);
        } else {
          WrapGoesBack(reactions, ts, time, n, u);
        }
      }
    }
  }

  lemma FitsTrigger(ts: seq<Timer>, u: Timer)
    requires InRange(ts) && u in ts
    ensures u.trigger < UINT32_RANGE
  {
  }
}
