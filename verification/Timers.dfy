/** Timers kept in the order of std::map, by consumer and then by event, and what advancing the clock does to them. */
module Timers {

  const UINT32_RANGE := 0x1_0000_0000

  datatype Timer = Timer(consumer: nat, event: nat, trigger: nat, interval: nat, repeat: bool)

  /** A consumer's answer to a firing: a timer it sets from inside onTimer. */
  datatype NewTimer = NewTimer(event: nat, interval: nat, repeat: bool)

  type Reactions = map<(nat, nat), NewTimer>

  datatype Firing = Firing(time: nat, consumer: nat, event: nat)

  predicate KeyBelow(a: Timer, consumer: nat, event: nat) {
    a.consumer < consumer || (a.consumer == consumer && a.event < event)
  }

  predicate SameKey(a: Timer, consumer: nat, event: nat) {
    a.consumer == consumer && a.event == event
  }

  predicate Sorted(ts: seq<Timer>) {
    forall i, j :: 0 <= i < j < |ts| ==> KeyBelow(ts[i], ts[j].consumer, ts[j].event)
  }

  /** Where a key is, or belongs. */
  function Position(ts: seq<Timer>, consumer: nat, event: nat): (p: nat)
    ensures p <= |ts|
  {
    if ts == [] || !KeyBelow(ts[0], consumer, event) then 0 else 1 + Position(ts[1..], consumer, event)
  }

  predicate HasKey(ts: seq<Timer>, consumer: nat, event: nat) {
    var p := Position(ts, consumer, event);
    p < |ts| && SameKey(ts[p], consumer, event)
  }

  /** setTimer: an existing timer with the same key is kept. */
  function Set(ts: seq<Timer>, t: Timer): seq<Timer> {
    var p := Position(ts, t.consumer, t.event);
    if HasKey(ts, t.consumer, t.event) then ts else ts[..p] + [t] + ts[p..]
  }

  function Cancel(ts: seq<Timer>, consumer: nat, event: nat): seq<Timer> {
    var p := Position(ts, consumer, event);
    if HasKey(ts, consumer, event) then ts[..p] + ts[p + 1..] else ts
  }

  /** getNextTimer: the earliest trigger, the first key among equals. */
  function NextIndex(ts: seq<Timer>): (i: nat)
    requires ts != []
    ensures i < |ts|
  {
    var last := |ts| - 1;
    if last == 0 then 0
    else var i := NextIndex(ts[..last]); if ts[i].trigger > ts[last].trigger then last else i
  }

  predicate Due(ts: seq<Timer>, time: nat) {
    ts != [] && ts[NextIndex(ts)].trigger <= time
  }

  function FiringOf(t: Timer): Firing {
    Firing(t.trigger, t.consumer, t.event)
  }

  /** The timers after `t` fires: first what its consumer sets, then t itself moves on or goes. */
  function AfterReaction(reactions: Reactions, ts: seq<Timer>, t: Timer): seq<Timer> {
    if (t.consumer, t.event) in reactions then
      var r := reactions[(t.consumer, t.event)];
      Set(ts, Timer(t.consumer, r.event, (r.interval + t.trigger) % UINT32_RANGE, r.interval, r.repeat))
    else ts
  }

  function AfterFiring(ts: seq<Timer>, t: Timer): seq<Timer> {
    var p := Position(ts, t.consumer, t.event);
    if p >= |ts| then ts
    else if t.repeat then ts[p := t.(trigger := (t.trigger + t.interval) % UINT32_RANGE)]
    else Cancel(ts, t.consumer, t.event)
  }

  function Fire(reactions: Reactions, ts: seq<Timer>): seq<Timer>
    requires ts != []
  {
    var t := ts[NextIndex(ts)];
    AfterFiring(AfterReaction(reactions, ts, t), t)
  }

  // ---------- the timers as a set of keyed timers ----------

  lemma {:induction false} PositionFacts(ts: seq<Timer>, consumer: nat, event: nat)
    requires Sorted(ts)
    ensures var p := Position(ts, consumer, event);
      && (forall i :: 0 <= i < p ==> KeyBelow(ts[i], consumer, event))
      && (forall i :: p <= i < |ts| ==> !KeyBelow(ts[i], consumer, event))
      && (forall i :: p < i < |ts| ==> !SameKey(ts[i], consumer, event))
  {
    if ts != [] && KeyBelow(ts[0], consumer, event) {
      PositionFacts(ts[1..], consumer, event);
      assert forall i :: 1 <= i < |ts| ==> ts[i] == ts[1..][i - 1];
    }
  }

  lemma KeyFound(ts: seq<Timer>, i: nat)
    requires Sorted(ts) && i < |ts|
    ensures Position(ts, ts[i].consumer, ts[i].event) == i && HasKey(ts, ts[i].consumer, ts[i].event)
  {
    PositionFacts(ts, ts[i].consumer, ts[i].event);
  }

  lemma SetFacts(ts: seq<Timer>, t: Timer)
    requires Sorted(ts)
    ensures Sorted(Set(ts, t))
    ensures forall u :: u in Set(ts, t) <==> u in ts || (u == t && !HasKey(ts, t.consumer, t.event))
  {
    PositionFacts(ts, t.consumer, t.event);
  }

  lemma {:induction false} NextIsLeast(ts: seq<Timer>)
    requires ts != []
    ensures forall k :: 0 <= k < |ts| ==> ts[NextIndex(ts)].trigger <= ts[k].trigger
    ensures forall k :: 0 <= k < NextIndex(ts) ==> ts[NextIndex(ts)].trigger < ts[k].trigger
  {
    var last := |ts| - 1;
    if last > 0 {
      NextIsLeast(ts[..last]);
      assert forall k :: 0 <= k < last ==> ts[k] == ts[..last][k];
    }
  }

  /** The order in which timers fire: by time, then consumer, then event. */
  predicate FiresBefore(a: Firing, b: Firing) {
    a.time < b.time
    || (a.time == b.time && (a.consumer < b.consumer || (a.consumer == b.consumer && a.event < b.event)))
  }

  /** The chosen timer comes strictly before every other in firing order. */
  lemma NextIsFirst(ts: seq<Timer>, u: Timer)
    requires Sorted(ts) && ts != [] && u in ts && u != ts[NextIndex(ts)]
    ensures FiresBefore(FiringOf(ts[NextIndex(ts)]), FiringOf(u))
  {
    NextIsLeast(ts);
    var k :| 0 <= k < |ts| && ts[k] == u;
  }

  function Moved(t: Timer): Timer {
    t.(trigger := (t.trigger + t.interval) % UINT32_RANGE)
  }

  function Spawned(reactions: Reactions, t: Timer): seq<Timer> {
    if (t.consumer, t.event) in reactions then
      var r := reactions[(t.consumer, t.event)];
      [Timer(t.consumer, r.event, (r.interval + t.trigger) % UINT32_RANGE, r.interval, r.repeat)]
    else []
  }

  /** Exactly which timers are there after a firing: the others, the fired one moved on if it repeats,
      and what the reaction set unless its key was taken. */
  lemma FireFacts(reactions: Reactions, ts: seq<Timer>)
    requires Sorted(ts) && ts != []
    ensures var t := ts[NextIndex(ts)]; var ts' := Fire(reactions, ts);
      && Sorted(ts')
      && (forall u :: u in ts' <==>
            || (u in ts && u != t)
            || (t.repeat && u == Moved(t))
            || (u in Spawned(reactions, t) && !HasKey(ts, u.consumer, u.event)))
  {
    hide Sorted, HasKey, AfterFiring, AfterReaction, NextIndex;
    var t := ts[NextIndex(ts)];
    var mid := AfterReaction(reactions, ts, t);
    assert t in ts;
    ReactionFacts(reactions, ts, t);
    SpawnedDiffers(reactions, ts, t);
    var p :| 0 <= p < |mid| && mid[p] == t;
    FireMid(mid, p, t);
    assert Fire(reactions, ts) == AfterFiring(mid, t);
  }

  lemma ReactionFacts(reactions: Reactions, ts: seq<Timer>, t: Timer)
    requires Sorted(ts)
    ensures var mid := AfterReaction(reactions, ts, t);
      && Sorted(mid)
      && forall u :: u in mid <==> u in ts || (u in Spawned(reactions, t) && !HasKey(ts, u.consumer, u.event))
  {
    hide Sorted, HasKey;
    if (t.consumer, t.event) in reactions {
      SetFacts(ts, Spawned(reactions, t)[0]);
      assert AfterReaction(reactions, ts, t) == Set(ts, Spawned(reactions, t)[0]);
    }
  }

  lemma SpawnedDiffers(reactions: Reactions, ts: seq<Timer>, t: Timer)
    requires Sorted(ts) && t in ts
    ensures forall u :: u in Spawned(reactions, t) && !HasKey(ts, u.consumer, u.event) ==> u != t
  {
    var i :| 0 <= i < |ts| && ts[i] == t;
    KeyFound(ts, i);
  }

  lemma FireMid(mid: seq<Timer>, p: nat, t: Timer)
    requires Sorted(mid) && p < |mid| && mid[p] == t
    ensures Sorted(AfterFiring(mid, t))
    ensures forall u :: u in AfterFiring(mid, t) <==> (u in mid && u != t) || (t.repeat && u == Moved(t))
  {
    KeyFound(mid, p);
    var after := AfterFiring(mid, t);
    if t.repeat {
      assert after == mid[p := Moved(t)];
      assert forall i :: 0 <= i < |mid| && i != p ==> mid[i] != t && after[i] == mid[i];
      assert after[p] == Moved(t);
    } else {
      assert after == mid[..p] + mid[p + 1..];
      assert forall i :: 0 <= i < |mid| && i != p ==> mid[i] != t;
      forall u | u in mid && u != t ensures u in after {
        var i :| 0 <= i < |mid| && mid[i] == u;
        assert after[if i < p then i else i - 1] == u;
      }
    }
  }

  // ---------- timers whose triggers stay in range ----------

  /** The first of T, T + d, T + 2d, ... after `time`: where a timer is set when it has caught up. */
  function Beyond(trigger: nat, interval: nat, time: nat): nat
    requires interval >= 1
    decreases time + 1 - trigger
  {
    if trigger > time then trigger else Beyond(trigger + interval, interval, time)
  }

  /** A due timer that repeats moves on, and no trigger it is set to on the way wraps at 32 bits. */
  predicate SaneTimer(t: Timer, time: nat) {
    && t.trigger < UINT32_RANGE
    && (t.repeat && t.trigger <= time ==> t.interval >= 1 && Beyond(t.trigger, t.interval, time) < UINT32_RANGE)
  }

  predicate Sane(ts: seq<Timer>, time: nat) {
    forall t :: t in ts ==> SaneTimer(t, time)
  }

  predicate SaneReactions(reactions: Reactions, time: nat) {
    forall k :: k in reactions ==> 1 <= reactions[k].interval && reactions[k].interval + time < UINT32_RANGE
  }

  /** In numbers: T + ((t - T) / d + 1) * d. */
  lemma {:induction false} BeyondFormula(trigger: nat, interval: nat, time: nat)
    requires interval >= 1 && trigger <= time
    ensures Beyond(trigger, interval, time) == trigger + ((time - trigger) / interval + 1) * interval
    decreases time - trigger
  {
    if trigger + interval <= time {
      BeyondFormula(trigger + interval, interval, time);
      DivideStep(time - trigger, interval);
      OneMore((time - trigger - interval) / interval + 1, interval);
    } else {
      DivideSmall(time - trigger, interval);
    }
  }

  lemma {:induction false} BeyondBounds(trigger: nat, interval: nat, time: nat)
    requires interval >= 1
    ensures trigger <= Beyond(trigger, interval, time) && time < Beyond(trigger, interval, time)
    ensures trigger <= time ==> Beyond(trigger, interval, time) <= time + interval
    decreases time + 1 - trigger
  {
    if trigger <= time {
      BeyondBounds(trigger + interval, interval, time);
    }
  }

  lemma {:induction false} BeyondMonotone(trigger: nat, interval: nat, t1: nat, t2: nat)
    requires interval >= 1 && t1 <= t2
    ensures Beyond(trigger, interval, t1) <= Beyond(trigger, interval, t2)
    decreases t1 + 1 - trigger
  {
    if trigger > t1 {
      BeyondBounds(trigger, interval, t2);
    } else {
      BeyondMonotone(trigger + interval, interval, t1, t2);
    }
  }

  lemma SaneEarlier(reactions: Reactions, ts: seq<Timer>, t1: nat, t2: nat)
    requires Sane(ts, t2) && SaneReactions(reactions, t2) && t1 <= t2
    ensures Sane(ts, t1) && SaneReactions(reactions, t1)
  {
    forall t | t in ts ensures SaneTimer(t, t1) {
      assert SaneTimer(t, t2);
      if t.repeat && t.trigger <= t1 {
        BeyondMonotone(t.trigger, t.interval, t1, t2);
      }
    }
  }

  lemma SaneMoved(t: Timer, time: nat)
    requires SaneTimer(t, time) && t.repeat && t.trigger <= time
    ensures Moved(t) == t.(trigger := t.trigger + t.interval) && t.interval >= 1 && SaneTimer(Moved(t), time)
  {
    BeyondBounds(t.trigger + t.interval, t.interval, time);
  }

  lemma SaneSpawned(reactions: Reactions, t: Timer, time: nat)
    requires t.trigger <= time && SaneReactions(reactions, time)
    ensures forall u :: u in Spawned(reactions, t) ==> u.trigger > t.trigger && SaneTimer(u, time)
  {
    if (t.consumer, t.event) in reactions {
      var u := Spawned(reactions, t)[0];
      BeyondBounds(u.trigger, u.interval, time);
    }
  }

  /** A firing keeps the timers in range, and moves nothing to a time before its own. */
  lemma FireKeepsSane(reactions: Reactions, ts: seq<Timer>, time: nat)
    requires Sorted(ts) && Due(ts, time) && Sane(ts, time) && SaneReactions(reactions, time)
    ensures var t := ts[NextIndex(ts)]; var ts' := Fire(reactions, ts);
      && Sorted(ts') && Sane(ts', time)
      && (t.repeat ==> Moved(t) == t.(trigger := t.trigger + t.interval) && t.interval >= 1)
      && (forall u :: u in Spawned(reactions, t) ==> u.trigger > t.trigger)
  {
    hide Sorted, Fire, HasKey, NextIndex, SaneTimer, Moved, Spawned;
    var t := ts[NextIndex(ts)];
    assert t in ts;
    FireFacts(reactions, ts);
    SaneSpawned(reactions, t, time);
    if t.repeat {
      SaneMoved(t, time);
    }
  }

  // ---------- sums over the timers ----------

  function Sum(ts: seq<Timer>, f: Timer -> nat): nat {
    if ts == [] then 0 else f(ts[0]) + Sum(ts[1..], f)
  }

  lemma {:induction false} SumConcat(a: seq<Timer>, b: seq<Timer>, f: Timer -> nat)
    ensures Sum(a + b, f) == Sum(a, f) + Sum(b, f)
  {
    if a == [] {
      assert a + b == b;
    } else {
      SumConcat(a[1..], b, f);
      assert (a + b)[1..] == a[1..] + b;
    }
  }

  lemma SumAround(ts: seq<Timer>, p: nat, f: Timer -> nat)
    requires p < |ts|
    ensures Sum(ts, f) == Sum(ts[..p], f) + f(ts[p]) + Sum(ts[p + 1..], f)
  {
    assert ts == ts[..p] + ([ts[p]] + ts[p + 1..]);
    SumConcat(ts[..p], [ts[p]] + ts[p + 1..], f);
    assert ([ts[p]] + ts[p + 1..])[1..] == ts[p + 1..];
  }

  lemma SumSet(ts: seq<Timer>, t: Timer, f: Timer -> nat)
    ensures Sum(Set(ts, t), f) <= Sum(ts, f) + f(t)
  {
    hide Sum;
    var p := Position(ts, t.consumer, t.event);
    if !HasKey(ts, t.consumer, t.event) {
      SumAround(Set(ts, t), p, f);
      assert Set(ts, t)[..p] == ts[..p] && Set(ts, t)[p + 1..] == ts[p..];
      assert ts == ts[..p] + ts[p..];
      SumConcat(ts[..p], ts[p..], f);
    }
  }

  lemma SumAfterFiring(mid: seq<Timer>, p: nat, t: Timer, f: Timer -> nat)
    requires Sorted(mid) && p < |mid| && mid[p] == t
    ensures Sum(AfterFiring(mid, t), f) + f(t) == Sum(mid, f) + if t.repeat then f(Moved(t)) else 0
  {
    hide Sum;
    KeyFound(mid, p);
    SumAround(mid, p, f);
    if t.repeat {
      var after := mid[p := Moved(t)];
      SumAround(after, p, f);
      assert after[..p] == mid[..p] && after[p + 1..] == mid[p + 1..];
    } else {
      SumConcat(mid[..p], mid[p + 1..], f);
    }
  }

  /** What a firing takes from a sum over the timers, and what it adds at most. */
  lemma SumFire(reactions: Reactions, ts: seq<Timer>, f: Timer -> nat)
    requires Sorted(ts) && ts != []
    ensures var t := ts[NextIndex(ts)];
      Sum(Fire(reactions, ts), f) + f(t) <= Sum(ts, f) + (if t.repeat then f(Moved(t)) else 0)
        + if Spawned(reactions, t) == [] then 0 else f(Spawned(reactions, t)[0])
  {
    hide Sum, Sorted, HasKey, AfterFiring, Position, NextIndex, Moved, Set;
    var t := ts[NextIndex(ts)];
    assert t in ts;
    var mid := AfterReaction(reactions, ts, t);
    ReactionFacts(reactions, ts, t);
    var p :| 0 <= p < |mid| && mid[p] == t;
    SumAfterFiring(mid, p, t, f);
    if (t.consumer, t.event) in reactions {
      SumSet(ts, Spawned(reactions, t)[0], f);
      assert mid == Set(ts, Spawned(reactions, t)[0]);
    }
  }

  // ---------- termination: each firing makes the due timers lighter ----------

  function Pow3(n: nat): (r: nat)
    ensures r >= 1
  {
    if n == 0 then 1 else 3 * Pow3(n - 1)
  }

  /** A timer weighs 3^(time left), 0 when it is not due. */
  function Load(time: nat): Timer -> nat {
    (t: Timer) => if t.trigger <= time then Pow3(time + 1 - t.trigger) else 0
  }

  function Weight(ts: seq<Timer>, time: nat): nat {
    Sum(ts, Load(time))
  }

  lemma {:induction false} LaterIsLighter(a: Timer, b: Timer, time: nat)
    requires a.trigger < b.trigger && a.trigger <= time
    ensures 3 * Load(time)(b) <= Load(time)(a) && Load(time)(a) >= 1
    decreases b.trigger - a.trigger
  {
    if b.trigger <= time && b.trigger > a.trigger + 1 {
      LaterIsLighter(a, b.(trigger := b.trigger - 1), time);
    }
  }

  lemma FireIsLighter(reactions: Reactions, ts: seq<Timer>, time: nat)
    requires Sorted(ts) && Due(ts, time) && SaneTimer(ts[NextIndex(ts)], time) && SaneReactions(reactions, time)
    ensures Weight(Fire(reactions, ts), time) < Weight(ts, time)
  {
    hide Sorted, Fire, NextIndex, Load, Sum, SaneTimer, Moved, Spawned, SaneReactions;
    var t := ts[NextIndex(ts)];
    SumFire(reactions, ts, Load(time));
    LaterIsLighter(t, t.(trigger := t.trigger + 1), time);
    if t.repeat {
      SaneMoved(t, time);
      LaterIsLighter(t, Moved(t), time);
    }
    SaneSpawned(reactions, t, time);
    if Spawned(reactions, t) != [] {
      LaterIsLighter(t, Spawned(reactions, t)[0], time);
    }
  }

  // ---------- advancing ----------

  datatype Advanced = Advanced(log: seq<Firing>, timers: seq<Timer>)

  /** advanceToTime: fire the next timer while it is due. */
  ghost function Advance(reactions: Reactions, ts: seq<Timer>, time: nat): Advanced
    requires Sorted(ts) && Sane(ts, time) && SaneReactions(reactions, time)
    decreases Weight(ts, time)
  {
    if !Due(ts, time) then Advanced([], ts)
    else
      FireKeepsSane(reactions, ts, time);
      FireIsLighter(reactions, ts, time);
      var rest := Advance(reactions, Fire(reactions, ts), time);
      Advanced([FiringOf(ts[NextIndex(ts)])] + rest.log, rest.timers)
  }

  /** One turn of the loop. */
  lemma AdvanceStep(reactions: Reactions, ts: seq<Timer>, time: nat)
    requires Sorted(ts) && Sane(ts, time) && SaneReactions(reactions, time) && Due(ts, time)
    ensures var ts' := Fire(reactions, ts);
      && Sorted(ts') && Sane(ts', time) && Weight(ts', time) < Weight(ts, time)
      && Advance(reactions, ts, time)
         == Advanced([FiringOf(ts[NextIndex(ts)])] + Advance(reactions, ts', time).log,
                     Advance(reactions, ts', time).timers)
  {
    FireKeepsSane(reactions, ts, time);
    FireIsLighter(reactions, ts, time);
  }

  lemma AdvanceStop(reactions: Reactions, ts: seq<Timer>, time: nat)
    requires Sorted(ts) && Sane(ts, time) && SaneReactions(reactions, time) && !Due(ts, time)
    ensures Advance(reactions, ts, time) == Advanced([], ts)
    ensures forall u :: u in ts ==> u.trigger > time
  {
    if ts != [] {
      NextIsLeast(ts);
    }
  }

  /** Every timer left is later than `time`; what fired did so no later than `time`, strictly ordered by
      (time, consumer, event). */
  lemma {:induction false} AdvanceOrder(reactions: Reactions, ts: seq<Timer>, time: nat)
    requires Sorted(ts) && Sane(ts, time) && SaneReactions(reactions, time)
    ensures var r := Advance(reactions, ts, time);
      && Sorted(r.timers) && Sane(r.timers, time)
      && (forall u :: u in r.timers ==> u.trigger > time)
      && (forall i :: 0 <= i < |r.log| ==> r.log[i].time <= time)
      && (forall i, j :: 0 <= i < j < |r.log| ==> FiresBefore(r.log[i], r.log[j]))
  {
    hide Sorted, Fire, NextIndex, HasKey, Advance, Weight, Sane;
    if !Due(ts, time) {
      AdvanceStop(reactions, ts, time);
    } else {
      AdvanceStep(reactions, ts, time);
      FiredFirst(reactions, ts, time);
      AdvanceAfter(reactions, Fire(reactions, ts), time, FiringOf(ts[NextIndex(ts)]));
    }
  }

  /** What is there after a firing fires later than it. */
  lemma FiredFirst(reactions: Reactions, ts: seq<Timer>, time: nat)
    requires Sorted(ts) && Due(ts, time) && Sane(ts, time) && SaneReactions(reactions, time)
    ensures forall u :: u in Fire(reactions, ts) ==> FiresBefore(FiringOf(ts[NextIndex(ts)]), FiringOf(u))
  {
    hide Sorted, Fire, NextIndex, HasKey, Sane;
    var t := ts[NextIndex(ts)];
    FireFacts(reactions, ts);
    FireKeepsSane(reactions, ts, time);
    forall u | u in Fire(reactions, ts) ensures FiresBefore(FiringOf(t), FiringOf(u)) {
      if u in ts && u != t {
        NextIsFirst(ts, u);
      }
    }
  }

  /** When every timer fires later than `bound`, so does everything that is fired. */
  lemma {:induction false} AdvanceAfter(reactions: Reactions, ts: seq<Timer>, time: nat, bound: Firing)
    requires Sorted(ts) && Sane(ts, time) && SaneReactions(reactions, time)
    requires forall u :: u in ts ==> FiresBefore(bound, FiringOf(u))
    ensures var r := Advance(reactions, ts, time);
      && Sorted(r.timers) && Sane(r.timers, time)
      && (forall u :: u in r.timers ==> u.trigger > time)
      && (forall i :: 0 <= i < |r.log| ==> FiresBefore(bound, r.log[i]) && r.log[i].time <= time)
      && (forall i, j :: 0 <= i < j < |r.log| ==> FiresBefore(r.log[i], r.log[j]))
    decreases Weight(ts, time)
  {
    hide Sorted, Fire, NextIndex, HasKey, Advance, Weight, Sane;
    if !Due(ts, time) {
      AdvanceStop(reactions, ts, time);
    } else {
      var t := ts[NextIndex(ts)];
      AdvanceStep(reactions, ts, time);
      FiredFirst(reactions, ts, time);
      AdvanceAfter(reactions, Fire(reactions, ts), time, FiringOf(t));
      OrderedCons(FiringOf(t), Advance(reactions, Fire(reactions, ts), time).log, bound, time);
    }
  }

  lemma OrderedCons(first: Firing, log: seq<Firing>, bound: Firing, time: nat)
    requires FiresBefore(bound, first) && first.time <= time
    requires forall i :: 0 <= i < |log| ==> FiresBefore(first, log[i]) && log[i].time <= time
    requires forall i, j :: 0 <= i < j < |log| ==> FiresBefore(log[i], log[j])
    ensures var all := [first] + log;
      && (forall i :: 0 <= i < |all| ==> FiresBefore(bound, all[i]) && all[i].time <= time)
      && (forall i, j :: 0 <= i < j < |all| ==> FiresBefore(all[i], all[j]))
  {
  }

  /** Advancing to an intermediate time first changes neither the log nor the timers. */
  lemma {:induction false} AdvanceInTwoSteps(reactions: Reactions, ts: seq<Timer>, t1: nat, t2: nat)
    requires Sorted(ts) && Sane(ts, t2) && SaneReactions(reactions, t2) && t1 <= t2
    ensures Sane(ts, t1) && SaneReactions(reactions, t1)
    ensures var first := Advance(reactions, ts, t1);
      && Sorted(first.timers) && Sane(first.timers, t2)
      && var second := Advance(reactions, first.timers, t2);
         Advance(reactions, ts, t2) == Advanced(first.log + second.log, second.timers)
    decreases Weight(ts, t2)
  {
    hide Sorted, Fire, NextIndex, HasKey, Advance, Weight;
    SaneEarlier(reactions, ts, t1, t2);
    if !Due(ts, t1) {
      AdvanceStop(reactions, ts, t1);
      var second := Advance(reactions, ts, t2);
      assert [] + second.log == second.log;
    } else {
      AdvanceStep(reactions, ts, t1);
      AdvanceStep(reactions, ts, t2);
      AdvanceInTwoSteps(reactions, Fire(reactions, ts), t1, t2);
      var head := [FiringOf(ts[NextIndex(ts)])];
      var first := Advance(reactions, Fire(reactions, ts), t1);
      var second := Advance(reactions, first.timers, t2);
      assert head + (first.log + second.log) == (head + first.log) + second.log;
    }
  }

  // ---------- how often one timer fires ----------

  function FiringsOf(log: seq<Firing>, consumer: nat, event: nat): seq<nat> {
    if log == [] then []
    else (if log[0].consumer == consumer && log[0].event == event then [log[0].time] else [])
         + FiringsOf(log[1..], consumer, event)
  }

  /** T, T + d, T + 2d, ... up to `time`. */
  function Schedule(trigger: nat, interval: nat, time: nat): seq<nat>
    requires interval >= 1 || trigger > time
    decreases time + 1 - trigger
  {
    if trigger > time then [] else [trigger] + Schedule(trigger + interval, interval, time)
  }

  lemma {:induction false} ScheduleCount(trigger: nat, interval: nat, time: nat)
    requires interval >= 1 && trigger <= time
    ensures |Schedule(trigger, interval, time)| == (time - trigger) / interval + 1
    decreases time - trigger
  {
    if trigger + interval <= time {
      ScheduleCount(trigger + interval, interval, time);
      DivideStep(time - trigger, interval);
    } else {
      DivideSmall(time - trigger, interval);
    }
  }

  lemma DivideStep(n: int, d: nat)
    requires d >= 1 && n >= d
    ensures n / d == (n - d) / d + 1
  {
    var q, q' := n / d, (n - d) / d;
    assert q * d <= n < q * d + d && q' * d <= n - d < q' * d + d;
    if q < q' + 1 {
      TimesMonotone(q + 1, q' + 1, d);
    } else if q > q' + 1 {
      TimesMonotone(q' + 2, q, d);
    }
  }

  lemma TimesMonotone(a: int, b: int, d: nat)
    requires a <= b
    ensures a * d <= b * d
  {
  }

  lemma DivideSmall(n: nat, d: nat)
    requires n < d
    ensures n / d == 0
  {
  }

  lemma OneMore(n: nat, interval: nat)
    ensures interval + n * interval == (n + 1) * interval
  {
  }

  /** A repeating timer that is due fires at exactly T, T + d, T + 2d, ... up to `time`, and is then set for the
      first of these times that lies after it: no other timer or reaction can disturb it. */
  lemma {:induction false} RepeatingTimerFires(reactions: Reactions, ts: seq<Timer>, time: nat, t: Timer)
    requires Sorted(ts) && Sane(ts, time) && SaneReactions(reactions, time) && t in ts && t.repeat
    ensures var r := Advance(reactions, ts, time); var times := Schedule(t.trigger, t.interval, time);
      && FiringsOf(r.log, t.consumer, t.event) == times
      && t.(trigger := t.trigger + |times| * t.interval) in r.timers
    decreases Weight(ts, time)
  {
    hide Sorted, Fire, HasKey, Advance, Weight, NextIndex;
    if !Due(ts, time) {
      AdvanceStop(reactions, ts, time);
      assert t.(trigger := t.trigger + 0 * t.interval) == t;
    } else {
      var first := ts[NextIndex(ts)];
      assert first in ts;
      NextIsLeast(ts);
      FireFacts(reactions, ts);
      FireKeepsSane(reactions, ts, time);
      AdvanceStep(reactions, ts, time);
      FiringsCons(FiringOf(first), Advance(reactions, Fire(reactions, ts), time).log, t.consumer, t.event);
      if t == first {
        RepeatingTimerFires(reactions, Fire(reactions, ts), time, Moved(t));
        var n := |Schedule(t.trigger + t.interval, t.interval, time)|;
        OneMore(n, t.interval);
      } else {
        DifferentKeys(ts, t, first);
        RepeatingTimerFires(reactions, Fire(reactions, ts), time, t);
      }
    }
  }

  lemma FiringsCons(first: Firing, log: seq<Firing>, consumer: nat, event: nat)
    ensures FiringsOf([first] + log, consumer, event)
         == (if first.consumer == consumer && first.event == event then [first.time] else [])
            + FiringsOf(log, consumer, event)
  {
    assert ([first] + log)[1..] == log;
  }

  predicate Untargeted(reactions: Reactions, consumer: nat, event: nat) {
    forall k :: k in reactions && k.0 == consumer ==> reactions[k].event != event
  }

  /** A key that no timer has and no reaction sets never fires and never appears. */
  lemma {:induction false} AbsentKeyStaysAbsent(reactions: Reactions, ts: seq<Timer>, time: nat, consumer: nat,
                                                event: nat)
    requires Sorted(ts) && Sane(ts, time) && SaneReactions(reactions, time) && Untargeted(reactions, consumer, event)
    requires forall u :: u in ts ==> !SameKey(u, consumer, event)
    ensures var r := Advance(reactions, ts, time);
      FiringsOf(r.log, consumer, event) == [] && forall u :: u in r.timers ==> !SameKey(u, consumer, event)
    decreases Weight(ts, time)
  {
    hide Sorted, Fire, HasKey, Advance, Weight, NextIndex;
    if !Due(ts, time) {
      AdvanceStop(reactions, ts, time);
    } else {
      assert ts[NextIndex(ts)] in ts;
      FireFacts(reactions, ts);
      FireKeepsSane(reactions, ts, time);
      AdvanceStep(reactions, ts, time);
      FiringsCons(FiringOf(ts[NextIndex(ts)]), Advance(reactions, Fire(reactions, ts), time).log, consumer, event);
      AbsentKeyStaysAbsent(reactions, Fire(reactions, ts), time, consumer, event);
    }
  }

  /** A one-shot timer fires at its trigger if it is due, before anything else under its key; it is gone for good
      when no reaction sets the key again.  Otherwise it stays as it was. */
  lemma {:induction false} OneShotFires(reactions: Reactions, ts: seq<Timer>, time: nat, t: Timer)
    requires Sorted(ts) && Sane(ts, time) && SaneReactions(reactions, time) && t in ts && !t.repeat
    ensures var r := Advance(reactions, ts, time); var times := FiringsOf(r.log, t.consumer, t.event);
      && (t.trigger <= time ==> times != [] && times[0] == t.trigger)
      && (t.trigger <= time && Untargeted(reactions, t.consumer, t.event) ==>
            times == [t.trigger] && forall u :: u in r.timers ==> !SameKey(u, t.consumer, t.event))
      && (t.trigger > time ==> times == [] && t in r.timers)
    decreases Weight(ts, time)
  {
    hide Sorted, Fire, HasKey, Advance, Weight, NextIndex, Sane, SaneReactions, Spawned;
    if !Due(ts, time) {
      AdvanceStop(reactions, ts, time);
    } else {
      var first := ts[NextIndex(ts)];
      assert first in ts;
      FireFacts(reactions, ts);
      AdvanceStep(reactions, ts, time);
      FiringsCons(FiringOf(first), Advance(reactions, Fire(reactions, ts), time).log, t.consumer, t.event);
      if t == first {
        if Untargeted(reactions, t.consumer, t.event) {
          FiredKeyGone(reactions, ts);
          AbsentKeyStaysAbsent(reactions, Fire(reactions, ts), time, t.consumer, t.event);
        }
      } else {
        DifferentKeys(ts, t, first);
        OneShotFires(reactions, Fire(reactions, ts), time, t);
      }
    }
  }

  lemma FiredKeyGone(reactions: Reactions, ts: seq<Timer>)
    requires Sorted(ts) && ts != [] && !ts[NextIndex(ts)].repeat
    ensures var t := ts[NextIndex(ts)]; Untargeted(reactions, t.consumer, t.event) ==>
      forall u :: u in Fire(reactions, ts) ==> !SameKey(u, t.consumer, t.event)
  {
    hide Sorted, Fire, HasKey, NextIndex;
    var t := ts[NextIndex(ts)];
    FireFacts(reactions, ts);
    forall u | u in ts && u != t ensures !SameKey(u, t.consumer, t.event) {
      DifferentKeys(ts, u, t);
    }
  }

  lemma DifferentKeys(ts: seq<Timer>, a: Timer, b: Timer)
    requires Sorted(ts) && a in ts && b in ts && a != b
    ensures !SameKey(a, b.consumer, b.event)
  {
    var i :| 0 <= i < |ts| && ts[i] == a;
    var j :| 0 <= j < |ts| && ts[j] == b;
  }
}
