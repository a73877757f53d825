/** The timers a day starts with, and when they fire. */
module StartOfDay {
  import opened Timers
  import opened Replay

  /** What the consumers set in onStartDay, in consumer order. */
  type DayTimers = map<nat, seq<NewTimer>>

  function SetEach(ts: seq<Timer>, consumer: nat, wanted: seq<NewTimer>): seq<Timer>
    decreases |wanted|
  {
    if wanted == [] then ts
    else
      var w := wanted[0];
      SetEach(Set(ts, Timer(consumer, w.event, w.interval % UINT32_RANGE, w.interval, w.repeat)), consumer, wanted[1..])
  }

  lemma SetEachNext(ts: seq<Timer>, consumer: nat, wanted: seq<NewTimer>, k: nat)
    requires k < |wanted|
    ensures var w := wanted[k];
      SetEach(ts, consumer, wanted[k..]) == SetEach(
        Set(ts, Timer(consumer, w.event, w.interval % UINT32_RANGE, w.interval, w.repeat)), consumer, wanted[k + 1..])
  {
    hide Set;
    assert wanted[k..][1..] == wanted[k + 1..];
  }

  lemma SetNone(ts: seq<Timer>, consumer: nat, wanted: seq<NewTimer>)
    ensures SetEach(ts, consumer, wanted[|wanted|..]) == ts
  {
  }

  function StartTimers(ts: seq<Timer>, consumers: seq<nat>, dayTimers: DayTimers): seq<Timer>
    decreases |consumers|
  {
    if consumers == [] then ts
    else
      var c := consumers[0];
      StartTimers(if c in dayTimers then SetEach(ts, c, dayTimers[c]) else ts, consumers[1..], dayTimers)
  }

  predicate SaneWish(w: NewTimer) {
    w.interval + LAST_MS < UINT32_RANGE && (w.repeat ==> w.interval >= 1)
  }

  lemma WishIsSane(w: NewTimer, t: Timer)
    requires SaneWish(w) && t.trigger == t.interval == w.interval && t.repeat == w.repeat
    ensures SaneTimer(t, LAST_MS)
  {
    if t.repeat {
      BeyondBounds(t.trigger, t.interval, LAST_MS);
    }
  }

  lemma {:induction false} SetEachReady(ts: seq<Timer>, consumer: nat, wanted: seq<NewTimer>)
    requires Sorted(ts) && Sane(ts, LAST_MS) && forall w :: w in wanted ==> SaneWish(w)
    ensures Sorted(SetEach(ts, consumer, wanted)) && Sane(SetEach(ts, consumer, wanted), LAST_MS)
    decreases |wanted|
  {
    if wanted != [] {
      var w := wanted[0];
      assert w in wanted;
      var t := Timer(consumer, w.event, w.interval % UINT32_RANGE, w.interval, w.repeat);
      SetFacts(ts, t);
      WishIsSane(w, t);
      SetEachReady(Set(ts, t), consumer, wanted[1..]);
    }
  }

  /** Every day starts without timers, so whatever the consumers set at its start, the replay is well defined. */
  lemma {:induction false} StartTimersReady(ts: seq<Timer>, consumers: seq<nat>, dayTimers: DayTimers)
    requires Sorted(ts) && Sane(ts, LAST_MS)
    requires forall c, w :: c in dayTimers && w in dayTimers[c] ==> SaneWish(w)
    ensures Sorted(StartTimers(ts, consumers, dayTimers)) && Sane(StartTimers(ts, consumers, dayTimers), LAST_MS)
    decreases |consumers|
  {
    hide Sorted, Sane, SaneWish;
    if consumers != [] {
      var c := consumers[0];
      if c in dayTimers {
        SetEachReady(ts, c, dayTimers[c]);
      }
      StartTimersReady(if c in dayTimers then SetEach(ts, c, dayTimers[c]) else ts, consumers[1..], dayTimers);
    }
  }

  // ---------- which timers a day starts with ----------

  /** The k-th wish, the first for its event. */
  predicate FirstWish(wanted: seq<NewTimer>, k: nat) {
    k < |wanted| && forall j :: 0 <= j < k ==> wanted[j].event != wanted[k].event
  }

  /** The timer a wish of a consumer is set as, when the clock is at 0. */
  function WishedTimer(c: nat, w: NewTimer): Timer {
    Timer(c, w.event, w.interval % UINT32_RANGE, w.interval, w.repeat)
  }

  predicate WishedBy(wanted: seq<NewTimer>, c: nat, u: Timer, k: nat) {
    FirstWish(wanted, k) && u == WishedTimer(c, wanted[k])
  }

  predicate Wished(consumers: seq<nat>, dayTimers: DayTimers, u: Timer, k: nat) {
    u.consumer in consumers && u.consumer in dayTimers && WishedBy(dayTimers[u.consumer], u.consumer, u, k)
  }

  lemma HasKeyIff(ts: seq<Timer>, consumer: nat, event: nat)
    requires Sorted(ts)
    ensures HasKey(ts, consumer, event) <==> exists u :: u in ts && SameKey(u, consumer, event)
  {
    if u :| u in ts && SameKey(u, consumer, event) {
      var i :| 0 <= i < |ts| && ts[i] == u;
      KeyFound(ts, i);
    }
  }

  lemma SetKeys(ts: seq<Timer>, t: Timer, consumer: nat, event: nat)
    requires Sorted(ts)
    ensures HasKey(Set(ts, t), consumer, event) <==> HasKey(ts, consumer, event) || SameKey(t, consumer, event)
  {
    SetFacts(ts, t);
    HasKeyIff(ts, consumer, event);
    HasKeyIff(ts, t.consumer, t.event);
    HasKeyIff(Set(ts, t), consumer, event);
  }

  lemma {:induction false} SetEachAre(ts: seq<Timer>, c: nat, wanted: seq<NewTimer>, u: Timer)
    requires Sorted(ts)
    ensures Sorted(SetEach(ts, c, wanted))
    ensures u in SetEach(ts, c, wanted) <==>
            u in ts || (!HasKey(ts, u.consumer, u.event) && exists k: nat :: WishedBy(wanted, c, u, k))
    decreases |wanted|
  {
    hide Sorted, HasKey, Set;
    if wanted != [] {
      var t := WishedTimer(c, wanted[0]);
      var ts' := Set(ts, t);
      SetFacts(ts, t);
      SetKeys(ts, t, u.consumer, u.event);
      SetEachAre(ts', c, wanted[1..], u);
      LaterWishes(wanted, c, u);
    }
  }

  lemma LaterWishes(wanted: seq<NewTimer>, c: nat, u: Timer)
    requires wanted != []
    ensures (exists k: nat :: WishedBy(wanted, c, u, k)) <==>
            || u == WishedTimer(c, wanted[0])
            || (u.event != wanted[0].event && exists k: nat :: WishedBy(wanted[1..], c, u, k))
  {
    if k: nat :| WishedBy(wanted, c, u, k) && k > 0 {
      assert WishedBy(wanted[1..], c, u, k - 1);
    }
    if u == WishedTimer(c, wanted[0]) {
      assert WishedBy(wanted, c, u, 0);
    }
    if k: nat :| u.event != wanted[0].event && WishedBy(wanted[1..], c, u, k) {
      assert WishedBy(wanted, c, u, k + 1);
    }
  }

  lemma {:induction false} SetEachKeys(ts: seq<Timer>, c: nat, wanted: seq<NewTimer>, consumer: nat, event: nat)
    requires Sorted(ts)
    ensures HasKey(SetEach(ts, c, wanted), consumer, event) <==>
            HasKey(ts, consumer, event) || (consumer == c && exists w :: w in wanted && w.event == event)
    decreases |wanted|
  {
    hide Sorted, HasKey, Set;
    if wanted != [] {
      var t := WishedTimer(c, wanted[0]);
      SetFacts(ts, t);
      SetKeys(ts, t, consumer, event);
      SetEachKeys(Set(ts, t), c, wanted[1..], consumer, event);
      assert wanted == [wanted[0]] + wanted[1..];
    }
  }

  /** Every wish of every consumer is set, the first for its event, unless its key is taken; and nothing else. */
  lemma {:induction false} StartTimersAre(ts: seq<Timer>, consumers: seq<nat>, dayTimers: DayTimers, u: Timer)
    requires Sorted(ts)
    ensures Sorted(StartTimers(ts, consumers, dayTimers))
    ensures u in StartTimers(ts, consumers, dayTimers) <==>
            u in ts || (!HasKey(ts, u.consumer, u.event) && exists k: nat :: Wished(consumers, dayTimers, u, k))
    decreases |consumers|
  {
    hide Sorted, HasKey, SetEach, WishedBy;
    if consumers != [] {
      var c, rest := consumers[0], consumers[1..];
      var ts' := if c in dayTimers then SetEach(ts, c, dayTimers[c]) else ts;
      if c in dayTimers {
        SetEachAre(ts, c, dayTimers[c], u);
        SetEachKeys(ts, c, dayTimers[c], u.consumer, u.event);
        WishedAreWishes(dayTimers[c], c, u);
      }
      StartTimersAre(ts', rest, dayTimers, u);
      WishedHereOrLater(consumers, dayTimers, u);
    }
  }

  lemma WishedAreWishes(wanted: seq<NewTimer>, c: nat, u: Timer)
    ensures forall k: nat :: WishedBy(wanted, c, u, k) ==>
      u.consumer == c && exists w :: w in wanted && w.event == u.event
  {
    forall k: nat | WishedBy(wanted, c, u, k)
      ensures u.consumer == c && exists w :: w in wanted && w.event == u.event
    {
      assert wanted[k] in wanted;
    }
  }

  lemma WishedHereOrLater(consumers: seq<nat>, dayTimers: DayTimers, u: Timer)
    requires consumers != []
    ensures (exists k: nat :: Wished(consumers, dayTimers, u, k)) <==>
      || (u.consumer == consumers[0] && u.consumer in dayTimers
          && exists k: nat :: WishedBy(dayTimers[u.consumer], u.consumer, u, k))
      || exists k: nat :: Wished(consumers[1..], dayTimers, u, k)
  {
    hide WishedBy;
    assert consumers == [consumers[0]] + consumers[1..];
    if k: nat :| Wished(consumers, dayTimers, u, k) && u.consumer in consumers[1..] {
      assert Wished(consumers[1..], dayTimers, u, k);
    }
    if k: nat :| Wished(consumers[1..], dayTimers, u, k) {
      assert Wished(consumers, dayTimers, u, k);
    }
    if k: nat :| u.consumer == consumers[0] && u.consumer in dayTimers
                 && WishedBy(dayTimers[u.consumer], u.consumer, u, k) {
      assert Wished(consumers, dayTimers, u, k);
    }
  }

  /** A day that begins without timers starts with exactly the wishes of its consumers, each the first for its event. */
  lemma DayStartsWith(consumers: seq<nat>, dayTimers: DayTimers, u: Timer)
    ensures u in StartTimers([], consumers, dayTimers) <==> exists k: nat :: Wished(consumers, dayTimers, u, k)
  {
    StartTimersAre([], consumers, dayTimers, u);
  }

  // ---------- when they fire ----------

  /** T, T + d, T + 2d, ... up to `last`, and no other times. */
  predicate Periodic(times: seq<nat>, first: nat, interval: nat, last: nat) {
    && (forall i :: 0 <= i < |times| ==> times[i] == first + i * interval)
    && (forall i :: 0 <= i < |times| ==> times[i] <= last)
    && first + |times| * interval > last
  }

  lemma {:induction false} SchedulePeriodic(first: nat, interval: nat, last: nat)
    requires interval >= 1
    ensures Periodic(Schedule(first, interval, last), first, interval, last)
    decreases last + 1 - first
  {
    if first <= last {
      SchedulePeriodic(first + interval, interval, last);
      var rest := Schedule(first + interval, interval, last);
      OneMore(|rest|, interval);
      forall i | 0 <= i < |rest| + 1 ensures ([first] + rest)[i] == first + i * interval {
        if i > 0 {
          OneMore(i - 1, interval);
        }
      }
    }
  }

  /** A timer that a consumer wishes to repeat fires through the day at exactly d, 2d, 3d, ... */
  lemma RepeatingWishFires(reactions: Reactions, consumers: seq<nat>, dayTimers: DayTimers, ticks: seq<Tick>,
                           targets: seq<nat>, c: nat, k: nat)
    requires DayReady(reactions, StartTimers([], consumers, dayTimers), ticks)
    requires c in consumers && c in dayTimers && FirstWish(dayTimers[c], k)
    requires dayTimers[c][k].repeat && 1 <= dayTimers[c][k].interval < UINT32_RANGE
    ensures var w := dayTimers[c][k];
      var day := ReplayDay(reactions, StartTimers([], consumers, dayTimers), ticks, targets);
      Periodic(FiringsOf(Fires(day.log), c, w.event), w.interval, w.interval, Horizon(ticks))
  {
    hide Advance, StartTimers, Horizon, Fires, FiringsOf, Periodic;
    var ts, w := StartTimers([], consumers, dayTimers), dayTimers[c][k];
    var t := WishedTimer(c, w);
    assert Wished(consumers, dayTimers, t, k);
    DayStartsWith(consumers, dayTimers, t);
    DayInterleaving(reactions, ts, ticks, targets);
    RepeatingTimerFires(reactions, ts, Horizon(ticks), t);
    SchedulePeriodic(w.interval, w.interval, Horizon(ticks));
  }

  /** Only the firing of event e of the consumer sets its event e'. */
  predicate OnlySource(reactions: Reactions, c: nat, e: nat, e': nat) {
    forall k :: k in reactions && k.0 == c && reactions[k].event == e' ==> k.1 == e
  }

  /** A timer that fires once and whose callback sets a repeating one: the second fires at T + d, T + 2d, ... */
  lemma {:induction false} ReactionFires(reactions: Reactions, ts: seq<Timer>, time: nat, t: Timer)
    requires Sorted(ts) && Sane(ts, time) && SaneReactions(reactions, time) && t in ts && !t.repeat
    requires (t.consumer, t.event) in reactions && reactions[(t.consumer, t.event)].repeat
    requires OnlySource(reactions, t.consumer, t.event, reactions[(t.consumer, t.event)].event)
    requires !HasKey(ts, t.consumer, reactions[(t.consumer, t.event)].event)
    ensures var r := reactions[(t.consumer, t.event)];
      FiringsOf(Advance(reactions, ts, time).log, t.consumer, r.event)
      == if t.trigger <= time then Schedule(t.trigger + r.interval, r.interval, time) else []
    decreases Weight(ts, time)
  {
    hide Sorted, Fire, HasKey, Advance, Weight, NextIndex, Sane;
    var r := reactions[(t.consumer, t.event)];
    if !Due(ts, time) {
      AdvanceStop(reactions, ts, time);
    } else {
      var first := ts[NextIndex(ts)];
      var ts' := Fire(reactions, ts);
      assert first in ts;
      FireFacts(reactions, ts);
      AdvanceStep(reactions, ts, time);
      FiringsCons(FiringOf(first), Advance(reactions, ts', time).log, t.consumer, r.event);
      HasKeyIff(ts, t.consumer, r.event);
      if t == first {
        var u := Timer(t.consumer, r.event, r.interval + t.trigger, r.interval, r.repeat);
        assert Spawned(reactions, t) == [u];
        RepeatingTimerFires(reactions, ts', time, u);
      } else {
        DifferentKeys(ts, t, first);
        HasKeyIff(ts', t.consumer, r.event);
        ReactionFires(reactions, ts', time, t);
      }
    }
  }

  /** The timer that opens the day fires once, and the one its callback sets fires at a, a + d, a + 2d, ... */
  lemma OpeningWishFires(reactions: Reactions, consumers: seq<nat>, dayTimers: DayTimers, ticks: seq<Tick>,
                         targets: seq<nat>, c: nat, k: nat)
    requires DayReady(reactions, StartTimers([], consumers, dayTimers), ticks)
    requires c in consumers && c in dayTimers && FirstWish(dayTimers[c], k)
    requires !dayTimers[c][k].repeat && dayTimers[c][k].interval <= LAST_MS
    requires (c, dayTimers[c][k].event) in reactions && reactions[(c, dayTimers[c][k].event)].repeat
    requires Untargeted(reactions, c, dayTimers[c][k].event)
    requires var e' := reactions[(c, dayTimers[c][k].event)].event;
      OnlySource(reactions, c, dayTimers[c][k].event, e') && forall w :: w in dayTimers[c] ==> w.event != e'
    ensures var w := dayTimers[c][k]; var r := reactions[(c, w.event)];
      var day := ReplayDay(reactions, StartTimers([], consumers, dayTimers), ticks, targets);
      && FiringsOf(Fires(day.log), c, w.event) == [w.interval]
      && Periodic(FiringsOf(Fires(day.log), c, r.event), w.interval + r.interval, r.interval, Horizon(ticks))
  {
    hide Advance, StartTimers, Fires, FiringsOf, Periodic, HasKey;
    var ts, w, last := StartTimers([], consumers, dayTimers), dayTimers[c][k], Horizon(ticks);
    var r, t := reactions[(c, w.event)], WishedTimer(c, w);
    assert Wished(consumers, dayTimers, t, k);
    DayStartsWith(consumers, dayTimers, t);
    DayInterleaving(reactions, ts, ticks, targets);
    OneShotFires(reactions, ts, last, t);
    NoneOfKey(consumers, dayTimers, c, r.event);
    ReactionFires(reactions, ts, last, t);
    SchedulePeriodic(w.interval + r.interval, r.interval, last);
  }

  lemma NoneOfKey(consumers: seq<nat>, dayTimers: DayTimers, c: nat, event: nat)
    requires c in dayTimers && forall w :: w in dayTimers[c] ==> w.event != event
    ensures !HasKey(StartTimers([], consumers, dayTimers), c, event)
  {
    hide StartTimers, HasKey;
    var ts := StartTimers([], consumers, dayTimers);
    forall u | u in ts ensures !SameKey(u, c, event) {
      DayStartsWith(consumers, dayTimers, u);
    }
    StartTimersAre([], consumers, dayTimers, Timer(c, event, 0, 0, false));
    HasKeyIff(ts, c, event);
  }

  /** Every repeating wish fires through the day at exactly d, 2d, 3d, ... */
  ghost predicate WishesFire(consumers: seq<nat>, dayTimers: DayTimers, log: seq<Event>, last: nat) {
    forall c, k: nat ::
      c in consumers && c in dayTimers && FirstWish(dayTimers[c], k)
      && dayTimers[c][k].repeat && 1 <= dayTimers[c][k].interval < UINT32_RANGE ==>
        Periodic(FiringsOf(Fires(log), c, dayTimers[c][k].event),
                 dayTimers[c][k].interval, dayTimers[c][k].interval, last)
  }

  lemma AllWishesFire(reactions: Reactions, consumers: seq<nat>, dayTimers: DayTimers, ticks: seq<Tick>,
                      targets: seq<nat>)
    requires DayReady(reactions, StartTimers([], consumers, dayTimers), ticks)
    ensures WishesFire(consumers, dayTimers,
                       ReplayDay(reactions, StartTimers([], consumers, dayTimers), ticks, targets).log, Horizon(ticks))
  {
    hide StartTimers, Fires, FiringsOf, Periodic, DayReady, ReplayDay, Horizon;
    forall c, k: nat | c in consumers && c in dayTimers && FirstWish(dayTimers[c], k)
                       && dayTimers[c][k].repeat && 1 <= dayTimers[c][k].interval < UINT32_RANGE
      ensures var day := ReplayDay(reactions, StartTimers([], consumers, dayTimers), ticks, targets);
        Periodic(FiringsOf(Fires(day.log), c, dayTimers[c][k].event),
                 dayTimers[c][k].interval, dayTimers[c][k].interval, Horizon(ticks))
    {
      RepeatingWishFires(reactions, consumers, dayTimers, ticks, targets, c, k);
    }
  }

  // ---------- the strategy's own timers ----------

  const OPENING_MS := 9 * 3600 * 1000 - 500

  /** Every strategy asks for event 1 half a second before nine, and then for event 2 every half second. */
  function StrategyWishes(consumers: seq<nat>): DayTimers {
    map c | c in consumers :: [NewTimer(1, OPENING_MS, false)]
  }

  function StrategyReactions(consumers: seq<nat>): Reactions {
    map c | c in consumers :: (c, 1) := NewTimer(2, 500, true)
  }

  /** In a day of strategies each fires event 1 once, at 08:59:59.5, and event 2 from nine on, every half second. */
  lemma StrategyTimersFire(consumers: seq<nat>, ticks: seq<Tick>, targets: seq<nat>, c: nat)
    requires TimeSorted(ticks) && Horizon(ticks) + 500 < UINT32_RANGE && c in consumers
    ensures var reactions, ts := StrategyReactions(consumers), StartTimers([], consumers, StrategyWishes(consumers));
      && DayReady(reactions, ts, ticks)
      && var log := Fires(ReplayDay(reactions, ts, ticks, targets).log);
         && FiringsOf(log, c, 1) == [32399500]
         && Periodic(FiringsOf(log, c, 2), 32400000, 500, Horizon(ticks))
  {
    hide Fires, FiringsOf, Periodic, StartTimers, Horizon, ReplayDay;
    var reactions, wishes := StrategyReactions(consumers), StrategyWishes(consumers);
    StrategyDayReady(consumers, ticks);
    OpeningWishFires(reactions, consumers, wishes, ticks, targets, c, 0);
  }

  lemma StrategyDayReady(consumers: seq<nat>, ticks: seq<Tick>)
    requires TimeSorted(ticks) && Horizon(ticks) + 500 < UINT32_RANGE
    ensures DayReady(StrategyReactions(consumers), StartTimers([], consumers, StrategyWishes(consumers)), ticks)
  {
    hide StartTimers, Horizon;
    var wishes := StrategyWishes(consumers);
    var ts := StartTimers([], consumers, wishes);
    StartTimersAre([], consumers, wishes, Timer(0, 0, 0, 0, false));
    forall u | u in ts ensures SaneTimer(u, Horizon(ticks)) {
      DayStartsWith(consumers, wishes, u);
    }
  }
}
