/** One day's replay: ticks merged from the stores of several instruments, interleaved with timer firings. */
module Replay {
  import opened Timers

  /** A tick object; it is owned by one pointer, so it belongs to the one store it was loaded into. */
  datatype Tick = Tick(timeInMS: nat, instIndex: nat, lastPrice: real, store: nat)

  datatype Event = Fired(firing: Firing) | Delivered(tick: Tick, consumer: nat)

  const LAST_MS := 23 * 3600 * 1000 + 59 * 60 * 1000 + 59000

  function TimeOf(e: Event): nat {
    match e
    case Fired(f) => f.time
    case Delivered(tick, _) => tick.timeInMS
  }

  // ---------- merging stores ----------

  predicate TimeSorted(ticks: seq<Tick>) {
    forall i, j :: 0 <= i < j < |ticks| ==> ticks[i].timeInMS <= ticks[j].timeInMS
  }

  /** addDataStore: on equal times the newly added store goes first. */
  function Merge(a: seq<Tick>, b: seq<Tick>): seq<Tick>
    decreases |a| + |b|
  {
    if a == [] then b
    else if b == [] then a
    else if a[0].timeInMS < b[0].timeInMS then [a[0]] + Merge(a[1..], b)
    else [b[0]] + Merge(a, b[1..])
  }

  /** Stores added one after another, in the order they arrive. */
  function MergeAll(stores: seq<seq<Tick>>): seq<Tick> {
    if stores == [] then [] else Merge(MergeAll(stores[..|stores| - 1]), stores[|stores| - 1])
  }

  lemma {:induction false} MergeContents(a: seq<Tick>, b: seq<Tick>)
    ensures multiset(Merge(a, b)) == multiset(a) + multiset(b)
    decreases |a| + |b|
  {
    if a != [] && b != [] {
      assert a == [a[0]] + a[1..] && b == [b[0]] + b[1..];
      if a[0].timeInMS < b[0].timeInMS {
        MergeContents(a[1..], b);
      } else {
        MergeContents(a, b[1..]);
      }
    }
  }

  predicate AllFrom(ticks: seq<Tick>, time: nat) {
    forall t :: t in ticks ==> time <= t.timeInMS
  }

  lemma SortedCons(t: Tick, rest: seq<Tick>)
    requires TimeSorted(rest) && AllFrom(rest, t.timeInMS)
    ensures TimeSorted([t] + rest)
  {
  }

  lemma MergedFrom(a: seq<Tick>, b: seq<Tick>, time: nat)
    requires AllFrom(a, time) && AllFrom(b, time)
    ensures AllFrom(Merge(a, b), time)
  {
    MergeContents(a, b);
    forall t | t in Merge(a, b) ensures time <= t.timeInMS {
      assert t in multiset(Merge(a, b));
    }
  }

  lemma {:induction false} MergeSorted(a: seq<Tick>, b: seq<Tick>)
    requires TimeSorted(a) && TimeSorted(b)
    ensures TimeSorted(Merge(a, b))
    decreases |a| + |b|
  {
    if a != [] && b != [] {
      if a[0].timeInMS < b[0].timeInMS {
        MergeSorted(a[1..], b);
        MergedFrom(a[1..], b, a[0].timeInMS);
        SortedCons(a[0], Merge(a[1..], b));
      } else {
        MergeSorted(a, b[1..]);
        MergedFrom(a, b[1..], b[0].timeInMS);
        SortedCons(b[0], Merge(a, b[1..]));
      }
    }
  }

  /** The ticks of one store, in order. */
  function Of(ticks: seq<Tick>, id: nat): seq<Tick> {
    if ticks == [] then []
    else (if ticks[0].store == id then [ticks[0]] else []) + Of(ticks[1..], id)
  }

  lemma {:induction false} OfNone(ticks: seq<Tick>, id: nat)
    requires forall t :: t in ticks ==> t.store != id
    ensures Of(ticks, id) == []
  {
    if ticks != [] {
      OfNone(ticks[1..], id);
    }
  }

  lemma {:induction false} OfAll(ticks: seq<Tick>, id: nat)
    requires forall t :: t in ticks ==> t.store == id
    ensures Of(ticks, id) == ticks
  {
    if ticks != [] {
      OfAll(ticks[1..], id);
    }
  }

  lemma OfCons(t: Tick, rest: seq<Tick>, id: nat)
    ensures Of([t] + rest, id) == (if t.store == id then [t] else []) + Of(rest, id)
  {
    assert ([t] + rest)[1..] == rest;
  }

  /** Merging in another store keeps a store's ticks. */
  lemma {:induction false} MergeOther(a: seq<Tick>, b: seq<Tick>, id: nat)
    requires forall t :: t in b ==> t.store != id
    ensures Of(Merge(a, b), id) == Of(a, id)
    decreases |a| + |b|
  {
    if a == [] {
      OfNone(b, id);
    } else if b != [] {
      if a[0].timeInMS < b[0].timeInMS {
        MergeOther(a[1..], b, id);
        OfCons(a[0], Merge(a[1..], b), id);
      } else {
        MergeOther(a, b[1..], id);
        OfCons(b[0], Merge(a, b[1..]), id);
      }
    }
  }

  /** Merging in a store shows its ticks in their order. */
  lemma {:induction false} MergeOwn(a: seq<Tick>, b: seq<Tick>, id: nat)
    requires (forall t :: t in a ==> t.store != id) && forall t :: t in b ==> t.store == id
    ensures Of(Merge(a, b), id) == b
    decreases |a| + |b|
  {
    if a == [] {
      OfAll(b, id);
    } else if b == [] {
      OfNone(a, id);
    } else if a[0].timeInMS < b[0].timeInMS {
      MergeOwn(a[1..], b, id);
      OfCons(a[0], Merge(a[1..], b), id);
    } else {
      MergeOwn(a, b[1..], id);
      OfCons(b[0], Merge(a, b[1..]), id);
    }
  }

  function AllTicks(stores: seq<seq<Tick>>): multiset<Tick> {
    if stores == [] then multiset{} else AllTicks(stores[..|stores| - 1]) + multiset(stores[|stores| - 1])
  }

  /** The stores hold their own ticks, and no store arrives twice. */
  predicate OwnTicks(stores: seq<seq<Tick>>, ids: seq<nat>) {
    && |stores| == |ids|
    && (forall i, j :: 0 <= i < j < |ids| ==> ids[i] != ids[j])
    && (forall i, t :: 0 <= i < |stores| && t in stores[i] ==> t.store == ids[i])
  }

  lemma {:induction false} MergedTicksComeFrom(stores: seq<seq<Tick>>, t: Tick)
    requires t in MergeAll(stores)
    ensures exists i :: 0 <= i < |stores| && t in stores[i]
  {
    var n := |stores| - 1;
    MergeContents(MergeAll(stores[..n]), stores[n]);
    assert t in multiset(MergeAll(stores));
    if t !in stores[n] {
      assert t in multiset(MergeAll(stores[..n]));
      MergedTicksComeFrom(stores[..n], t);
      var i :| 0 <= i < |stores[..n]| && t in stores[..n][i];
      assert t in stores[i];
    }
  }

  lemma {:induction false} MergeAllSorted(stores: seq<seq<Tick>>)
    requires forall i :: 0 <= i < |stores| ==> TimeSorted(stores[i])
    ensures TimeSorted(MergeAll(stores)) && multiset(MergeAll(stores)) == AllTicks(stores)
  {
    if stores != [] {
      var n := |stores| - 1;
      MergeAllSorted(stores[..n]);
      MergeSorted(MergeAll(stores[..n]), stores[n]);
      MergeContents(MergeAll(stores[..n]), stores[n]);
    }
  }

  lemma {:induction false} MergeAllShows(stores: seq<seq<Tick>>, ids: seq<nat>, i: nat)
    requires OwnTicks(stores, ids) && i < |stores|
    ensures Of(MergeAll(stores), ids[i]) == stores[i]
  {
    var n := |stores| - 1;
    var before := MergeAll(stores[..n]);
    if i < n {
      MergeAllShows(stores[..n], ids[..n], i);
      MergeOther(before, stores[n], ids[i]);
    } else {
      forall t | t in before ensures t.store != ids[n] {
        MergedTicksComeFrom(stores[..n], t);
        var k :| 0 <= k < n && t in stores[..n][k];
        assert t in stores[k];
      }
      MergeOwn(before, stores[n], ids[n]);
    }
  }

  /** Whatever the arrival order of time-sorted stores, the tick list is time-sorted, holds exactly the stores'
      ticks, and shows each store's ticks in their original order. */
  lemma MergeAnyOrder(stores: seq<seq<Tick>>, ids: seq<nat>)
    requires OwnTicks(stores, ids) && forall i :: 0 <= i < |stores| ==> TimeSorted(stores[i])
    ensures TimeSorted(MergeAll(stores)) && multiset(MergeAll(stores)) == AllTicks(stores)
    ensures forall i :: 0 <= i < |stores| ==> Of(MergeAll(stores), ids[i]) == stores[i]
  {
    hide MergeAll;
    MergeAllSorted(stores);
    forall i | 0 <= i < |stores| ensures Of(MergeAll(stores), ids[i]) == stores[i] {
      MergeAllShows(stores, ids, i);
    }
  }

  // ---------- interleaving ticks and timers ----------

  function Firings(log: seq<Firing>): seq<Event> {
    seq(|log|, i requires 0 <= i < |log| => Fired(log[i]))
  }

  function Deliveries(tick: Tick, consumers: seq<nat>): seq<Event> {
    seq(|consumers|, i requires 0 <= i < |consumers| => Delivered(tick, consumers[i]))
  }

  datatype Replayed = Replayed(log: seq<Event>, timers: seq<Timer>)

  /** What is due fires before each tick is delivered to every consumer. */
  ghost function ReplayTicks(reactions: Reactions, ts: seq<Timer>, ticks: seq<Tick>, consumers: seq<nat>,
                             last: nat): Replayed
    requires Sorted(ts) && Sane(ts, last) && SaneReactions(reactions, last)
    requires forall t :: t in ticks ==> t.timeInMS <= last
    decreases |ticks|
  {
    if ticks == [] then Replayed([], ts)
    else
      AdvanceInTwoSteps(reactions, ts, ticks[0].timeInMS, last);
      var adv := Advance(reactions, ts, ticks[0].timeInMS);
      var rest := ReplayTicks(reactions, adv.timers, ticks[1..], consumers, last);
      Replayed(Firings(adv.log) + Deliveries(ticks[0], consumers) + rest.log, rest.timers)
  }

  /** Timers that stay in range, and sorted ticks, up to `last`. */
  ghost predicate ReplayReady(reactions: Reactions, ts: seq<Timer>, ticks: seq<Tick>, last: nat) {
    && Sorted(ts) && Sane(ts, last) && SaneReactions(reactions, last)
    && TimeSorted(ticks) && forall t :: t in ticks ==> t.timeInMS <= last
  }

  lemma {:induction false} TimersStayReady(reactions: Reactions, ts: seq<Timer>, ticks: seq<Tick>, consumers: seq<nat>,
                                           last: nat)
    requires ReplayReady(reactions, ts, ticks, last)
    ensures var r := ReplayTicks(reactions, ts, ticks, consumers, last); Sorted(r.timers) && Sane(r.timers, last)
    decreases |ticks|
  {
    if ticks != [] {
      AdvanceInTwoSteps(reactions, ts, ticks[0].timeInMS, last);
      TimersStayReady(reactions, Advance(reactions, ts, ticks[0].timeInMS).timers, ticks[1..], consumers, last);
    }
  }

  /** The last second of the day, or the last tick when that is later. */
  function Horizon(ticks: seq<Tick>): nat {
    if ticks == [] || ticks[|ticks| - 1].timeInMS <= LAST_MS then LAST_MS else ticks[|ticks| - 1].timeInMS
  }

  /** The timers stay in range and the ticks are sorted; ticks after the last second are allowed. */
  ghost predicate DayReady(reactions: Reactions, ts: seq<Timer>, ticks: seq<Tick>) {
    && Sorted(ts) && Sane(ts, Horizon(ticks)) && SaneReactions(reactions, Horizon(ticks))
    && TimeSorted(ticks)
  }

  lemma DayIsReady(reactions: Reactions, ts: seq<Timer>, ticks: seq<Tick>)
    requires DayReady(reactions, ts, ticks)
    ensures ReplayReady(reactions, ts, ticks, Horizon(ticks))
  {
    hide Sane, SaneReactions, Sorted;
    forall t | t in ticks ensures t.timeInMS <= Horizon(ticks) {
      var i :| 0 <= i < |ticks| && ticks[i] == t;
    }
  }

  ghost function TicksOfDay(reactions: Reactions, ts: seq<Timer>, ticks: seq<Tick>, consumers: seq<nat>): Replayed
    requires DayReady(reactions, ts, ticks)
  {
    DayIsReady(reactions, ts, ticks);
    ReplayTicks(reactions, ts, ticks, consumers, Horizon(ticks))
  }

  /** A whole day: the ticks, then the rest of the timers up to the last second. */
  ghost function ReplayDay(reactions: Reactions, ts: seq<Timer>, ticks: seq<Tick>, consumers: seq<nat>): Replayed
    requires DayReady(reactions, ts, ticks)
  {
    DayIsReady(reactions, ts, ticks);
    TimersStayReady(reactions, ts, ticks, consumers, Horizon(ticks));
    var r := ReplayTicks(reactions, ts, ticks, consumers, Horizon(ticks));
    SaneEarlier(reactions, r.timers, LAST_MS, Horizon(ticks));
    var adv := Advance(reactions, r.timers, LAST_MS);
    Replayed(r.log + Firings(adv.log), adv.timers)
  }

  /** Times never go back, and nothing fires at or before the time of a tick already delivered. */
  predicate WellInterleaved(log: seq<Event>) {
    && (forall i, j :: 0 <= i < j < |log| ==> TimeOf(log[i]) <= TimeOf(log[j]))
    && (forall i, j :: 0 <= i < j < |log| && log[i].Delivered? && log[j].Fired? ==> TimeOf(log[i]) < TimeOf(log[j]))
  }

  /** Every firing is later than `after`, every delivery not earlier. */
  predicate NotBefore(log: seq<Event>, after: int) {
    forall i :: 0 <= i < |log| ==> TimeOf(log[i]) >= after && (log[i].Fired? ==> TimeOf(log[i]) > after)
  }

  lemma AdvanceLog(reactions: Reactions, ts: seq<Timer>, time: nat, after: int)
    requires Sorted(ts) && Sane(ts, time) && SaneReactions(reactions, time)
    requires forall u :: u in ts ==> u.trigger > after
    ensures var r := Advance(reactions, ts, time);
      && (forall u :: u in r.timers ==> u.trigger > time)
      && NotBefore(Firings(r.log), after) && WellInterleaved(Firings(r.log))
      && (forall i :: 0 <= i < |r.log| ==> r.log[i].time <= time)
  {
    hide Advance, Sorted, Sane, SaneReactions, Fire, NextIndex, WellInterleaved, NotBefore, FiresBefore;
    if !Due(ts, time) {
      AdvanceStop(reactions, ts, time);
      NoFirings(after);
    } else {
      var first := FiringOf(ts[NextIndex(ts)]);
      AdvanceStep(reactions, ts, time);
      FiredFirst(reactions, ts, time);
      AdvanceAfter(reactions, Fire(reactions, ts), time, first);
      assert ts[NextIndex(ts)] in ts;
      FiringsInOrder(first, Advance(reactions, Fire(reactions, ts), time).log, time, after);
    }
  }

  lemma NoFirings(after: int)
    ensures NotBefore(Firings([]), after) && WellInterleaved(Firings([]))
  {
  }

  lemma FiringsInOrder(first: Firing, rest: seq<Firing>, time: nat, after: int)
    requires after < first.time <= time
    requires forall i :: 0 <= i < |rest| ==> FiresBefore(first, rest[i]) && rest[i].time <= time
    requires forall i, j :: 0 <= i < j < |rest| ==> FiresBefore(rest[i], rest[j])
    ensures var log := [first] + rest;
      && NotBefore(Firings(log), after) && WellInterleaved(Firings(log))
      && (forall i :: 0 <= i < |log| ==> log[i].time <= time)
  {
  }

  /** Putting a day together: firings up to a tick, its deliveries, and what comes after it. */
  lemma Joined(before: seq<Event>, tick: Tick, consumers: seq<nat>, rest: seq<Event>, after: int)
    requires NotBefore(before, after) && WellInterleaved(before)
    requires (forall i :: 0 <= i < |before| ==> before[i].Fired? && TimeOf(before[i]) <= tick.timeInMS)
    requires tick.timeInMS >= after && NotBefore(rest, tick.timeInMS) && WellInterleaved(rest)
    ensures var all := before + Deliveries(tick, consumers) + rest; NotBefore(all, after) && WellInterleaved(all)
  {
  }

  lemma {:induction false} TicksInterleaved(reactions: Reactions, ts: seq<Timer>, ticks: seq<Tick>,
                                            consumers: seq<nat>, last: nat, after: int)
    requires ReplayReady(reactions, ts, ticks, last)
    requires (forall u :: u in ts ==> u.trigger > after) && forall t :: t in ticks ==> t.timeInMS >= after
    ensures var r := ReplayTicks(reactions, ts, ticks, consumers, last);
      && Sorted(r.timers) && Sane(r.timers, last)
      && NotBefore(r.log + Firings(Advance(reactions, r.timers, last).log), after)
      && WellInterleaved(r.log + Firings(Advance(reactions, r.timers, last).log))
    decreases |ticks|
  {
    hide Advance, Sorted, Sane, WellInterleaved, NotBefore;
    TimersStayReady(reactions, ts, ticks, consumers, last);
    var r := ReplayTicks(reactions, ts, ticks, consumers, last);
    var tail := Firings(Advance(reactions, r.timers, last).log);
    if ticks == [] {
      AdvanceLog(reactions, ts, last, after);
      assert [] + tail == tail;
    } else {
      var tick := ticks[0];
      AdvanceInTwoSteps(reactions, ts, tick.timeInMS, last);
      AdvanceLog(reactions, ts, tick.timeInMS, after);
      var adv := Advance(reactions, ts, tick.timeInMS);
      assert ReplayReady(reactions, adv.timers, ticks[1..], last);
      TicksInterleaved(reactions, adv.timers, ticks[1..], consumers, last, tick.timeInMS);
      var rest := ReplayTicks(reactions, adv.timers, ticks[1..], consumers, last);
      Joined(Firings(adv.log), tick, consumers, rest.log + tail, after);
      var front := Firings(adv.log) + Deliveries(tick, consumers);
      assert r.log + tail == front + (rest.log + tail);
    }
  }

  // ---------- what was delivered, and what fired ----------

  function Deliv(log: seq<Event>): seq<Event> {
    if log == [] then [] else (if log[0].Delivered? then [log[0]] else []) + Deliv(log[1..])
  }

  function Fires(log: seq<Event>): seq<Firing> {
    if log == [] then [] else (if log[0].Fired? then [log[0].firing] else []) + Fires(log[1..])
  }

  lemma Regroup<T>(a: seq<T>, b: seq<T>, c: seq<T>)
    ensures a + (b + c) == (a + b) + c
  {
  }

  lemma DelivCons(x: Event, log: seq<Event>)
    ensures Deliv([x] + log) == (if x.Delivered? then [x] else []) + Deliv(log)
  {
    assert ([x] + log)[1..] == log;
  }

  lemma {:induction false} DelivConcat(a: seq<Event>, b: seq<Event>)
    ensures Deliv(a + b) == Deliv(a) + Deliv(b)
  {
    if a == [] {
      assert a + b == b;
    } else {
      DelivConcat(a[1..], b);
      DelivCons(a[0], a[1..]);
      DelivCons(a[0], a[1..] + b);
      hide Deliv;
      assert a == [a[0]] + a[1..] && a + b == [a[0]] + (a[1..] + b);
      Regroup(if a[0].Delivered? then [a[0]] else [], Deliv(a[1..]), Deliv(b));
    }
  }

  lemma FiresCons(x: Event, log: seq<Event>)
    ensures Fires([x] + log) == (if x.Fired? then [x.firing] else []) + Fires(log)
  {
    assert ([x] + log)[1..] == log;
  }

  lemma {:induction false} FiresConcat(a: seq<Event>, b: seq<Event>)
    ensures Fires(a + b) == Fires(a) + Fires(b)
  {
    if a == [] {
      assert a + b == b;
    } else {
      FiresConcat(a[1..], b);
      FiresCons(a[0], a[1..]);
      FiresCons(a[0], a[1..] + b);
      hide Fires;
      assert a == [a[0]] + a[1..] && a + b == [a[0]] + (a[1..] + b);
      Regroup(if a[0].Fired? then [a[0].firing] else [], Fires(a[1..]), Fires(b));
    }
  }

  /** Firings, then the deliveries of a tick, then the rest. */
  lemma Projections(log: seq<Firing>, tick: Tick, consumers: seq<nat>, rest: seq<Event>)
    ensures var all := Firings(log) + Deliveries(tick, consumers) + rest;
      Deliv(all) == Deliveries(tick, consumers) + Deliv(rest) && Fires(all) == log + Fires(rest)
  {
    hide Deliv, Fires, Firings, Deliveries;
    var front := Firings(log) + Deliveries(tick, consumers);
    DelivConcat(front, rest);
    DelivConcat(Firings(log), Deliveries(tick, consumers));
    FiresConcat(front, rest);
    FiresConcat(Firings(log), Deliveries(tick, consumers));
    OfFirings(log);
    OfDeliveries(tick, consumers);
  }

  lemma {:induction false} OfFirings(log: seq<Firing>)
    ensures Deliv(Firings(log)) == [] && Fires(Firings(log)) == log
  {
    if log != [] {
      OfFirings(log[1..]);
      assert Firings(log)[1..] == Firings(log[1..]);
    }
  }

  lemma {:induction false} OfDeliveries(tick: Tick, consumers: seq<nat>)
    ensures Deliv(Deliveries(tick, consumers)) == Deliveries(tick, consumers)
    ensures Fires(Deliveries(tick, consumers)) == []
  {
    if consumers != [] {
      OfDeliveries(tick, consumers[1..]);
      assert Deliveries(tick, consumers)[1..] == Deliveries(tick, consumers[1..]);
    }
  }

  /** Every tick, in order, once for every consumer. */
  function AllDeliveries(ticks: seq<Tick>, consumers: seq<nat>): seq<Event> {
    if ticks == [] then [] else Deliveries(ticks[0], consumers) + AllDeliveries(ticks[1..], consumers)
  }

  lemma {:induction false} TicksProjected(reactions: Reactions, ts: seq<Timer>, ticks: seq<Tick>, consumers: seq<nat>,
                                          last: nat)
    requires ReplayReady(reactions, ts, ticks, last)
    ensures var r := ReplayTicks(reactions, ts, ticks, consumers, last);
      && Sorted(r.timers) && Sane(r.timers, last)
      && Deliv(r.log) == AllDeliveries(ticks, consumers)
      && var rest := Advance(reactions, r.timers, last);
         Advance(reactions, ts, last) == Advanced(Fires(r.log) + rest.log, rest.timers)
    decreases |ticks|
  {
    hide Advance, Sorted, Sane, Deliv, Fires;
    if ticks == [] {
      AdvanceNothing(Advance(reactions, ts, last));
    } else {
      var tick := ticks[0];
      AdvanceInTwoSteps(reactions, ts, tick.timeInMS, last);
      var adv := Advance(reactions, ts, tick.timeInMS);
      assert ReplayReady(reactions, adv.timers, ticks[1..], last);
      TicksProjected(reactions, adv.timers, ticks[1..], consumers, last);
      var rest := ReplayTicks(reactions, adv.timers, ticks[1..], consumers, last);
      Projections(adv.log, tick, consumers, rest.log);
      Associate(adv.log, Fires(rest.log), Advance(reactions, rest.timers, last).log);
    }
  }

  lemma AdvanceNothing(r: Advanced)
    ensures Deliv([]) == [] && r == Advanced(Fires([]) + r.log, r.timers)
  {
  }

  lemma Associate<T>(a: seq<T>, b: seq<T>, c: seq<T>)
    ensures a + (b + c) == (a + b) + c
  {
  }

  /** After the ticks every timer is later than the last of them. */
  lemma {:induction false} AfterTicks(reactions: Reactions, ts: seq<Timer>, ticks: seq<Tick>, consumers: seq<nat>,
                                      last: nat)
    requires ReplayReady(reactions, ts, ticks, last) && ticks != []
    ensures forall u :: u in ReplayTicks(reactions, ts, ticks, consumers, last).timers ==>
      u.trigger > ticks[|ticks| - 1].timeInMS
    decreases |ticks|
  {
    hide Advance, Sorted, Sane, SaneReactions;
    var time := ticks[0].timeInMS;
    AdvanceInTwoSteps(reactions, ts, time, last);
    AdvanceOrder(reactions, ts, time);
    var adv := Advance(reactions, ts, time);
    if |ticks| == 1 {
      assert ReplayTicks(reactions, adv.timers, ticks[1..], consumers, last).timers == adv.timers;
    } else {
      assert ReplayReady(reactions, adv.timers, ticks[1..], last);
      AfterTicks(reactions, adv.timers, ticks[1..], consumers, last);
    }
  }

  /** Past the last tick nothing is due, so the day ends as it would at its horizon. */
  lemma SameTail(reactions: Reactions, ts: seq<Timer>, ticks: seq<Tick>, consumers: seq<nat>)
    requires DayReady(reactions, ts, ticks)
    ensures ReplayReady(reactions, ts, ticks, Horizon(ticks))
    ensures var r := ReplayTicks(reactions, ts, ticks, consumers, Horizon(ticks));
      && Sorted(r.timers) && Sane(r.timers, Horizon(ticks))
      && Sane(r.timers, LAST_MS) && SaneReactions(reactions, LAST_MS)
      && Advance(reactions, r.timers, Horizon(ticks)) == Advance(reactions, r.timers, LAST_MS)
  {
    hide Advance, Sorted, Sane, SaneReactions;
    DayIsReady(reactions, ts, ticks);
    TimersStayReady(reactions, ts, ticks, consumers, Horizon(ticks));
    var r := ReplayTicks(reactions, ts, ticks, consumers, Horizon(ticks));
    SaneEarlier(reactions, r.timers, LAST_MS, Horizon(ticks));
    if Horizon(ticks) != LAST_MS {
      AfterTicks(reactions, ts, ticks, consumers, Horizon(ticks));
      assert !Due(r.timers, Horizon(ticks)) && !Due(r.timers, LAST_MS);
      AdvanceStop(reactions, r.timers, Horizon(ticks));
      AdvanceStop(reactions, r.timers, LAST_MS);
    }
  }

  /** The log of a day: times never go back; every timer due at or before a tick fires before that tick is
      delivered; each tick reaches every consumer exactly once, in order; and the firings are those of the
      timers alone, as if there were no ticks. */
  lemma DayInterleaving(reactions: Reactions, ts: seq<Timer>, ticks: seq<Tick>, consumers: seq<nat>)
    requires DayReady(reactions, ts, ticks)
    ensures var day := ReplayDay(reactions, ts, ticks, consumers);
      && WellInterleaved(day.log)
      && Deliv(day.log) == AllDeliveries(ticks, consumers)
      && Advance(reactions, ts, Horizon(ticks)) == Advanced(Fires(day.log), day.timers)
  {
    hide Advance, WellInterleaved, Sorted, Sane, SaneReactions, ReplayTicks, Deliv, Fires, Horizon, Firings;
    SameTail(reactions, ts, ticks, consumers);
    var last := Horizon(ticks);
    var r := ReplayTicks(reactions, ts, ticks, consumers, last);
    TicksInterleaved(reactions, ts, ticks, consumers, last, -1);
    TicksProjected(reactions, ts, ticks, consumers, last);
    var tail := Advance(reactions, r.timers, LAST_MS).log;
    DelivConcat(r.log, Firings(tail));
    FiresConcat(r.log, Firings(tail));
    OfFirings(tail);
    assert AllDeliveries(ticks, consumers) + [] == AllDeliveries(ticks, consumers);
  }
}
