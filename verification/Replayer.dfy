/** The simulated clock and the replayer that drives it through a day of ticks. */
module Replayer {
  import opened Timers
  import opened Replay
  import opened StartOfDay

  class FakeTimerProvider {
    const reactions: Reactions
    const dayTimers: DayTimers
    var consumers: seq<nat>      // the keys of allTimers, in order
    var timers: seq<Timer>
    var currentDate: nat
    var currentTime: nat
    var log: seq<Event>

    constructor (reactions: Reactions, dayTimers: DayTimers)
      ensures this.reactions == reactions && this.dayTimers == dayTimers
      ensures consumers == [] && timers == [] && currentDate == 0 && currentTime == 0 && log == []
    {
      this.reactions, this.dayTimers := reactions, dayTimers;
      consumers, timers, currentDate, currentTime, log := [], [], 0, 0, [];
    }

    method SetTimer(consumer: nat, event: nat, timeFromNow: nat, repeat: bool) returns (inserted: bool)
      modifies this`timers
      ensures timers
           == Set(old(timers), Timer(consumer, event, (timeFromNow + currentTime) % UINT32_RANGE, timeFromNow, repeat))
      ensures inserted == !HasKey(old(timers), consumer, event)
    {
      var triggerTime := (timeFromNow + currentTime) % UINT32_RANGE;
      var p := Position(timers, consumer, event);
      inserted := !(p < |timers| && SameKey(timers[p], consumer, event));
      if inserted {
        timers := timers[..p] + [Timer(consumer, event, triggerTime, timeFromNow, repeat)] + timers[p..];
      }
    }

    method CancelTimer(consumer: nat, event: nat) returns (erased: bool)
      modifies this`timers
      ensures timers == Cancel(old(timers), consumer, event) && erased == HasKey(old(timers), consumer, event)
    {
      var p := Position(timers, consumer, event);
      erased := p < |timers| && SameKey(timers[p], consumer, event);
      if erased {
        timers := timers[..p] + timers[p + 1..];
      }
    }

    /** The scan over all timers; -1 stands for the null pointer. */
    method GetNextTimer() returns (ret: int)
      ensures if timers == [] then ret == -1 else ret == NextIndex(timers)
    {
      ret := -1;
      for i := 0 to |timers|
        invariant i == 0 ==> ret == -1
        invariant i > 0 ==> ret == NextIndex(timers[..i])
      {
        assert timers[..i + 1][..i] == timers[..i];
        if ret == -1 {
          ret := i;
        } else if timers[ret].trigger > timers[i].trigger {
          ret := i;
        }
      }
      assert timers[..|timers|] == timers;
    }

    /** The consumer's callback: the strategy sets its repeating timer when the opening timer fires. */
    method OnTimer(consumer: nat, event: nat)
      modifies this`timers
      ensures timers == if (consumer, event) in reactions then
          var r := reactions[(consumer, event)];
          Set(old(timers), Timer(consumer, r.event, (r.interval + currentTime) % UINT32_RANGE, r.interval, r.repeat))
        else old(timers)
    {
      if (consumer, event) in reactions {
        var r := reactions[(consumer, event)];
        var _ := SetTimer(consumer, r.event, r.interval, r.repeat);
      }
    }

    method FireNext(t: Timer)
      requires timers != [] && t == timers[NextIndex(timers)]
      modifies this`timers, this`currentTime, this`log
      ensures timers == Fire(reactions, old(timers)) && log == old(log) + [Fired(FiringOf(t))]
    {
      hide Set, Cancel, NextIndex, Position, HasKey;
      currentTime := t.trigger;
      log := log + [Fired(Firing(currentTime, t.consumer, t.event))];
      OnTimer(t.consumer, t.event);
      var p := Position(timers, t.consumer, t.event);
      if p < |timers| {
        if t.repeat {
          timers := timers[p := t.(trigger := (t.trigger + t.interval) % UINT32_RANGE)];
        } else {
          var _ := CancelTimer(t.consumer, t.event);
        }
      }
    }

    method AdvanceToTime(time: nat)
      requires Sorted(timers) && Sane(timers, time) && SaneReactions(reactions, time)
      modifies this`timers, this`currentTime, this`log
      ensures currentTime == time
      ensures var r := Advance(reactions, old(timers), time); timers == r.timers && log == old(log) + Firings(r.log)
    {
      hide Advance, Sorted, Sane, SaneReactions, Fire, Weight;
      ghost var target := Advance(reactions, timers, time);
      ghost var done: seq<Firing> := [];
      var next := GetNextTimer();
      while next != -1 && timers[next].trigger <= time
        invariant if timers == [] then next == -1 else next == NextIndex(timers)
        invariant Sorted(timers) && Sane(timers, time)
        invariant log == old(log) + Firings(done)
        invariant var rest := Advance(reactions, timers, time); target == Advanced(done + rest.log, rest.timers)
        decreases Weight(timers, time)
      {
        AdvanceStep(reactions, timers, time);
        var t := timers[next];
        ghost var rest := Advance(reactions, Fire(reactions, timers), time);
        assert done + ([FiringOf(t)] + rest.log) == (done + [FiringOf(t)]) + rest.log;
        assert Firings(done + [FiringOf(t)]) == Firings(done) + [Fired(FiringOf(t))];
        FireNext(t);
        done := done + [FiringOf(t)];
        next := GetNextTimer();
      }
      AdvanceStop(reactions, timers, time);
      assert done + [] == done;
      currentTime := time;
    }

    method StartDate(date: nat)
      modifies this`timers, this`currentTime, this`currentDate
      ensures currentDate == date && currentTime == 0
      ensures timers == StartTimers(old(timers), consumers, dayTimers)
    {
      currentDate, currentTime := date, 0;
      var i := 0;
      while i < |consumers|
        invariant 0 <= i <= |consumers| && currentTime == 0 && currentDate == date
        invariant StartTimers(timers, consumers[i..], dayTimers) == StartTimers(old(timers), consumers, dayTimers)
      {
        OnStartDay(consumers[i]);
        i := i + 1;
      }
    }

    /** The consumer's callback at the start of a day. */
    method OnStartDay(consumer: nat)
      requires currentTime == 0
      modifies this`timers
      ensures timers == if consumer in dayTimers then SetEach(old(timers), consumer, dayTimers[consumer])
                        else old(timers)
    {
      hide SetEach, Set, HasKey;
      if consumer in dayTimers {
        var wanted := dayTimers[consumer];
        assert wanted[0..] == wanted;
        var k := 0;
        while k < |wanted|
          invariant 0 <= k <= |wanted|
          invariant SetEach(timers, consumer, wanted[k..]) == SetEach(old(timers), consumer, wanted)
        {
          SetEachNext(timers, consumer, wanted, k);
          var _ := SetTimer(consumer, wanted[k].event, wanted[k].interval, wanted[k].repeat);
          k := k + 1;
        }
        SetNone(timers, consumer, wanted);
      }
    }

    method EndDate(date: nat)
      requires Sorted(timers) && Sane(timers, LAST_MS) && SaneReactions(reactions, LAST_MS)
      modifies this`timers, this`currentTime, this`log
      ensures date == currentDate && date != 0 ==>
        timers == [] && log == old(log) + Firings(Advance(reactions, old(timers), LAST_MS).log)
      ensures !(date == currentDate && date != 0) ==> timers == old(timers) && log == old(log)
    {
      if date == currentDate && date != 0 {
        AdvanceToTime(LAST_MS);
        timers := [];
      }
    }
  }

  class MarketDataReplayer {
    const date: nat
    var allTicks: seq<Tick>

    constructor (date: nat)
      ensures this.date == date && allTicks == []
    {
      this.date := date;
      allTicks := [];
    }

    method AddDataStore(store: seq<Tick>)
      modifies this
      ensures allTicks == Merge(old(allTicks), store)
    {
      hide Merge;
      ghost var merged := Merge(allTicks, store);
      var i1, i2 := 0, 0;
      var result: seq<Tick> := [];
      assert allTicks[0..] == allTicks && store[0..] == store;
      while i1 < |allTicks| && i2 < |store|
        invariant 0 <= i1 <= |allTicks| && 0 <= i2 <= |store|
        invariant result + Merge(allTicks[i1..], store[i2..]) == merged
        decreases |allTicks| - i1 + |store| - i2
      {
        MergeTakes(result, allTicks, store, i1, i2);
        if allTicks[i1].timeInMS < store[i2].timeInMS {
          result := result + [allTicks[i1]];
          i1 := i1 + 1;
        } else {
          result := result + [store[i2]];
          i2 := i2 + 1;
        }
      }
      MergeRest(allTicks, store, i1, i2);
      while i1 < |allTicks|
        invariant 0 <= i1 <= |allTicks| && 0 <= i2 <= |store| && (i1 < |allTicks| ==> i2 == |store|)
        invariant (result + allTicks[i1..]) + store[i2..] == merged
      {
        RestTakes(result, allTicks, i1);
        result := result + [allTicks[i1]];
        i1 := i1 + 1;
      }
      while i2 < |store|
        invariant 0 <= i2 <= |store|
        invariant result + store[i2..] == merged
      {
        RestTakes(result, store, i2);
        result := result + [store[i2]];
        i2 := i2 + 1;
      }
      assert result + store[i2..] == result;
      allTicks := result;
    }

    /** Deliver one tick to every consumer. */
    method Deliver(tick: Tick, consumers: seq<nat>, provider: FakeTimerProvider)
      modifies provider`log
      ensures provider.log == old(provider.log) + Deliveries(tick, consumers)
    {
      for k := 0 to |consumers|
        invariant provider.log == old(provider.log) + Deliveries(tick, consumers[..k])
      {
        assert Deliveries(tick, consumers[..k + 1])
            == Deliveries(tick, consumers[..k]) + [Delivered(tick, consumers[k])];
        provider.log := provider.log + [Delivered(tick, consumers[k])];
      }
      assert consumers[..|consumers|] == consumers;
    }

    /** The loop over the ticks: the clock is advanced to each, and then each is delivered. */
    method ReplayAll(consumers: seq<nat>, provider: FakeTimerProvider, ghost last: nat)
      requires ReplayReady(provider.reactions, provider.timers, allTicks, last)
      modifies provider`timers, provider`currentTime, provider`log
      ensures var r := ReplayTicks(provider.reactions, old(provider.timers), allTicks, consumers, last);
        provider.timers == r.timers && provider.log == old(provider.log) + r.log
    {
      hide ReplayTicks, Sorted, Sane, SaneReactions, Deliveries, TimeSorted;
      ghost var all := ReplayTicks(provider.reactions, provider.timers, allTicks, consumers, last);
      for i := 0 to |allTicks|
        invariant ReplayReady(provider.reactions, provider.timers, allTicks[i..], last)
        invariant var rest := ReplayTicks(provider.reactions, provider.timers, allTicks[i..], consumers, last);
          provider.log + rest.log == old(provider.log) + all.log && rest.timers == all.timers
      {
        ReplayTurn(provider.reactions, provider.timers, allTicks[i..], consumers, last, provider.log);
        provider.AdvanceToTime(allTicks[i].timeInMS);
        Deliver(allTicks[i], consumers, provider);
      }
      ReplayEnds(provider.reactions, provider.timers, consumers, last);
    }

    method StartReplay(consumers: seq<nat>, provider: FakeTimerProvider)
      requires var ts := StartTimers(provider.timers, provider.consumers, provider.dayTimers);
        DayReady(provider.reactions, ts, allTicks)
      modifies provider
      ensures var ts := StartTimers(old(provider.timers), old(provider.consumers), provider.dayTimers);
        if date != 0 then
          provider.timers == [] &&
          provider.log == old(provider.log) + ReplayDay(provider.reactions, ts, allTicks, consumers).log
        else
          var r := TicksOfDay(provider.reactions, ts, allTicks, consumers);
          provider.timers == r.timers && provider.log == old(provider.log) + r.log
      ensures old(provider.timers) == [] && date != 0 ==>
        WishesFire(old(provider.consumers), provider.dayTimers, provider.log[|old(provider.log)|..], Horizon(allTicks))
    {
      if provider.timers == [] {
        AllWishesFire(provider.reactions, provider.consumers, provider.dayTimers, allTicks, consumers);
      }
      hide WishesFire, StartTimers, ReplayDay;
      PlayDay(consumers, provider);
    }

    method PlayDay(consumers: seq<nat>, provider: FakeTimerProvider)
      requires var ts := StartTimers(provider.timers, provider.consumers, provider.dayTimers);
        DayReady(provider.reactions, ts, allTicks)
      modifies provider
      ensures var ts := StartTimers(old(provider.timers), old(provider.consumers), provider.dayTimers);
        if date != 0 then
          provider.timers == [] &&
          provider.log == old(provider.log) + ReplayDay(provider.reactions, ts, allTicks, consumers).log
        else
          var r := TicksOfDay(provider.reactions, ts, allTicks, consumers);
          provider.timers == r.timers && provider.log == old(provider.log) + r.log
    {
      hide Advance, Sorted, Sane, SaneReactions, Deliveries, Horizon, ReplayTicks;
      provider.StartDate(date);
      ghost var ts := provider.timers;
      ghost var last := Horizon(allTicks);
      SameTail(provider.reactions, ts, allTicks, consumers);
      ReplayAll(consumers, provider, last);
      ghost var all := ReplayTicks(provider.reactions, ts, allTicks, consumers, last);
      provider.EndDate(date);
      ghost var tail := Firings(Advance(provider.reactions, all.timers, LAST_MS).log);
      assert (old(provider.log) + all.log) + tail == old(provider.log) + (all.log + tail);
    }
  }

  lemma ReplayTurn(reactions: Reactions, ts: seq<Timer>, ticks: seq<Tick>, consumers: seq<nat>, last: nat,
                   log: seq<Event>)
    requires ReplayReady(reactions, ts, ticks, last) && ticks != []
    ensures Sane(ts, ticks[0].timeInMS) && SaneReactions(reactions, ticks[0].timeInMS)
    ensures var adv := Advance(reactions, ts, ticks[0].timeInMS);
      && ReplayReady(reactions, adv.timers, ticks[1..], last)
      && var rest := ReplayTicks(reactions, adv.timers, ticks[1..], consumers, last);
         var all := ReplayTicks(reactions, ts, ticks, consumers, last);
         && log + all.log == log + Firings(adv.log) + Deliveries(ticks[0], consumers) + rest.log
         && rest.timers == all.timers
  {
    hide Advance, Deliveries, Firings;
    AdvanceInTwoSteps(reactions, ts, ticks[0].timeInMS, last);
  }

  lemma ReplayEnds(reactions: Reactions, ts: seq<Timer>, consumers: seq<nat>, last: nat)
    requires ReplayReady(reactions, ts, [], last)
    ensures ReplayTicks(reactions, ts, [], consumers, last) == Replayed([], ts)
  {
  }

  lemma MergeTakes(result: seq<Tick>, a: seq<Tick>, b: seq<Tick>, i: nat, j: nat)
    requires i < |a| && j < |b|
    ensures result + Merge(a[i..], b[j..]) ==
      if a[i].timeInMS < b[j].timeInMS then (result + [a[i]]) + Merge(a[i + 1..], b[j..])
      else (result + [b[j]]) + Merge(a[i..], b[j + 1..])
  {
    assert a[i..][1..] == a[i + 1..] && b[j..][1..] == b[j + 1..];
    if a[i].timeInMS < b[j].timeInMS {
      assert Merge(a[i..], b[j..]) == [a[i]] + Merge(a[i + 1..], b[j..]);
    } else {
      assert Merge(a[i..], b[j..]) == [b[j]] + Merge(a[i..], b[j + 1..]);
    }
  }

  lemma RestTakes(result: seq<Tick>, s: seq<Tick>, i: nat)
    requires i < |s|
    ensures (result + [s[i]]) + s[i + 1..] == result + s[i..]
  {
  }

  lemma MergeRest(a: seq<Tick>, b: seq<Tick>, i: nat, j: nat)
    requires i <= |a| && j <= |b| && (i == |a| || j == |b|)
    ensures Merge(a[i..], b[j..]) == a[i..] + b[j..]
  {
  }
}
