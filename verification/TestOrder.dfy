/** The order in which test cases are registered and run. */
module TestOrder {

  import opened Arithmetic
  import opened Filters
  import opened Shuffling

  // ---------- registration ----------

  /** The names of the test cases, the death test cases being the first deaths of them. */
  datatype Order = Order(names: seq<string>, deaths: nat)

  predicate WellFormed(o: Order) {
    && o.deaths <= |o.names|
    && (forall k :: 0 <= k < o.deaths ==> IsDeathTestCase(o.names[k]))
    && (forall k :: o.deaths <= k < |o.names| ==> !IsDeathTestCase(o.names[k]))
  }

  /** A new death test case goes behind the last one, any other to the end. */
  function Registered(o: Order, name: string): Order
    requires o.deaths <= |o.names|
  {
    if name in o.names then o
    else if IsDeathTestCase(name) then Order(o.names[..o.deaths] + [name] + o.names[o.deaths..], o.deaths + 1)
    else Order(o.names + [name], o.deaths)
  }

  lemma RegisteredKeeps(o: Order, name: string)
    requires WellFormed(o)
    ensures WellFormed(Registered(o, name))
  {
    hide IsDeathTestCase;
    var after := Registered(o, name);
    if name !in o.names && IsDeathTestCase(name) {
      assert forall k :: 0 <= k < o.deaths ==> after.names[k] == o.names[k];
      assert forall k :: o.deaths < k < |after.names| ==> after.names[k] == o.names[k - 1];
    }
  }

  /** The order after the names have been registered one after another. */
  function RegisterAll(names: seq<string>): (o: Order)
    ensures o.deaths <= |o.names|
  {
    if names == [] then Order([], 0) else Registered(RegisterAll(names[..|names| - 1]), names[|names| - 1])
  }

  /** The different names, by first registration. */
  function FirstSeen(names: seq<string>): seq<string> {
    if names == [] then []
    else
      var before, name := FirstSeen(names[..|names| - 1]), names[|names| - 1];
      if name in before then before else before + [name]
  }

  function Keep(names: seq<string>, death: bool): seq<string> {
    if names == [] then []
    else Keep(names[..|names| - 1], death) +
         if IsDeathTestCase(names[|names| - 1]) == death then [names[|names| - 1]] else []
  }

  lemma {:induction false} KeepMembers(names: seq<string>, name: string)
    ensures name in names <==> name in Keep(names, true) + Keep(names, false)
  {
    hide IsDeathTestCase;
    if names != [] {
      KeepMembers(names[..|names| - 1], name);
      assert names == names[..|names| - 1] + [names[|names| - 1]];
    }
  }

  /** Whatever is registered, the death test cases come first, and both kinds are in the order of first registration. */
  lemma {:induction false} RegistrationOrder(names: seq<string>)
    ensures var o, seen := RegisterAll(names), FirstSeen(names);
      o.names == Keep(seen, true) + Keep(seen, false) && o.deaths == |Keep(seen, true)|
  {
    hide IsDeathTestCase;
    if names != [] {
      var before, name := names[..|names| - 1], names[|names| - 1];
      RegistrationOrder(before);
      KeepMembers(FirstSeen(before), name);
      assert (FirstSeen(before) + [name])[..|FirstSeen(before)|] == FirstSeen(before);
    }
  }

  // ---------- shuffling ----------

  function Identity(n: nat): seq<nat> {
    seq(n, i => i)
  }

  predicate IsPermutation(s: seq<nat>) {
    multiset(s) == multiset(Identity(|s|))
  }

  lemma InRange(s: seq<nat>, k: nat)
    requires IsPermutation(s) && k < |s|
    ensures s[k] < |s|
  {
    assert s[k] in multiset(s);
    assert s[k] in Identity(|s|);
  }

  /** The elements at the given positions. */
  function Picked<T>(all: seq<T>, positions: seq<nat>): seq<T>
    requires InBounds(all, positions)
  {
    seq(|positions|, k requires 0 <= k < |positions| => all[positions[k]])
  }

  predicate InBounds<T>(all: seq<T>, positions: seq<nat>) {
    forall k :: 0 <= k < |positions| ==> positions[k] < |all|
  }

  lemma PickedJoined<T>(all: seq<T>, s: seq<nat>, t: seq<nat>)
    requires InBounds(all, s + t)
    ensures InBounds(all, s) && InBounds(all, t) && Picked(all, s + t) == Picked(all, s) + Picked(all, t)
  {
    assert forall k :: 0 <= k < |s| ==> (s + t)[k] == s[k];
    assert forall k :: 0 <= k < |t| ==> (s + t)[|s| + k] == t[k];
  }

  lemma Removed(s: seq<nat>, k: nat)
    requires k < |s|
    ensures s == s[..k] + ([s[k]] + s[k + 1..]) && multiset(s[..k] + s[k + 1..]) == multiset(s) - multiset{s[k]}
  {
    assert s == s[..k] + ([s[k]] + s[k + 1..]);
  }

  lemma PickedWithout<T>(all: seq<T>, s: seq<nat>, k: nat)
    requires InBounds(all, s) && k < |s|
    ensures InBounds(all, s[..k] + s[k + 1..])
    ensures multiset(Picked(all, s)) == multiset(Picked(all, s[..k] + s[k + 1..])) + multiset{all[s[k]]}
  {
    hide Picked;
    Removed(s, k);
    PickedJoined(all, s[..k], [s[k]] + s[k + 1..]);
    PickedJoined(all, [s[k]], s[k + 1..]);
    PickedJoined(all, s[..k], s[k + 1..]);
    assert Picked(all, [s[k]]) == [all[s[k]]] by {
      PickedOne(all, s[k]);
    }
  }

  lemma PickedOne<T>(all: seq<T>, x: nat)
    requires x < |all|
    ensures Picked(all, [x]) == [all[x]]
  {
  }

  /** What is picked depends on the positions only up to order. */
  lemma {:induction false} PickedSame<T>(all: seq<T>, s: seq<nat>, t: seq<nat>)
    requires multiset(s) == multiset(t) && InBounds(all, s) && InBounds(all, t)
    ensures multiset(Picked(all, s)) == multiset(Picked(all, t))
    decreases |s|
  {
    assert |multiset(s)| == |s| && |multiset(t)| == |t|;
    if s == [] {
      assert t == [];
    } else {
      hide Picked;
      assert s[0] in multiset(t);
      var k :| 0 <= k < |t| && t[k] == s[0];
      Removed(s, 0);
      Removed(t, k);
      PickedWithout(all, s, 0);
      PickedWithout(all, t, k);
      PickedSame(all, s[..0] + s[1..], t[..k] + t[k + 1..]);
    }
  }

  /** A permutation of the positions picks a permutation of the elements. */
  lemma PickedPermutation<T>(all: seq<T>, s: seq<nat>)
    requires IsPermutation(s) && |s| == |all|
    ensures InBounds(all, s) && multiset(Picked(all, s)) == multiset(all)
  {
    forall k | 0 <= k < |s| ensures s[k] < |all| {
      InRange(s, k);
    }
    PickedSame(all, s, Identity(|s|));
    assert Picked(all, Identity(|s|)) == all;
  }

  class Random {
    var state: nat

    constructor (seed: nat)
      ensures state == seed
    {
      state := seed;
    }

    method Reseed(seed: nat)
      modifies this
      ensures state == seed
    {
      state := seed;
    }

    /** A number below the range; 32-bit arithmetic, the state kept in 31 bits. */
    method Generate(range: nat) returns (r: nat)
      requires 0 < range <= MAX_RANGE
      modifies this
      ensures r < range && state < MAX_RANGE
      ensures state == (1103515245 * old(state) + 12345) % MAX_RANGE == NextState(old(state)) && r == state % range
    {
      var next := 1103515245 * state + 12345;
      ModOfMod(next, 0x1_0000_0000, MAX_RANGE);
      state := next % 0x1_0000_0000 % MAX_RANGE;
      r := state % range;
    }
  }

  class IntVector {
    var elems: seq<nat>

    constructor ()
      ensures elems == []
    {
      elems := [];
    }
  }

  /** Draws the range from the back with the generator's numbers; nothing else moves. */
  method ShuffleRange(random: Random, begin: nat, end: nat, v: IntVector)
    requires begin <= end <= |v.elems| && end - begin <= MAX_RANGE
    modifies random, v
    ensures |v.elems| == |old(v.elems)|
    ensures v.elems[begin..end] == Shuffled(old(v.elems)[begin..end], old(random.state))
    ensures random.state == StateAfter(old(random.state), Draws(end - begin))
    ensures v.elems[..begin] == old(v.elems)[..begin] && v.elems[end..] == old(v.elems)[end..]
    ensures multiset(v.elems[begin..end]) == multiset(old(v.elems)[begin..end])
  {
    hide Shuffled, StateAfter, Swapped, NextState;
    ghost var range := v.elems[begin..end];
    var rangeWidth := end - begin;
    NothingDrawn(v.elems, begin, end, random.state);
    while rangeWidth >= 2
      invariant 0 <= rangeWidth <= end - begin && |v.elems| == |old(v.elems)|
      invariant v.elems[..begin] == old(v.elems)[..begin] && v.elems[end..] == old(v.elems)[end..]
      invariant DrawnSoFar(v.elems, begin, rangeWidth, end, random.state) == Shuffled(range, old(random.state))
      invariant StateAfter(random.state, Draws(rangeWidth)) == StateAfter(old(random.state), Draws(end - begin))
    {
      var lastInRange := begin + rangeWidth - 1;
      ghost var state := random.state;
      var selected := random.Generate(rangeWidth);
      DrawOne(v.elems, begin, rangeWidth, end, state, random.state, selected);
      selected := begin + selected;
      SwapInRange(v.elems, begin, end, selected, lastInRange);
      v.elems := Swapped(v.elems, selected, lastInRange);
      rangeWidth := rangeWidth - 1;
    }
    AllDrawn(v.elems, begin, rangeWidth, end, random.state);
    ShuffledMembers(range, old(random.state));
  }

  /** The part of the range still to draw from, drawn, and the part done. */
  function DrawnSoFar(s: seq<nat>, begin: nat, width: nat, end: nat, state: nat): seq<nat>
    requires begin + width <= end <= |s|
  {
    Shuffled(s[begin..begin + width], state) + s[begin + width..end]
  }

  lemma NothingDrawn(s: seq<nat>, begin: nat, end: nat, state: nat)
    requires begin <= end <= |s|
    ensures DrawnSoFar(s, begin, end - begin, end, state) == Shuffled(s[begin..end], state)
  {
    hide Shuffled;
    assert s[end..end] == [];
  }

  lemma AllDrawn(s: seq<nat>, begin: nat, width: nat, end: nat, state: nat)
    requires begin + width <= end <= |s| && width < 2
    ensures DrawnSoFar(s, begin, width, end, state) == s[begin..end] && StateAfter(state, Draws(width)) == state
  {
  }

  lemma DrawOne(s: seq<nat>, begin: nat, width: nat, end: nat, state: nat, next: nat, p: nat)
    requires begin + width <= end <= |s| && width >= 2
    requires next == NextState(state) && p == next % width && p < width
    ensures DrawnSoFar(Swapped(s, begin + p, begin + width - 1), begin, width - 1, end, next)
         == DrawnSoFar(s, begin, width, end, state)
    ensures StateAfter(next, Draws(width - 1)) == StateAfter(state, Draws(width))
  {
    hide NextState, Shuffled, LeftAfter, Swapped;
    var range := s[begin..begin + width];
    ShuffledStep(range, state);
    SwapDraws(s, begin, p, width, end);
    Regroup(Shuffled(LeftAfter(range, p), next), [range[p]], s[begin + width..end]);
  }

  lemma Regroup<T>(a: seq<T>, b: seq<T>, c: seq<T>)
    ensures (a + b) + c == a + (b + c)
  {
  }

  lemma SwapDraws(s: seq<nat>, begin: nat, p: nat, width: nat, end: nat)
    requires begin + width <= end <= |s| && p < width
    ensures var range, t := s[begin..begin + width], Swapped(s, begin + p, begin + width - 1);
      && t[begin..begin + (width - 1)] == LeftAfter(range, p)
      && t[begin + (width - 1)..end] == [range[p]] + s[begin + width..end]
  {
    var range, t, last := s[begin..begin + width], Swapped(s, begin + p, begin + width - 1), width - 1;
    LeftAt(range, p);
    hide LeftAfter;
    assert forall k :: 0 <= k < last ==> t[begin..begin + last][k] == LeftAfter(range, p)[k];
  }

  lemma LeftAt<T>(rest: seq<T>, p: nat)
    requires p < |rest|
    ensures forall k :: 0 <= k < |rest| - 1 ==> LeftAfter(rest, p)[k] == if k == p then rest[|rest| - 1] else rest[k]
  {
  }

  function Swapped<T>(s: seq<T>, i: nat, j: nat): seq<T>
    requires i < |s| && j < |s|
  {
    s[i := s[j]][j := s[i]]
  }

  lemma SwapInRange<T>(s: seq<T>, begin: nat, end: nat, i: nat, j: nat)
    requires begin <= i < end && begin <= j < end <= |s|
    ensures var t := Swapped(s, i, j);
      |t| == |s| && t[..begin] == s[..begin] && t[end..] == s[end..] &&
      multiset(t[begin..end]) == multiset(s[begin..end])
  {
    var t, m := Swapped(s, i, j), s[begin..end];
    assert t[begin..end] == m[i - begin := m[j - begin]][j - begin := m[i - begin]];
  }

  /** Shuffling the first d and the rest of a permutation apart keeps it a permutation, and keeps the first d first. */
  lemma RangesApart(s: seq<nat>, t: seq<nat>, d: nat)
    requires IsPermutation(s) && |t| == |s| && d <= |s|
    requires multiset(t[..d]) == multiset(s[..d]) && multiset(t[d..]) == multiset(s[d..])
    ensures IsPermutation(t)
    ensures (forall k :: 0 <= k < d ==> s[k] < d) ==> forall k :: 0 <= k < d ==> t[k] < d
    ensures (forall k :: d <= k < |s| ==> s[k] >= d) ==> forall k :: d <= k < |s| ==> t[k] >= d
  {
    assert s == s[..d] + s[d..] && t == t[..d] + t[d..];
    forall k | 0 <= k < d ensures t[k] in s[..d] {
      assert t[k] in multiset(t[..d]);
    }
    forall k | d <= k < |s| ensures t[k] in s[d..] {
      assert t[k] == t[d..][k - d] && t[k] in multiset(t[d..]);
    }
  }
}
