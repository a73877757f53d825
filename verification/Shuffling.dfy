/** The shuffle as a function of the generator's numbers: Fisher-Yates from the back, and why every order comes from
    exactly one sequence of numbers. */
module Shuffling {

  const MAX_RANGE := 0x8000_0000

  // ---------- the generator ----------

  /** Kept in 31 bits. */
  function NextState(state: nat): nat {
    (1103515245 * state + 12345) % MAX_RANGE
  }

  function StateAfter(state: nat, draws: nat): nat
    decreases draws
  {
    if draws == 0 then state else StateAfter(NextState(state), draws - 1)
  }

  /** How many numbers a range of that width takes. */
  function Draws(width: nat): nat {
    if width < 2 then 0 else width - 1
  }

  /** The numbers drawn for a range of that width: the first below width, the next below width - 1, down to 2. */
  function Picks(state: nat, width: nat): seq<nat>
    decreases width
  {
    if width < 2 then [] else [NextState(state) % width] + Picks(NextState(state), width - 1)
  }

  predicate ValidPicks(picks: seq<nat>, width: nat) {
    |picks| == Draws(width) && forall j :: 0 <= j < |picks| ==> picks[j] < width - j
  }

  lemma {:induction false} PicksAreValid(state: nat, width: nat)
    ensures ValidPicks(Picks(state, width), width)
    decreases width
  {
    if width >= 2 {
      PicksAreValid(NextState(state), width - 1);
    }
  }

  /** The j-th number drawn is the j-th number of the generator, modulo what is left of the range. */
  lemma {:induction false} PickAt(state: nat, width: nat, j: nat)
    requires j < Draws(width)
    ensures |Picks(state, width)| == Draws(width) && Picks(state, width)[j] == StateAfter(state, j + 1) % (width - j)
    decreases width
  {
    PicksAreValid(state, width);
    PicksAreValid(NextState(state), width - 1);
    if j > 0 {
      PickAt(NextState(state), width - 1, j - 1);
    }
  }

  lemma {:induction false} StateAfterMore(state: nat, a: nat, b: nat)
    ensures StateAfter(StateAfter(state, a), b) == StateAfter(state, a + b)
    decreases a
  {
    if a > 0 {
      StateAfterMore(NextState(state), a - 1, b);
    }
  }

  // ---------- drawing ----------

  /** What is left when the element at p is drawn: the last one moves into the hole. */
  function LeftAfter<T>(rest: seq<T>, p: nat): (left: seq<T>)
    requires p < |rest|
    ensures |left| == |rest| - 1
  {
    var last := |rest| - 1;
    if p == last then rest[..last] else rest[..p] + [rest[last]] + rest[p + 1..last]
  }

  /** The elements in the order drawn, the first one at the end. */
  function Drawn<T>(rest: seq<T>, picks: seq<nat>): (all: seq<T>)
    requires ValidPicks(picks, |rest|)
    ensures |all| == |rest|
    decreases |rest|
  {
    if |rest| < 2 then rest
    else
      NextPicks(picks, |rest|);
      Drawn(LeftAfter(rest, picks[0]), picks[1..]) + [rest[picks[0]]]
  }

  lemma NextPicks(picks: seq<nat>, width: nat)
    requires ValidPicks(picks, width) && width >= 2
    ensures picks[0] < width && ValidPicks(picks[1..], width - 1)
  {
    forall j | 0 <= j < |picks[1..]| ensures picks[1..][j] < width - 1 - j {
      assert picks[1..][j] == picks[j + 1];
    }
  }

  /** What is left after j draws. */
  function Left<T>(rest: seq<T>, picks: seq<nat>, j: nat): (left: seq<T>)
    requires ValidPicks(picks, |rest|) && j <= |picks|
    ensures |left| == |rest| - j
    decreases j
  {
    if j == 0 then rest
    else
      NextPicks(picks, |rest|);
      Left(LeftAfter(rest, picks[0]), picks[1..], j - 1)
  }

  /** The j-th place from the end holds the element at the j-th pick of what was left then; what is left last is
      first. */
  lemma {:induction false} DrawnAt<T>(rest: seq<T>, picks: seq<nat>, j: nat)
    requires ValidPicks(picks, |rest|) && rest != []
    ensures j < |picks| ==> Drawn(rest, picks)[|rest| - 1 - j] == Left(rest, picks, j)[picks[j]]
    ensures Drawn(rest, picks)[0] == Left(rest, picks, |picks|)[0]
    decreases |rest|
  {
    if |rest| >= 2 {
      NextPicks(picks, |rest|);
      DrawnAt(LeftAfter(rest, picks[0]), picks[1..], if j > 0 then j - 1 else 0);
    }
  }

  lemma LeftMembers<T>(rest: seq<T>, p: nat)
    requires p < |rest|
    ensures multiset(LeftAfter(rest, p)) == multiset(rest) - multiset{rest[p]}
  {
    var last := |rest| - 1;
    assert rest == rest[..last] + [rest[last]];
    if p < last {
      assert rest[..last] == rest[..p] + [rest[p]] + rest[p + 1..last];
    }
  }

  lemma {:induction false} DrawnMembers<T>(rest: seq<T>, picks: seq<nat>)
    requires ValidPicks(picks, |rest|)
    ensures multiset(Drawn(rest, picks)) == multiset(rest)
    decreases |rest|
  {
    if |rest| >= 2 {
      NextPicks(picks, |rest|);
      LeftMembers(rest, picks[0]);
      DrawnMembers(LeftAfter(rest, picks[0]), picks[1..]);
      assert rest[picks[0]] in multiset(rest);
    }
  }

  /** The range after a shuffle from that state of the generator. */
  function Shuffled<T>(range: seq<T>, state: nat): (all: seq<T>)
    ensures |all| == |range|
  {
    PicksAreValid(state, |range|);
    Drawn(range, Picks(state, |range|))
  }

  lemma ShuffledStep<T>(range: seq<T>, state: nat)
    requires |range| >= 2
    ensures var p := NextState(state) % |range|;
      Shuffled(range, state) == Shuffled(LeftAfter(range, p), NextState(state)) + [range[p]]
  {
    hide NextState;
    PicksAreValid(state, |range|);
  }

  lemma ShuffledMembers<T>(range: seq<T>, state: nat)
    ensures multiset(Shuffled(range, state)) == multiset(range)
  {
    PicksAreValid(state, |range|);
    DrawnMembers(range, Picks(state, |range|));
  }

  // ---------- every order comes from exactly one sequence of picks ----------

  predicate Distinct<T(==)>(s: seq<T>) {
    forall i, j :: 0 <= i < j < |s| ==> s[i] != s[j]
  }

  lemma LeftDistinct<T>(rest: seq<T>, p: nat)
    requires p < |rest| && Distinct(rest)
    ensures Distinct(LeftAfter(rest, p))
  {
    var last, left := |rest| - 1, LeftAfter(rest, p);
    assert forall i :: 0 <= i < last ==> left[i] == if i == p then rest[last] else rest[i];
  }

  lemma SameEnds<T>(a: seq<T>, x: T, b: seq<T>, y: T)
    requires a + [x] == b + [y]
    ensures a == b && x == y
  {
    assert |a + [x]| == |b + [y]|;
    assert (a + [x])[|a|] == x && (b + [y])[|b|] == y;
    assert a == (a + [x])[..|a|] && b == (b + [y])[..|b|];
  }

  lemma SameIndex<T>(s: seq<T>, i: nat, j: nat)
    requires Distinct(s) && i < |s| && j < |s| && s[i] == s[j]
    ensures i == j
  {
  }

  /** Different picks give different orders. */
  lemma {:induction false} PicksDetermined<T>(rest: seq<T>, picks: seq<nat>, picks': seq<nat>)
    requires Distinct(rest) && ValidPicks(picks, |rest|) && ValidPicks(picks', |rest|)
    requires Drawn(rest, picks) == Drawn(rest, picks')
    ensures picks == picks'
    decreases |rest|
  {
    if |rest| >= 2 {
      NextPicks(picks, |rest|);
      NextPicks(picks', |rest|);
      var p, p' := picks[0], picks'[0];
      var a, b := Drawn(LeftAfter(rest, p), picks[1..]), Drawn(LeftAfter(rest, p'), picks'[1..]);
      SameEnds(a, rest[p], b, rest[p']);
      SameIndex(rest, p, p');
      LeftDistinct(rest, p);
      hide Distinct, ValidPicks, LeftAfter;
      PicksDetermined(LeftAfter(rest, p), picks[1..], picks'[1..]);
      assert picks == [p] + picks[1..] && picks' == [p'] + picks'[1..];
    }
  }

  lemma FirstPick<T>(rest: seq<T>, order: seq<T>) returns (p: nat)
    requires multiset(order) == multiset(rest) && |order| == |rest| > 0
    ensures p < |rest| && rest[p] == order[|rest| - 1]
    ensures multiset(order[..|rest| - 1]) == multiset(LeftAfter(rest, p))
  {
    hide LeftAfter;
    var n := |rest| - 1;
    assert order[n] in multiset(order);
    p :| 0 <= p < |rest| && rest[p] == order[n];
    LeftMembers(rest, p);
    assert order == order[..n] + [order[n]];
  }

  lemma NoPicks<T>(rest: seq<T>)
    requires |rest| < 2
    ensures ValidPicks([], |rest|)
  {
  }

  lemma FirstOf(p: nat, later: seq<nat>, width: nat)
    requires width >= 2 && p < width && ValidPicks(later, width - 1)
    ensures ValidPicks([p] + later, width) && ([p] + later)[0] == p && ([p] + later)[1..] == later
  {
  }

  /** Every order comes up for some picks. */
  lemma {:induction false} PicksFor<T>(rest: seq<T>, order: seq<T>) returns (picks: seq<nat>)
    requires multiset(order) == multiset(rest)
    ensures ValidPicks(picks, |rest|) && Drawn(rest, picks) == order
    decreases |rest|
  {
    hide ValidPicks, LeftAfter;
    SameLength(order, rest);
    var n := |rest| - 1;
    if |rest| < 2 {
      picks := [];
      NoPicks(rest);
      SameSingle(order, rest);
    } else {
      var p := FirstPick(rest, order);
      var later := PicksFor(LeftAfter(rest, p), order[..n]);
      picks := [p] + later;
      FirstOf(p, later, |rest|);
      assert order == order[..n] + [order[n]];
    }
  }

  lemma SameLength<T>(a: seq<T>, b: seq<T>)
    requires multiset(a) == multiset(b)
    ensures |a| == |b|
  {
    assert |multiset(a)| == |a| && |multiset(b)| == |b|;
  }

  lemma SameSingle<T>(a: seq<T>, b: seq<T>)
    requires multiset(a) == multiset(b) && |a| == |b| <= 1
    ensures a == b
  {
    if |a| == 1 {
      assert a[0] in multiset(b);
    }
  }

  /** Of a range of distinct elements every order, and nothing else, comes from exactly one sequence of picks. */
  lemma EveryOrderOnce<T>(rest: seq<T>, order: seq<T>)
    requires Distinct(rest)
    ensures multiset(order) == multiset(rest) <==>
            exists picks :: ValidPicks(picks, |rest|) && Drawn(rest, picks) == order
    ensures forall picks, picks' ::
      ValidPicks(picks, |rest|) && ValidPicks(picks', |rest|) && Drawn(rest, picks) == Drawn(rest, picks') == order
      ==> picks == picks'
  {
    if multiset(order) == multiset(rest) {
      var picks := PicksFor(rest, order);
    }
    if picks :| ValidPicks(picks, |rest|) && Drawn(rest, picks) == order {
      DrawnMembers(rest, picks);
    }
    forall picks, picks' | ValidPicks(picks, |rest|) && ValidPicks(picks', |rest|)
                           && Drawn(rest, picks) == Drawn(rest, picks') == order
      ensures picks == picks'
    {
      PicksDetermined(rest, picks, picks');
    }
  }
}
