/** Which of the runnable tests a shard selects. */
module Sharding {

  import opened Arithmetic

  predicate ShouldRunTestOnShard(totalShards: nat, shardIndex: nat, testId: nat)
    requires totalShards > 0
  {
    testId % totalShards == shardIndex
  }

  /** How many of the flags are set. */
  function Count(flags: seq<bool>): nat {
    if flags == [] then 0 else Count(flags[..|flags| - 1]) + if flags[|flags| - 1] then 1 else 0
  }

  /** The tests selected on a shard: a runnable test goes by the number of runnable tests before it. */
  function Selected(runnable: seq<bool>, totalShards: nat, shardIndex: nat): seq<bool>
    requires totalShards > 0
  {
    seq(|runnable|, i requires 0 <= i < |runnable| =>
      runnable[i] && ShouldRunTestOnShard(totalShards, shardIndex, Count(runnable[..i])))
  }

  predicate SelectedOn(runnable: seq<bool>, totalShards: nat, shardIndex: nat, i: nat)
    requires totalShards > 0 && i < |runnable|
  {
    shardIndex < totalShards && Selected(runnable, totalShards, shardIndex)[i]
  }

  /** A runnable test is selected on one shard and on no other; a test that is not runnable on none. */
  lemma ExactlyOneShard(runnable: seq<bool>, totalShards: nat, i: nat)
    requires totalShards > 0 && i < |runnable|
    ensures runnable[i] <==> exists s: nat :: SelectedOn(runnable, totalShards, s, i)
    ensures forall s, t :: SelectedOn(runnable, totalShards, s, i) && SelectedOn(runnable, totalShards, t, i) ==> s == t
  {
    if runnable[i] {
      assert SelectedOn(runnable, totalShards, Count(runnable[..i]) % totalShards, i);
    }
  }

  lemma {:induction false} ShardCount(runnable: seq<bool>, totalShards: nat, s: nat)
    requires totalShards > 0
    ensures Count(Selected(runnable, totalShards, s)) == Uses(Count(runnable), totalShards, s)
  {
    if runnable != [] {
      var n := |runnable| - 1;
      var fewer, all := Selected(runnable[..n], totalShards, s), Selected(runnable, totalShards, s);
      assert forall i :: 0 <= i < n ==> runnable[..n][..i] == runnable[..i];
      assert all[..n] == fewer;
      ShardCount(runnable[..n], totalShards, s);
    }
  }

  /** No shard has two tests more than another. */
  lemma ShardsAreBalanced(runnable: seq<bool>, totalShards: nat, s: nat, t: nat)
    requires s < totalShards && t < totalShards
    ensures Count(Selected(runnable, totalShards, s)) <= Count(Selected(runnable, totalShards, t)) + 1
  {
    ShardCount(runnable, totalShards, s);
    ShardCount(runnable, totalShards, t);
    UsesFormula(Count(runnable), totalShards, s);
    UsesFormula(Count(runnable), totalShards, t);
  }

  /** The tests selected on the first k shards together. */
  function OnFirst(runnable: seq<bool>, totalShards: nat, k: nat): nat
    requires totalShards > 0
  {
    if k == 0 then 0
    else OnFirst(runnable, totalShards, k - 1) + Count(Selected(runnable, totalShards, k - 1))
  }

  lemma {:induction false} OnFirstFormula(runnable: seq<bool>, totalShards: nat, k: nat)
    requires 0 < totalShards && k <= totalShards
    ensures var n := Count(runnable);
      OnFirst(runnable, totalShards, k) == k * (n / totalShards) + if k < n % totalShards then k else n % totalShards
  {
    hide Count, Selected, Uses;
    if k > 0 {
      OnFirstFormula(runnable, totalShards, k - 1);
      ShardCount(runnable, totalShards, k - 1);
      UsesFormula(Count(runnable), totalShards, k - 1);
      OneMoreTime(Count(runnable) / totalShards, k);
    }
  }

  lemma OneMoreTime(q: nat, k: nat)
    requires k > 0
    ensures (k - 1) * q + q == k * q
  {
  }

  lemma Divided(n: nat, d: nat)
    requires d > 0
    ensures n == d * (n / d) + n % d && n % d < d
  {
  }

  /** All shards together select every runnable test. */
  lemma ShardsCoverAll(runnable: seq<bool>, totalShards: nat)
    requires totalShards > 0
    ensures OnFirst(runnable, totalShards, totalShards) == Count(runnable)
  {
    hide Count, OnFirst;
    OnFirstFormula(runnable, totalShards, totalShards);
    Divided(Count(runnable), totalShards);
  }

  // ---------- over several test cases ----------

  /** Whether the sharding variables are honoured. */
  datatype Protocol = Ignore | Honor(totalShards: nat, shardIndex: nat)

  predicate Usable(p: Protocol) {
    p.Honor? ==> p.totalShards > 0
  }

  /** The tests chosen, when so many runnable tests came before. */
  function Chosen(runnable: seq<bool>, before: nat, p: Protocol): seq<bool>
    requires Usable(p)
  {
    seq(|runnable|, i requires 0 <= i < |runnable| => runnable[i] && IsChosen(before + Count(runnable[..i]), p))
  }

  predicate IsChosen(testId: nat, p: Protocol)
    requires Usable(p)
  {
    p.Ignore? || ShouldRunTestOnShard(p.totalShards, p.shardIndex, testId)
  }

  function Joined<T>(lists: seq<seq<T>>): seq<T> {
    if lists == [] then [] else Joined(lists[..|lists| - 1]) + lists[|lists| - 1]
  }

  /** List by list, each with the count of the lists before it. */
  function ChosenLists(lists: seq<seq<bool>>, p: Protocol): seq<seq<bool>>
    requires Usable(p)
  {
    seq(|lists|, k requires 0 <= k < |lists| => Chosen(lists[k], Count(Joined(lists[..k])), p))
  }

  lemma {:induction false} CountJoined(a: seq<bool>, b: seq<bool>)
    ensures Count(a + b) == Count(a) + Count(b)
  {
    if b == [] {
      assert a + b == a;
    } else {
      assert (a + b)[..|a + b| - 1] == a + b[..|b| - 1];
      CountJoined(a, b[..|b| - 1]);
    }
  }

  lemma ChosenAt(runnable: seq<bool>, before: nat, p: Protocol)
    requires Usable(p)
    ensures |Chosen(runnable, before, p)| == |runnable|
    ensures forall i :: 0 <= i < |runnable| ==>
      Chosen(runnable, before, p)[i] == (runnable[i] && IsChosen(before + Count(runnable[..i]), p))
  {
    hide Count, IsChosen;
  }

  lemma ChosenJoined(a: seq<bool>, b: seq<bool>, before: nat, p: Protocol)
    requires Usable(p)
    ensures Chosen(a + b, before, p) == Chosen(a, before, p) + Chosen(b, before + Count(a), p)
  {
    hide Count, Chosen, IsChosen;
    var left, first, second := Chosen(a + b, before, p), Chosen(a, before, p), Chosen(b, before + Count(a), p);
    ChosenAt(a + b, before, p);
    ChosenAt(a, before, p);
    ChosenAt(b, before + Count(a), p);
    forall i | 0 <= i < |a + b| ensures left[i] == (first + second)[i] {
      if i < |a| {
        assert (a + b)[..i] == a[..i];
      } else {
        assert (a + b)[..i] == a + b[..i - |a|];
        CountJoined(a, b[..i - |a|]);
      }
    }
  }

  lemma ChosenListsPrefix(lists: seq<seq<bool>>, n: nat, p: Protocol)
    requires Usable(p) && n <= |lists|
    ensures ChosenLists(lists, p)[..n] == ChosenLists(lists[..n], p)
  {
    hide Chosen, Count, Joined;
    forall k | 0 <= k < n ensures ChosenLists(lists, p)[k] == ChosenLists(lists[..n], p)[k] {
      assert lists[..n][..k] == lists[..k];
    }
  }

  /** Going through the test cases one by one is the same as going through all tests in one list. */
  lemma {:induction false} ListByList(lists: seq<seq<bool>>, p: Protocol)
    requires Usable(p)
    ensures Joined(ChosenLists(lists, p)) == Chosen(Joined(lists), 0, p)
  {
    hide Chosen, Count;
    if lists == [] {
      assert Chosen([], 0, p) == [] by {
        ChosenAt([], 0, p);
      }
    } else {
      var n := |lists| - 1;
      var all := ChosenLists(lists, p);
      ChosenListsPrefix(lists, n, p);
      ListByList(lists[..n], p);
      ChosenJoined(Joined(lists[..n]), lists[n], 0, p);
    }
  }

  /** When sharding is honoured these are the tests of the shard; when not, all that are runnable. */
  lemma ChosenIsSelected(runnable: seq<bool>, p: Protocol)
    requires Usable(p)
    ensures Chosen(runnable, 0, p) == if p.Ignore? then runnable else Selected(runnable, p.totalShards, p.shardIndex)
  {
  }
}
