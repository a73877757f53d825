/** The expected-call queue of a mock object, replayed call by call, and the language of call sequences it stands for.
    A call is known here only by what equality compares: its name and parameters. */
module Mox {

  type Call = int

  /** The methods of a multiple-times group, and those called, are kept as multisets: the sets hash by identity,
      so equal methods recorded twice are two members, and every call adds one. */
  datatype Entry =
    | Ordered(call: Call)
    | Unordered(calls: seq<Call>)
    | Multiple(methods: multiset<Call>, called: multiset<Call>)

  type Queue = seq<Entry>

  datatype Reply = Reply(ok: bool, queue: Queue)

  function Remove(calls: seq<Call>, c: Call): seq<Call> {
    if calls == [] then [] else if calls[0] == c then calls[1..] else [calls[0]] + Remove(calls[1..], c)
  }

  /** Every method has been called; an empty group is never satisfied. */
  predicate Satisfied(methods: multiset<Call>, called: multiset<Call>) {
    methods != multiset{} && methods <= called
  }

  /** Replaying one call: whether it is expected, and the queue afterwards. */
  function Step(q: Queue, c: Call): Reply
    decreases |q|
  {
    if q == [] then Reply(false, [])
    else match q[0]
         case Ordered(m) => Reply(m == c, q[1..])
         case Unordered(calls) =>
           if c !in calls then Reply(false, q[1..])
           else if Remove(calls, c) == [] then Reply(true, q[1..])
           else Reply(true, [Unordered(Remove(calls, c))] + q[1..])
         case Multiple(methods, called) =>
           if c in methods then Reply(true, [Multiple(methods, called + multiset{c})] + q[1..])
           else if Satisfied(methods, called) then Step(q[1..], c)
           else Reply(false, q[1..])
  }

  predicate Verifies(q: Queue) {
    q == [] || (|q| == 1 && q[0].Multiple? && Satisfied(q[0].methods, q[0].called))
  }

  /** The calls w raise no error and leave a queue that verifies. */
  predicate Accepts(q: Queue, w: seq<Call>)
    decreases |w|
  {
    if w == [] then Verifies(q) else Step(q, w[0]).ok && Accepts(Step(q, w[0]).queue, w[1..])
  }

  // ---------- the language ----------

  /** What one entry stands for: the call, any order of the group, or calls of the group that use up all its methods. */
  predicate EntryWord(e: Entry, u: seq<Call>) {
    match e
    case Ordered(m) => u == [m]
    case Unordered(calls) => multiset(u) == multiset(calls)
    case Multiple(methods, called) =>
      (forall k :: 0 <= k < |u| ==> u[k] in methods) && Satisfied(methods, called + multiset(u))
  }

  ghost predicate InLanguage(q: Queue, w: seq<Call>)
    decreases |q|
  {
    if q == [] then w == [] else exists k: nat :: SplitsAt(q, w, k)
  }

  ghost predicate SplitsAt(q: Queue, w: seq<Call>, k: nat)
    requires q != []
    decreases |q|, 0
  {
    k <= |w| && EntryWord(q[0], w[..k]) && InLanguage(q[1..], w[k..])
  }

  /** A queue as replay sees it: groups are not empty, and only the first group can be under way. */
  predicate WellFormed(q: Queue) {
    forall i :: 0 <= i < |q| ==>
      && (q[i].Unordered? ==> q[i].calls != [])
      && (q[i].Multiple? ==> q[i].methods != multiset{} && (i > 0 ==> q[i].called == multiset{}))
  }

  /** A queue as recording leaves it. */
  predicate Recorded(q: Queue) {
    WellFormed(q) && forall i :: 0 <= i < |q| && q[i].Multiple? ==> q[i].called == multiset{}
  }

  /** The call can come first in what the entry stands for. */
  predicate CanStart(e: Entry, c: Call) {
    match e
    case Ordered(m) => c == m
    case Unordered(calls) => c in calls
    case Multiple(methods, _) => c in methods
  }

  /** No call of a multiple-times group can start the entry after it. */
  predicate Clash(q: Queue, i: nat, c: Call) {
    i + 1 < |q| && q[i].Multiple? && c in q[i].methods && CanStart(q[i + 1], c)
  }

  ghost predicate Unambiguous(q: Queue) {
    forall i: nat, c :: !Clash(q, i, c)
  }

  lemma {:induction false} RemoveFacts(calls: seq<Call>, c: Call)
    requires c in calls
    ensures multiset(Remove(calls, c)) == multiset(calls) - multiset{c} && |Remove(calls, c)| == |calls| - 1
  {
    assert calls == [calls[0]] + calls[1..];
    if calls[0] != c {
      RemoveFacts(calls[1..], c);
    }
  }

  /** A multiple-times group without methods is never satisfied: it lets no call through, and the test fails on it. */
  lemma EmptyGroupBlocks(q: Queue, called: multiset<Call>, w: seq<Call>)
    requires q != [] && q[0] == Multiple(multiset{}, called)
    ensures !Accepts(q, w)
  {
  }

  lemma TailWellFormed(q: Queue)
    requires WellFormed(q) && q != []
    ensures WellFormed(q[1..]) && Recorded(q[1..])
  {
    assert forall i :: 0 <= i < |q[1..]| ==> q[1..][i] == q[i + 1];
  }

  /** Replay keeps the queue well formed and unambiguous. */
  lemma {:induction false} StepKeeps(q: Queue, c: Call)
    requires WellFormed(q)
    ensures WellFormed(Step(q, c).queue)
    ensures Unambiguous(q) ==> Unambiguous(Step(q, c).queue)
    decreases |q|
  {
    if q != [] {
      TailWellFormed(q);
      TailUnambiguous(q);
      match q[0]
      case Ordered(m) =>
      case Unordered(calls) =>
        if c in calls && Remove(calls, c) != [] {
          var q' := [Unordered(Remove(calls, c))] + q[1..];
          assert Step(q, c).queue == q';
          HeadReplaced(q, q');
        }
      case Multiple(methods, called) =>
        if c in methods {
          var q' := [Multiple(methods, called + multiset{c})] + q[1..];
          assert Step(q, c).queue == q';
          HeadReplaced(q, q');
        } else if Satisfied(methods, called) {
          StepKeeps(q[1..], c);
        }
    }
  }

  lemma TailUnambiguous(q: Queue)
    requires q != []
    ensures Unambiguous(q) ==> Unambiguous(q[1..])
  {
    if Unambiguous(q) {
      forall i: nat, c ensures !Clash(q[1..], i, c) {
        assert !Clash(q, i + 1, c);
      }
    }
  }

  lemma HeadReplaced(q: Queue, q': Queue)
    requires q != [] && q' != [] && q'[1..] == q[1..]
    requires (q[0].Unordered? && q'[0].Unordered? && q'[0].calls != [])
          || (q[0].Multiple? && q'[0].Multiple? && q'[0].methods == q[0].methods)
    ensures WellFormed(q) ==> WellFormed(q')
    ensures Unambiguous(q) ==> Unambiguous(q')
  {
    assert |q| == |q'| && forall i :: 1 <= i < |q| ==> q'[i] == q[1..][i - 1] == q[i];
    if Unambiguous(q) {
      forall i: nat, c ensures !Clash(q', i, c) {
        assert !Clash(q, i, c);
      }
    }
  }

  // ---------- a call takes the language to its residual ----------

  lemma SplitPoint(q: Queue, w: seq<Call>) returns (k: nat)
    requires q != [] && InLanguage(q, w)
    ensures SplitsAt(q, w, k)
  {
    k :| SplitsAt(q, w, k);
  }

  lemma EmptyWord(q: Queue)
    requires WellFormed(q)
    ensures Verifies(q) <==> InLanguage(q, [])
  {
    if q != [] {
      TailWellFormed(q);
      if q[1..] != [] {
        NoEmptyWord(q[1..]);
        assert forall k: nat :: !SplitsAt(q, [], k);
      } else {
        assert SplitsAt(q, [], 0) <==> EntryWord(q[0], []);
        if InLanguage(q, []) {
          var k := SplitPoint(q, []);
        }
      }
    }
  }

  lemma WordIsNotEmpty(e: Entry, u: seq<Call>)
    requires EntryWord(e, u)
    requires e.Unordered? ==> e.calls != []
    requires e.Multiple? ==> e.methods != multiset{} && e.called == multiset{}
    ensures u != []
  {
    if e.Unordered? {
      assert e.calls[0] in multiset(e.calls);
    }
  }

  /** A recorded queue that is not empty needs at least one call, which can start its first entry. */
  lemma NoEmptyWord(q: Queue)
    requires Recorded(q) && q != []
    ensures forall w :: InLanguage(q, w) ==> w != [] && CanStart(q[0], w[0])
  {
    forall w | InLanguage(q, w) ensures w != [] && CanStart(q[0], w[0]) {
      var k := SplitPoint(q, w);
      var u := w[..k];
      WordIsNotEmpty(q[0], u);
      assert w[0] == u[0];
      if q[0].Unordered? {
        assert u[0] in multiset(u);
      }
    }
  }

  lemma ConsUnordered(calls: seq<Call>, c: Call, u: seq<Call>)
    requires c in calls
    ensures EntryWord(Unordered(Remove(calls, c)), u) <==> EntryWord(Unordered(calls), [c] + u)
  {
    RemoveFacts(calls, c);
    hide Remove;
    var m := multiset(calls);
    assert multiset([c] + u) == multiset(u) + multiset{c};
    assert m == (m - multiset{c}) + multiset{c};
  }

  lemma ConsMultiple(methods: multiset<Call>, called: multiset<Call>, c: Call, u: seq<Call>)
    requires c in methods
    ensures EntryWord(Multiple(methods, called + multiset{c}), u) <==> EntryWord(Multiple(methods, called), [c] + u)
  {
    var w := [c] + u;
    assert called + multiset(w) == (called + multiset{c}) + multiset(u);
    assert u == w[1..];
    assert (forall k :: 0 <= k < |u| ==> u[k] in methods) <==> forall k :: 0 <= k < |w| ==> w[k] in methods by {
      ConsMembers(methods, c, u);
    }
  }

  lemma ConsMembers(methods: multiset<Call>, c: Call, u: seq<Call>)
    requires c in methods
    ensures (forall k :: 0 <= k < |u| ==> u[k] in methods)
       <==> forall k :: 0 <= k < |[c] + u| ==> ([c] + u)[k] in methods
  {
    var w := [c] + u;
    if forall k :: 0 <= k < |w| ==> w[k] in methods {
      forall k | 0 <= k < |u| ensures u[k] in methods {
        assert w[k + 1] == u[k];
      }
    }
  }

  lemma ConsWord(e: Entry, e': Entry, c: Call, u: seq<Call>)
    requires
      || (e.Unordered? && c in e.calls && e' == Unordered(Remove(e.calls, c)))
      || (e.Multiple? && c in e.methods && e' == Multiple(e.methods, e.called + multiset{c}))
    ensures EntryWord(e', u) <==> EntryWord(e, [c] + u)
  {
    hide EntryWord, Remove;
    if e.Unordered? {
      ConsUnordered(e.calls, c, u);
    } else {
      ConsMultiple(e.methods, e.called, c, u);
    }
  }

  /** An expected call followed by a word of the new queue is a word of the old one. */
  lemma {:induction false} StepSound(q: Queue, c: Call, w: seq<Call>)
    requires WellFormed(q) && Step(q, c).ok && InLanguage(Step(q, c).queue, w)
    ensures InLanguage(q, [c] + w)
    decreases |q|
  {
    var q' := Step(q, c).queue;
    var cw := [c] + w;
    TailWellFormed(q);
    match q[0]
    case Ordered(m) =>
      assert cw[..1] == [c] && cw[1..] == w;
      assert SplitsAt(q, cw, 1);
    case Unordered(calls) =>
      if Remove(calls, c) == [] {
        RemoveFacts(calls, c);
        assert cw[..1] == [c] && cw[1..] == w;
        assert multiset([c]) == multiset(calls);
        assert SplitsAt(q, cw, 1);
      } else {
        ResidualHead(q, q', c, w);
      }
    case Multiple(methods, called) =>
      if c in methods {
        ResidualHead(q, q', c, w);
      } else {
        StepSound(q[1..], c, w);
        assert cw[..0] == [] && cw[0..] == cw;
        assert called + multiset([]) == called;
        assert SplitsAt(q, cw, 0);
      }
  }

  lemma ResidualHead(q: Queue, q': Queue, c: Call, w: seq<Call>)
    requires q != [] && q' != [] && q'[1..] == q[1..] && InLanguage(q', w)
    requires
      || (q[0].Unordered? && c in q[0].calls && q'[0] == Unordered(Remove(q[0].calls, c)))
      || (q[0].Multiple? && c in q[0].methods && q'[0] == Multiple(q[0].methods, q[0].called + multiset{c}))
    ensures InLanguage(q, [c] + w)
  {
    var k := SplitPoint(q', w);
    ConsWord(q[0], q'[0], c, w[..k]);
    var cw := [c] + w;
    assert cw[..k + 1] == [c] + w[..k] && cw[k + 1..] == w[k..];
    assert SplitsAt(q, cw, k + 1);
  }

  /** The word takes no call from the first entry, so that is a satisfied group and the call starts the next entry. */
  lemma {:induction false} FirstSkipped(q: Queue, c: Call, w: seq<Call>)
    requires WellFormed(q) && Unambiguous(q) && q != [] && SplitsAt(q, [c] + w, 0)
    ensures q[0].Multiple? && c !in q[0].methods && Satisfied(q[0].methods, q[0].called)
    ensures InLanguage(q[1..], [c] + w)
  {
    var cw := [c] + w;
    assert cw[..0] == [] && cw[0..] == cw;
    if q[0].Unordered? {
      WordIsNotEmpty(q[0], []);
    }
    assert q[0].Multiple? && q[0].called + multiset([]) == q[0].called;
    TailWellFormed(q);
    if q[1..] != [] {
      NoEmptyWord(q[1..]);
      assert q[1..][0] == q[1] && cw[0] == c;
      assert CanStart(q[1], c) && !Clash(q, 0, c);
    }
  }

  lemma OrderedTaken(q: Queue, c: Call, w: seq<Call>, k: nat)
    requires q != [] && q[0].Ordered? && k > 0 && SplitsAt(q, [c] + w, k)
    ensures Step(q, c).ok && InLanguage(Step(q, c).queue, w)
  {
    hide InLanguage;
    assert k == 1 && ([c] + w)[..1][0] == c && ([c] + w)[1..] == w;
  }

  lemma InGroupWord(e: Entry, u: seq<Call>, c: Call)
    requires EntryWord(e, u) && u != [] && u[0] == c && !e.Ordered?
    ensures if e.Unordered? then c in e.calls else c in e.methods
  {
    assert c in multiset(u);
    if e.Unordered? {
      assert c in multiset(e.calls);
    }
  }

  /** What the call and the rest of the first part are to the first entry. */
  lemma SplitFirst(q: Queue, c: Call, w: seq<Call>, k: nat)
    requires q != [] && k > 0 && SplitsAt(q, [c] + w, k) && !q[0].Ordered?
    ensures k <= |w| + 1 && EntryWord(q[0], [c] + w[..k - 1]) && InLanguage(q[1..], w[k - 1..])
    ensures if q[0].Unordered? then c in q[0].calls else c in q[0].methods
  {
    hide EntryWord, InLanguage;
    assert ([c] + w)[..k] == [c] + w[..k - 1] && ([c] + w)[k..] == w[k - 1..];
    InGroupWord(q[0], [c] + w[..k - 1], c);
  }

  lemma UnorderedTaken(q: Queue, c: Call, w: seq<Call>, k: nat)
    requires q != [] && q[0].Unordered? && k > 0 && SplitsAt(q, [c] + w, k)
    ensures Step(q, c).ok && InLanguage(Step(q, c).queue, w)
  {
    SplitFirst(q, c, w, k);
    hide EntryWord, Remove, InLanguage, SplitsAt;
    var rest := Unordered(Remove(q[0].calls, c));
    ConsWord(q[0], rest, c, w[..k - 1]);
    ResidualTail(q, rest, w, k - 1);
  }

  lemma StepCounts(q: Queue, c: Call)
    requires q != [] && q[0].Multiple? && c in q[0].methods
    ensures Step(q, c) == Reply(true, [Multiple(q[0].methods, q[0].called + multiset{c})] + q[1..])
  {
  }

  lemma MultipleTaken(q: Queue, c: Call, w: seq<Call>, k: nat)
    requires q != [] && q[0].Multiple? && k > 0 && SplitsAt(q, [c] + w, k)
    ensures Step(q, c).ok && InLanguage(Step(q, c).queue, w)
  {
    SplitFirst(q, c, w, k);
    StepCounts(q, c);
    hide EntryWord, Step, InLanguage, SplitsAt;
    var rest := Multiple(q[0].methods, q[0].called + multiset{c});
    ConsWord(q[0], rest, c, w[..k - 1]);
    ResidualTail(q, rest, w, k - 1);
  }

  /** The word takes its first call from the first entry. */
  lemma FirstTaken(q: Queue, c: Call, w: seq<Call>, k: nat)
    requires q != [] && k > 0 && SplitsAt(q, [c] + w, k)
    ensures Step(q, c).ok && InLanguage(Step(q, c).queue, w)
  {
    hide Step, InLanguage, SplitsAt;
    match q[0]
    case Ordered(_) => OrderedTaken(q, c, w, k);
    case Unordered(_) => UnorderedTaken(q, c, w, k);
    case Multiple(_, _) => MultipleTaken(q, c, w, k);
  }

  /** When no group clashes, the replay loses no word. */
  lemma {:induction false} StepComplete(q: Queue, c: Call, w: seq<Call>)
    requires WellFormed(q) && Unambiguous(q) && InLanguage(q, [c] + w)
    ensures Step(q, c).ok && InLanguage(Step(q, c).queue, w)
    decreases |q|
  {
    var k := SplitPoint(q, [c] + w);
    if k == 0 {
      FirstSkipped(q, c, w);
      TailWellFormed(q);
      TailUnambiguous(q);
      StepComplete(q[1..], c, w);
    } else {
      FirstTaken(q, c, w, k);
    }
  }

  lemma ResidualTail(q: Queue, e: Entry, w: seq<Call>, k: nat)
    requires q != [] && k <= |w| && EntryWord(e, w[..k]) && InLanguage(q[1..], w[k..])
    ensures InLanguage([e] + q[1..], w)
    ensures e == Unordered([]) ==> InLanguage(q[1..], w)
  {
    var q' := [e] + q[1..];
    assert q'[1..] == q[1..];
    assert SplitsAt(q', w, k);
    if e == Unordered([]) {
      assert |multiset(w[..k])| == 0;
      assert k == 0 && w[0..] == w;
    }
  }

  /** Whatever the queue, an accepted sequence of calls is in its language. */
  lemma {:induction false} AcceptedIsInLanguage(q: Queue, w: seq<Call>)
    requires WellFormed(q) && Accepts(q, w)
    ensures InLanguage(q, w)
    decreases |w|
  {
    if w == [] {
      EmptyWord(q);
    } else {
      StepKeeps(q, w[0]);
      AcceptedIsInLanguage(Step(q, w[0]).queue, w[1..]);
      StepSound(q, w[0], w[1..]);
      assert [w[0]] + w[1..] == w;
    }
  }

  lemma {:induction false} LanguageIsAccepted(q: Queue, w: seq<Call>)
    requires WellFormed(q) && Unambiguous(q) && InLanguage(q, w)
    ensures Accepts(q, w)
    decreases |w|
  {
    if w == [] {
      EmptyWord(q);
    } else {
      assert [w[0]] + w[1..] == w;
      StepComplete(q, w[0], w[1..]);
      StepKeeps(q, w[0]);
      LanguageIsAccepted(Step(q, w[0]).queue, w[1..]);
    }
  }

  // ---------- without the condition some word is lost ----------

  function Need(e: Entry): nat {
    match e
    case Ordered(_) => 1
    case Unordered(calls) => |calls|
    case Multiple(methods, called) => |methods - called|
  }

  /** The least number of calls the queue stands for. */
  function MinLength(q: Queue): nat {
    if q == [] then 0 else Need(q[0]) + MinLength(q[1..])
  }

  lemma EntryNeeds(e: Entry, u: seq<Call>)
    requires EntryWord(e, u)
    ensures |u| >= Need(e)
  {
    match e
    case Ordered(_) =>
    case Unordered(calls) => assert |multiset(u)| == |multiset(calls)|;
    case Multiple(methods, called) =>
      var m := multiset(u);
      assert methods - called <= m;
      Smaller(methods - called, m);
  }

  lemma Smaller(a: multiset<Call>, b: multiset<Call>)
    requires a <= b
    ensures |a| <= |b|
  {
    assert b == a + (b - a);
  }

  lemma {:induction false} LanguageNeeds(q: Queue, w: seq<Call>)
    requires InLanguage(q, w)
    ensures |w| >= MinLength(q)
    decreases |q|
  {
    if q != [] {
      var k := SplitPoint(q, w);
      EntryNeeds(q[0], w[..k]);
      LanguageNeeds(q[1..], w[k..]);
    }
  }

  lemma NoMember(m: multiset<Call>)
    requires !exists c :: c in m
    ensures m == multiset{}
  {
    forall c ensures m[c] == multiset{}[c] {
      assert c !in m;
    }
  }

  lemma SomeMember(m: multiset<Call>)
    requires m != multiset{}
    ensures exists c :: c in m
  {
    if !exists c :: c in m {
      NoMember(m);
    }
  }

  ghost function Listed(m: multiset<Call>): (s: seq<Call>)
    ensures multiset(s) == m && |s| == |m|
    decreases |m|
  {
    if m == multiset{} then []
    else
      SomeMember(m);
      var c :| c in m;
      assert m == (m - multiset{c}) + multiset{c};
      [c] + Listed(m - multiset{c})
  }

  /** A shortest word of a recorded entry. */
  ghost function Shortest(e: Entry): seq<Call> {
    match e
    case Ordered(m) => [m]
    case Unordered(calls) => calls
    case Multiple(methods, _) => Listed(methods)
  }

  /** One that starts with c. */
  ghost function ShortestFrom(e: Entry, c: Call): seq<Call>
    requires CanStart(e, c)
  {
    match e
    case Ordered(m) => [m]
    case Unordered(calls) => [c] + Remove(calls, c)
    case Multiple(methods, _) => [c] + Listed(methods - multiset{c})
  }

  ghost predicate RecordedEntry(e: Entry) {
    e.Multiple? ==> e.methods != multiset{} && e.called == multiset{}
  }

  lemma ListedMembers(e: Entry, u: seq<Call>)
    requires e.Multiple? && RecordedEntry(e) && multiset(u) == e.methods
    ensures EntryWord(e, u)
  {
    forall k | 0 <= k < |u| ensures u[k] in e.methods {
      assert u[k] in multiset(u);
    }
  }

  lemma ShortestWord(e: Entry)
    requires RecordedEntry(e)
    ensures EntryWord(e, Shortest(e)) && |Shortest(e)| == Need(e)
  {
    if e.Multiple? {
      ListedMembers(e, Shortest(e));
      assert e.methods - multiset{} == e.methods;
    }
  }

  lemma ShortestFromWord(e: Entry, c: Call)
    requires RecordedEntry(e) && CanStart(e, c)
    ensures var u := ShortestFrom(e, c); EntryWord(e, u) && |u| == Need(e) && u[0] == c
  {
    var u := ShortestFrom(e, c);
    match e
    case Ordered(_) =>
    case Unordered(calls) =>
      RemoveFacts(calls, c);
      assert multiset(u) == multiset{c} + (multiset(calls) - multiset{c});
    case Multiple(methods, _) =>
      ListedFrom(methods, c);
      ListedMembers(e, u);
  }

  lemma ListedFrom(methods: multiset<Call>, c: Call)
    requires c in methods
    ensures var u := [c] + Listed(methods - multiset{c}); multiset(u) == methods && methods - multiset{} == methods
  {
    hide Listed;
    var rest := methods - multiset{c};
    assert methods == multiset{c} + rest;
    assert multiset([c] + Listed(rest)) == multiset([c]) + multiset(Listed(rest));
  }

  ghost function ShortestAll(q: Queue): seq<Call> {
    if q == [] then [] else Shortest(q[0]) + ShortestAll(q[1..])
  }

  /** The word that is lost when the group at i clashes on c: shortest words, the one after the group
      starting with c. */
  ghost function LostWord(q: Queue, i: nat, c: Call): seq<Call>
    requires Clash(q, i, c)
    decreases |q|
  {
    if i == 0 then Shortest(q[0]) + (ShortestFrom(q[1], c) + ShortestAll(q[2..]))
    else Shortest(q[0]) + (assert Clash(q[1..], i - 1, c); LostWord(q[1..], i - 1, c))
  }

  lemma Prepend(q: Queue, u: seq<Call>, v: seq<Call>)
    requires q != [] && EntryWord(q[0], u) && InLanguage(q[1..], v)
    ensures InLanguage(q, u + v)
  {
    var w := u + v;
    assert w[..|u|] == u && w[|u|..] == v;
    assert SplitsAt(q, w, |u|);
  }

  lemma {:induction false} ShortestAllWord(q: Queue)
    requires Recorded(q)
    ensures InLanguage(q, ShortestAll(q)) && |ShortestAll(q)| == MinLength(q)
  {
    if q != [] {
      TailWellFormed(q);
      ShortestAllWord(q[1..]);
      assert RecordedEntry(q[0]);
      ShortestWord(q[0]);
      Prepend(q, Shortest(q[0]), ShortestAll(q[1..]));
    }
  }

  /** The word that is lost when the first entry clashes. */
  lemma LostAtHead(q: Queue, c: Call)
    requires Recorded(q) && Clash(q, 0, c)
    ensures InLanguage(q[1..], ShortestFrom(q[1], c) + ShortestAll(q[2..]))
    ensures |ShortestFrom(q[1], c) + ShortestAll(q[2..])| == MinLength(q[1..])
  {
    hide EntryWord, InLanguage, SplitsAt, Shortest, ShortestFrom, ShortestAll, Need, CanStart;
    var rest := q[1..];
    TailWellFormed(q);
    TailWellFormed(rest);
    assert rest[1..] == q[2..] && rest[0] == q[1];
    assert RecordedEntry(rest[0]);
    ShortestAllWord(q[2..]);
    ShortestFromWord(q[1], c);
    Prepend(rest, ShortestFrom(q[1], c), ShortestAll(q[2..]));
  }

  lemma {:induction false} LostWordInLanguage(q: Queue, i: nat, c: Call)
    requires Recorded(q) && Clash(q, i, c)
    ensures InLanguage(q, LostWord(q, i, c)) && |LostWord(q, i, c)| == MinLength(q)
    decreases |q|
  {
    hide EntryWord, InLanguage, SplitsAt, Shortest, ShortestFrom, ShortestAll, Need, CanStart;
    assert RecordedEntry(q[0]);
    ShortestWord(q[0]);
    if i == 0 {
      LostAtHead(q, c);
      Prepend(q, Shortest(q[0]), ShortestFrom(q[1], c) + ShortestAll(q[2..]));
    } else {
      TailWellFormed(q);
      assert Clash(q[1..], i - 1, c);
      LostWordInLanguage(q[1..], i - 1, c);
      Prepend(q, Shortest(q[0]), LostWord(q[1..], i - 1, c));
    }
  }

  /** Replay of a whole unordered group. */
  lemma {:induction false} PassUnordered(q: Queue, u: seq<Call>, v: seq<Call>)
    requires q != [] && q[0].Unordered? && q[0].calls != []
    requires multiset(u) == multiset(q[0].calls) && Accepts(q, u + v)
    ensures Accepts(q[1..], v)
    decreases |u|
  {
    var calls := q[0].calls;
    assert |multiset(u)| == |multiset(calls)|;
    var c := u[0];
    assert u == [c] + u[1..];
    assert c in multiset(calls);
    RemoveFacts(calls, c);
    assert (u + v)[1..] == u[1..] + v;
    if Remove(calls, c) == [] {
      assert u[1..] + v == v;
    } else {
      var q' := [Unordered(Remove(calls, c))] + q[1..];
      assert q'[1..] == q[1..];
      PassUnordered(q', u[1..], v);
    }
  }

  /** Replay of calls of a multiple-times group leaves the group in front. */
  lemma {:induction false} PassMultiple(q: Queue, u: seq<Call>, v: seq<Call>)
    requires q != [] && q[0].Multiple? && (forall k :: 0 <= k < |u| ==> u[k] in q[0].methods) && Accepts(q, u + v)
    ensures Accepts([Multiple(q[0].methods, q[0].called + multiset(u))] + q[1..], v)
    decreases |u|
  {
    if u == [] {
      assert u + v == v && q[0].called + multiset(u) == q[0].called;
      assert [q[0]] + q[1..] == q;
    } else {
      assert (u + v)[1..] == u[1..] + v;
      assert u == [u[0]] + u[1..];
      var q' := [Multiple(q[0].methods, q[0].called + multiset{u[0]})] + q[1..];
      assert q'[1..] == q[1..];
      PassMultiple(q', u[1..], v);
      assert q'[0].called + multiset(u[1..]) == q[0].called + multiset(u);
    }
  }

  /** After a shortest word of its first entry, an accepting replay with no call to spare has left that entry,
      and the next call is not one the entry would have taken. */
  lemma PassEntry(q: Queue, v: seq<Call>)
    requires Recorded(q) && |q| >= 2 && Accepts(q, Shortest(q[0]) + v) && |v| == MinLength(q[1..])
    ensures Accepts(q[1..], v) && v != [] && (q[0].Multiple? ==> v[0] !in q[0].methods)
  {
    var e, u := q[0], Shortest(q[0]);
    TailWellFormed(q);
    NeedPositive(q[1..]);
    match e
    case Ordered(m) => assert (u + v)[1..] == v;
    case Unordered(calls) => PassUnordered(q, u, v);
    case Multiple(methods, called) =>
      assert called == multiset{};
      ListedMembers(e, u);
      PassMultiple(q, u, v);
      assert multiset{} + multiset(u) == methods;
      var done := [Multiple(methods, methods)] + q[1..];
      assert done[1..] == q[1..];
      if v[0] in methods {
        var more := [Multiple(methods, methods + multiset{v[0]})] + q[1..];
        assert more[1..] == q[1..];
        assert Accepts(more, v[1..]);
        HeadReplaced(q, more);
        AcceptedIsInLanguage(more, v[1..]);
        LanguageNeeds(more, v[1..]);
      }
  }

  lemma NeedPositive(q: Queue)
    requires Recorded(q) && q != []
    ensures MinLength(q) >= 1
  {
    if q[0].Multiple? {
      assert q[0].methods - multiset{} == q[0].methods;
    }
  }

  lemma {:induction false} LostWordRejected(q: Queue, i: nat, c: Call)
    requires Recorded(q) && Clash(q, i, c)
    ensures !Accepts(q, LostWord(q, i, c))
    decreases |q|
  {
    hide EntryWord, InLanguage, SplitsAt, Accepts;
    TailWellFormed(q);
    var w := LostWord(q, i, c);
    LostWordInLanguage(q, i, c);
    assert RecordedEntry(q[0]) && RecordedEntry(q[1]);
    ShortestWord(q[0]);
    var v := if i == 0 then ShortestFrom(q[1], c) + ShortestAll(q[2..])
      else (assert Clash(q[1..], i - 1, c); LostWord(q[1..], i - 1, c));
    assert w == Shortest(q[0]) + v;
    if Accepts(q, w) {
      PassEntry(q, v);
      if i == 0 {
        ShortestFromWord(q[1], c);
      } else {
        LostWordRejected(q[1..], i - 1, c);
      }
    }
  }

  /** Replay accepts exactly the language of a recorded queue if and only if no multiple-times group holds a call
      that can start the entry after it. */
  lemma ReplayIsLanguageIff(q: Queue)
    requires Recorded(q)
    ensures (forall w :: Accepts(q, w) <==> InLanguage(q, w)) <==> Unambiguous(q)
  {
    if Unambiguous(q) {
      forall w ensures Accepts(q, w) <==> InLanguage(q, w) {
        if Accepts(q, w) {
          AcceptedIsInLanguage(q, w);
        }
        if InLanguage(q, w) {
          LanguageIsAccepted(q, w);
        }
      }
    } else {
      var i: nat, c :| Clash(q, i, c);
      LostWordInLanguage(q, i, c);
      LostWordRejected(q, i, c);
    }
  }
}
