/** The queue of expected calls as the mock keeps it: a deque of method and group objects, the groups changed
    in place. */
module MockQueue {

  import opened Mox

  datatype Item =
    | Method(call: Call)
    | InAnyOrder(unordered: UnorderedGroup)
    | MultipleTimes(multiple: MultipleTimesGroup)

  /** What a group answers to a call: its own method, the item to look at instead, or the unexpected-call error. */
  datatype Answer = Found | Instead(item: Item) | Unexpected

  ghost function Footprint(item: Item): set<object> {
    match item
    case Method(_) => {}
    case InAnyOrder(group) => {group}
    case MultipleTimes(group) => {group}
  }

  ghost function Groups(items: seq<Item>): set<object> {
    if items == [] then {} else Footprint(items[0]) + Groups(items[1..])
  }

  /** No group object is queued twice. */
  ghost predicate Separate(items: seq<Item>) {
    items == [] || (Footprint(items[0]) !! Groups(items[1..]) && Separate(items[1..]))
  }

  ghost function View(item: Item): Entry
    reads Footprint(item)
  {
    match item
    case Method(call) => Ordered(call)
    case InAnyOrder(group) => Unordered(group.methods)
    case MultipleTimes(group) => Multiple(group.methods, group.called)
  }

  ghost function Entries(items: seq<Item>): Queue
    reads Groups(items)
  {
    if items == [] then [] else [View(items[0])] + Entries(items[1..])
  }

  lemma {:induction false} EntriesLength(items: seq<Item>)
    ensures |Entries(items)| == |items|
  {
    if items != [] {
      EntriesLength(items[1..]);
    }
  }

  lemma {:induction false} GroupsAllocated(items: seq<Item>)
    ensures forall o :: o in Groups(items) ==> allocated(o)
  {
    if items != [] {
      GroupsAllocated(items[1..]);
    }
  }

  class CallQueue {
    var items: seq<Item>

    ghost predicate Valid()
      reads this
    {
      Separate(items) && this !in Groups(items)
    }

    constructor ()
      ensures Valid() && items == []
    {
      items := [];
    }

    method AppendLeft(item: Item)
      modifies this
      ensures items == [item] + old(items)
    {
      items := [item] + items;
    }

    /** The next item, or the unexpected-call error when there is none. */
    method PopNextMethod() returns (r: Answer)
      modifies this
      ensures old(items) == [] ==> r == Unexpected && items == []
      ensures old(items) != [] ==> r == Instead(old(items[0])) && items == old(items)[1..]
    {
      if items == [] {
        return Unexpected;
      }
      r := Instead(items[0]);
      items := items[1..];
    }

    /** The queue at the end of the test: everything called, except that a satisfied group may be left. */
    method Verify() returns (ok: bool)
      ensures ok == Verifies(Entries(items))
    {
      EntriesLength(items);
      ok := items == [];
      if |items| == 1 && items[0].MultipleTimes? {
        ok := items[0].multiple.IsSatisfied();
      }
    }

    /** What the group object answers, in the terms of replay over the queue with the group at its head. */
    method Ask(group: Item, c: Call) returns (answer: Answer)
      requires Valid() && !group.Method?
      requires this !in Footprint(group) && Footprint(group) !! Groups(items)
      modifies this, Footprint(group)
      ensures Valid() && Groups(items) <= old(Footprint(group) + Groups(items))
      ensures !answer.Instead? ==>
        Reply(answer.Found?, Entries(items)) == Step(old([View(group)] + Entries(items)), c)
      ensures answer.Instead? ==>
        && old(items) != [] && answer.item == old(items)[0] && items == old(items)[1..]
        && [View(answer.item)] + Entries(items) == old(Entries(items))
        && Step(old([View(group)] + Entries(items)), c) == Step(old(Entries(items)), c)
    {
      GroupsAllocated(items);
      ghost var before := [View(group)] + Entries(items);
      assert before[1..] == Entries(items) && before[0] == View(group);
      assert items != [] ==> Entries(items) == [View(items[0])] + Entries(items[1..]);
      match group
      case InAnyOrder(g) =>
        answer := g.MethodCalled(this, c);
        assert items == old(items) || items[1..] == old(items);
      case MultipleTimes(g) =>
        answer := g.MethodCalled(this, c);
        assert answer.Found? ==> items[1..] == old(items);
    }

    /** Replays one call. */
    method VerifyMethodCall(c: Call) returns (ok: bool)
      requires Valid()
      modifies this, Groups(items)
      ensures Valid()
      ensures Reply(ok, Entries(items)) == Step(old(Entries(items)), c)
    {
      ghost var all := items;
      ghost var entries := Entries(items);
      assert all != [] ==> entries == [View(all[0])] + Entries(all[1..]);
      GroupsAllocated(all);
      var next := PopNextMethod();
      if next.Unexpected? {
        return false;
      }
      var expected := next.item;
      assert Entries(items) == old(Entries(all[1..]));
      while !expected.Method?
        invariant Valid() && this !in Footprint(expected) && Footprint(expected) !! Groups(items)
        invariant Footprint(expected) + Groups(items) <= Groups(all)
        invariant Step(entries, c) == Step([View(expected)] + Entries(items), c)
        decreases |items|
      {
        hide Step;
        assert ([View(expected)] + Entries(items))[1..] == Entries(items);
        var answer := Ask(expected, c);
        match answer
        case Found => return true;
        case Unexpected => return false;
        case Instead(item) => expected := item;
      }
      assert ([View(expected)] + Entries(items))[1..] == Entries(items);
      ok := expected.call == c;
    }
  }

  lemma {:induction false} RemoveAt(calls: seq<Call>, c: Call, i: nat)
    requires i < |calls| && calls[i] == c && c !in calls[..i]
    ensures Remove(calls, c) == calls[..i] + calls[i + 1..]
  {
    if i > 0 {
      assert calls[0] == calls[..i][0];
      assert calls[1..][..i - 1] == calls[1..i] && c !in calls[1..i] by {
        forall k | 0 <= k < i - 1 ensures calls[1..i][k] != c {
          assert calls[1..i][k] == calls[..i][k + 1];
        }
      }
      RemoveAt(calls[1..], c, i - 1);
      assert calls[1..][i..] == calls[i + 1..];
    }
  }

  class UnorderedGroup {
    var methods: seq<Call>

    /** Takes the call out of the group, which goes back to the head of the queue unless it is now empty. */
    method MethodCalled(queue: CallQueue, c: Call) returns (r: Answer)
      modifies this, queue
      ensures r == if c in old(methods) then Found else Unexpected
      ensures methods == Remove(old(methods), c)
      ensures queue.items ==
              (if c in old(methods) && methods != [] then [InAnyOrder(this)] else []) + old(queue.items)
    {
      var i := 0;
      while i < |methods|
        invariant i <= |methods| && methods == old(methods) && queue.items == old(queue.items) && c !in methods[..i]
      {
        if methods[i] == c {
          RemoveAt(methods, c, i);
          methods := methods[..i] + methods[i + 1..];
          if |methods| != 0 {
            queue.AppendLeft(InAnyOrder(this));
          }
          return Found;
        }
        i := i + 1;
      }
      RemoveNone(methods, c);
      r := Unexpected;
    }
  }

  lemma {:induction false} RemoveNone(calls: seq<Call>, c: Call)
    requires c !in calls
    ensures Remove(calls, c) == calls
  {
    if calls != [] {
      RemoveNone(calls[1..], c);
      assert calls == [calls[0]] + calls[1..];
    }
  }

  class MultipleTimesGroup {
    var methods: multiset<Call>
    var called: multiset<Call>

    /** Whether every method of the group has been called: each call is struck off against one method equal to it. */
    method IsSatisfied() returns (r: bool)
      ensures r == Satisfied(methods, called)
    {
      hide Satisfied, Unmatched;
      AllUnmatched(methods, called);
      var tmp, rest := methods, called;
      while rest != multiset{}
        invariant rest <= called && tmp == Unmatched(methods, called, rest)
        invariant methods != multiset{} ==> tmp != multiset{}
        decreases |rest|
      {
        SomeMember(rest);
        var call :| call in rest;
        OneFewer(called, rest, call);
        StruckOff(methods, called, rest, call);
        if call in tmp {
          InGroup(methods, called, rest, call);
        }
        rest := rest - multiset{call};
        if call !in tmp {
          assert tmp - multiset{call} == tmp;
        } else {
          tmp := tmp - multiset{call};
          if tmp == multiset{} {
            NoneUnmatched(methods, called, rest);
            return true;
          }
        }
      }
      SomeUnmatched(methods, called);
      r := false;
    }

    /** Counts a call of the group, which stays at the head of the queue; another call goes on to the next item
        if the group is satisfied. */
    method MethodCalled(queue: CallQueue, c: Call) returns (r: Answer)
      modifies this, queue
      ensures methods == old(methods)
      ensures c in methods ==>
        r == Found && called == old(called) + multiset{c} && queue.items == [MultipleTimes(this)] + old(queue.items)
      ensures c !in methods ==> called == old(called)
      ensures c !in methods && Satisfied(methods, called) && old(queue.items) != [] ==>
        r == Instead(old(queue.items[0])) && queue.items == old(queue.items)[1..]
      ensures c !in methods && !(Satisfied(methods, called) && old(queue.items) != []) ==>
        r == Unexpected && queue.items == old(queue.items)
    {
      if c in methods {
        called := called + multiset{c};
        queue.AppendLeft(MultipleTimes(this));
        return Found;
      }
      var satisfied := IsSatisfied();
      if satisfied {
        r := queue.PopNextMethod();
      } else {
        r := Unexpected;
      }
    }
  }

  /** The methods not yet matched by a call, when the calls in rest have not been looked at. */
  function Unmatched(methods: multiset<Call>, called: multiset<Call>, rest: multiset<Call>): multiset<Call> {
    methods - (called - rest)
  }

  lemma AllUnmatched(methods: multiset<Call>, called: multiset<Call>)
    ensures Unmatched(methods, called, called) == methods
  {
    assert called - called == multiset{};
  }

  lemma InGroup(methods: multiset<Call>, called: multiset<Call>, rest: multiset<Call>, c: Call)
    requires c in Unmatched(methods, called, rest)
    ensures methods != multiset{}
  {
    assert c in methods;
  }

  lemma OneFewer(called: multiset<Call>, rest: multiset<Call>, c: Call)
    requires rest <= called && c in rest
    ensures rest - multiset{c} <= called && |rest - multiset{c}| < |rest|
  {
    assert rest == (rest - multiset{c}) + multiset{c};
  }

  lemma StruckOff(methods: multiset<Call>, called: multiset<Call>, rest: multiset<Call>, c: Call)
    requires rest <= called && c in rest
    ensures Unmatched(methods, called, rest - multiset{c}) == Unmatched(methods, called, rest) - multiset{c}
  {
    var less, more := Unmatched(methods, called, rest - multiset{c}), Unmatched(methods, called, rest);
    forall e ensures less[e] == (more - multiset{c})[e] {
      assert (rest - multiset{c})[e] == if e == c then rest[e] - 1 else rest[e];
    }
  }

  lemma NoneUnmatched(methods: multiset<Call>, called: multiset<Call>, rest: multiset<Call>)
    requires methods != multiset{} && rest <= called && Unmatched(methods, called, rest) == multiset{}
    ensures Satisfied(methods, called)
  {
    forall c ensures methods[c] <= called[c] {
      assert (methods - (called - rest))[c] == 0;
    }
  }

  lemma SomeUnmatched(methods: multiset<Call>, called: multiset<Call>)
    requires methods != multiset{} ==> Unmatched(methods, called, multiset{}) != multiset{}
    ensures !Satisfied(methods, called)
  {
    assert called - multiset{} == called;
    if methods != multiset{} {
      SomeMember(methods - called);
    }
  }
}
