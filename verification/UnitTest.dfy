/** The registry of test cases: registration, shuffling and the choice of the tests to run. */
module UnitTest {

  import opened Filters
  import opened Sharding
  import opened Shuffling
  import opened TestOrder

  class TestInfo {
    const testCaseName: string
    const name: string
    var isDisabled: bool
    var matchesFilter: bool
    var shouldRun: bool

    constructor (testCaseName: string, name: string)
      ensures this.testCaseName == testCaseName && this.name == name
    {
      this.testCaseName := testCaseName;
      this.name := name;
      isDisabled, matchesFilter, shouldRun := false, false, false;
    }

    /** What the filter loop decides for one test, so many runnable tests having come before. */
    method Filter(caseName: string, filter: string, alsoRunDisabled: bool, p: Protocol, before: nat)
      returns (isRunnable: bool, isSelected: bool)
      requires Usable(p)
      modifies this
      ensures isRunnable == IsRunnable(filter, alsoRunDisabled, caseName, name)
      ensures isSelected == (isRunnable && IsChosen(before, p)) && shouldRun == isSelected
      ensures isDisabled == IsDisabled(caseName, name) && matchesFilter == FilterMatchesTest(filter, caseName, name)
    {
      hide IsDisabled, FilterMatchesTest, IsChosen;
      isDisabled := IsDisabled(caseName, name);
      matchesFilter := FilterMatchesTest(filter, caseName, name);
      isRunnable := (alsoRunDisabled || !isDisabled) && matchesFilter;
      isSelected := isRunnable && IsChosen(before, p);
      shouldRun := isSelected;
    }
  }

  class TestCase {
    const name: string
    const testIndices: IntVector
    var tests: seq<TestInfo>
    var shouldRun: bool

    ghost predicate Valid()
      reads this, testIndices
    {
      |testIndices.elems| == |tests| && IsPermutation(testIndices.elems)
    }

    constructor (name: string)
      ensures Valid() && fresh(testIndices) && this.name == name && tests == []
    {
      var indices := new IntVector();
      this.name := name;
      testIndices := indices;
      tests := [];
      shouldRun := false;
    }

    method AddTestInfo(test: TestInfo)
      requires Valid()
      modifies this, testIndices
      ensures Valid() && tests == old(tests) + [test] && testIndices.elems == old(testIndices.elems) + [|old(tests)|]
    {
      AppendIndex(testIndices.elems);
      tests := tests + [test];
      testIndices.elems := testIndices.elems + [|testIndices.elems|];
    }

    /** Whatever the state of the generator, every test is run once. */
    method ShuffleTests(random: Random)
      requires Valid() && |tests| <= MAX_RANGE
      modifies random, testIndices
      ensures Valid() && InBounds(tests, testIndices.elems) && multiset(RunOrder()) == multiset(tests)
      ensures testIndices.elems == Shuffled(old(testIndices.elems), old(random.state))
      ensures random.state == StateAfter(old(random.state), Draws(|tests|))
    {
      hide Shuffled, StateAfter;
      var n := |testIndices.elems|;
      assert testIndices.elems[0..n] == testIndices.elems;
      ShuffleRange(random, 0, n, testIndices);
      assert testIndices.elems[0..n] == testIndices.elems;
      PickedPermutation(tests, testIndices.elems);
    }

    method UnshuffleTests()
      requires Valid()
      modifies testIndices
      ensures Valid() && testIndices.elems == Identity(|tests|)
    {
      for i := 0 to |testIndices.elems|
        invariant |testIndices.elems| == |tests| && forall k :: 0 <= k < i ==> testIndices.elems[k] == k
      {
        testIndices.elems := testIndices.elems[i := i];
      }
      assert testIndices.elems == Identity(|tests|);
    }

    ghost predicate OwnTests()
      reads this`tests
    {
      && (forall i, j :: 0 <= i < j < |tests| ==> tests[i] != tests[j])
      && (forall i :: 0 <= i < |tests| ==> tests[i].testCaseName == name)
    }

    ghost function Runnable(filter: string, alsoRunDisabled: bool): seq<bool>
      reads this`tests
    {
      var ts := tests;
      seq(|ts|, j requires 0 <= j < |ts| => IsRunnable(filter, alsoRunDisabled, name, ts[j].name))
    }

    /** Which of the tests are marked to run. */
    ghost function Flags(): seq<bool>
      reads this`tests, tests
    {
      var ts := tests;
      seq(|ts|, j requires 0 <= j < |ts| reads ts => ts[j].shouldRun)
    }

    /** The part of the filter loop that goes through one test case, with the running counts. */
    method FilterTests(filter: string, alsoRunDisabled: bool, p: Protocol, runnableBefore: nat, selectedBefore: nat)
      returns (numRunnable: nat, numSelected: nat)
      requires OwnTests() && Usable(p)
      modifies this`shouldRun, tests
      ensures var runnable := Runnable(filter, alsoRunDisabled);
        Flags() == Chosen(runnable, runnableBefore, p) && numRunnable == runnableBefore + Count(runnable)
      ensures numSelected == selectedBefore + Count(Flags())
      ensures shouldRun <==> true in Flags()
    {
      hide IsRunnable, IsDisabled, FilterMatchesTest, IsChosen, Chosen, Count;
      ghost var runnable := Runnable(filter, alsoRunDisabled);
      ghost var chosen := Chosen(runnable, runnableBefore, p);
      numRunnable, numSelected := runnableBefore, selectedBefore;
      ChosenAt(runnable, runnableBefore, p);
      NoneCounted(runnable, chosen);
      shouldRun := false;
      for j := 0 to |tests|
        invariant numRunnable == runnableBefore + Count(runnable[..j])
        invariant numSelected == selectedBefore + Count(chosen[..j])
        invariant forall k :: 0 <= k < j ==> tests[k].shouldRun == chosen[k]
        invariant shouldRun <==> true in chosen[..j]
      {
        var isRunnable, isSelected := tests[j].Filter(name, filter, alsoRunDisabled, p, numRunnable);
        CountNext(runnable, j);
        CountNext(chosen, j);
        numRunnable := numRunnable + if isRunnable then 1 else 0;
        numSelected := numSelected + if isSelected then 1 else 0;
        shouldRun := shouldRun || isSelected;
      }
      assert Flags() == chosen && chosen[..|tests|] == chosen && runnable[..|tests|] == runnable;
    }

    /** The tests in the order in which they run. */
    ghost function RunOrder(): seq<TestInfo>
      requires Valid() && InBounds(tests, testIndices.elems)
      reads this, testIndices
    {
      Picked(tests, testIndices.elems)
    }
  }

  lemma NoneCounted(a: seq<bool>, b: seq<bool>)
    ensures Count(a[..0]) == 0 && Count(b[..0]) == 0
  {
  }

  lemma CountNext(flags: seq<bool>, j: nat)
    requires j < |flags|
    ensures Count(flags[..j + 1]) == Count(flags[..j]) + if flags[j] then 1 else 0
    ensures flags[..j + 1] == flags[..j] + [flags[j]]
  {
    assert flags[..j + 1][..j] == flags[..j];
  }

  lemma AppendIndex(s: seq<nat>)
    requires IsPermutation(s)
    ensures IsPermutation(s + [|s|])
  {
    assert Identity(|s| + 1) == Identity(|s|) + [|s|];
  }

  function Inserted<T>(s: seq<T>, k: nat, x: T): seq<T>
    requires k <= |s|
  {
    s[..k] + [x] + s[k..]
  }

  function Names(cases: seq<TestCase>): seq<string> {
    seq(|cases|, i requires 0 <= i < |cases| => cases[i].name)
  }

  function Vectors(cases: seq<TestCase>): set<IntVector> {
    set c <- cases :: c.testIndices
  }

  /** No test case twice, and no index vector of two owners. */
  ghost predicate Separate(cases: seq<TestCase>, indices: IntVector) {
    && (forall i :: 0 <= i < |cases| ==> cases[i].testIndices != indices)
    && (forall i, j :: 0 <= i < j < |cases| ==> cases[i] != cases[j] && cases[i].testIndices != cases[j].testIndices)
  }

  lemma InsertedAt<T>(s: seq<T>, k: nat, x: T)
    requires k <= |s|
    ensures var t := Inserted(s, k, x);
      |t| == |s| + 1 && forall i :: 0 <= i < |t| ==> t[i] == if i < k then s[i] else if i == k then x else s[i - 1]
  {
  }

  lemma InsertedSeparate(cases: seq<TestCase>, k: nat, c: TestCase, indices: IntVector)
    requires k <= |cases| && Separate(cases, indices)
    requires c !in cases && c.testIndices !in Vectors(cases) && c.testIndices != indices
    ensures Separate(Inserted(cases, k, c), indices)
  {
    InsertedAt(cases, k, c);
    forall i | 0 <= i < |cases| ensures cases[i] != c && cases[i].testIndices != c.testIndices {
      assert cases[i] in cases;
    }
    hide Inserted, Vectors;
  }

  lemma InsertedNames(cases: seq<TestCase>, k: nat, c: TestCase)
    requires k <= |cases|
    ensures Names(Inserted(cases, k, c)) == Inserted(Names(cases), k, c.name)
  {
    InsertedAt(cases, k, c);
    InsertedAt(Names(cases), k, c.name);
    hide Inserted;
  }

  lemma InsertedMembers(cases: seq<TestCase>, k: nat, c: TestCase)
    requires k <= |cases|
    ensures forall x :: x in Inserted(cases, k, c) <==> x in cases || x == c
    ensures Vectors(Inserted(cases, k, c)) == Vectors(cases) + {c.testIndices}
  {
    assert cases == cases[..k] + cases[k..];
  }

  lemma VectorsAllocated(cases: seq<TestCase>)
    ensures forall v <- Vectors(cases) :: allocated(v)
    ensures forall c <- cases :: c.testIndices in Vectors(cases)
  {
  }

  lemma OwnIndices(cases: seq<TestCase>, indices: IntVector)
    requires Separate(cases, indices)
    ensures forall c <- cases :: c.testIndices != indices
  {
  }

  lemma OwnVectors(cases: seq<TestCase>, indices: IntVector)
    requires Separate(cases, indices)
    ensures forall c <- cases :: c.testIndices != indices && c.testIndices in Vectors(cases)
    ensures forall c <- cases, x <- cases :: c != x ==> c.testIndices != x.testIndices
    ensures forall i, j :: 0 <= i < j < |cases| ==> cases[i] != cases[j]
  {
  }

  lemma NamesLength(cases: seq<TestCase>)
    ensures |Names(cases)| == |cases|
  {
  }

  lemma Named(cases: seq<TestCase>, i: nat)
    requires i < |cases|
    ensures cases[i].name in Names(cases)
  {
    assert Names(cases)[i] == cases[i].name;
  }

  lemma NotNamed(cases: seq<TestCase>, name: string)
    requires forall k :: 0 <= k < |cases| ==> cases[k].name != name
    ensures name !in Names(cases)
  {
  }

  ghost function RunnableLists(cases: seq<TestCase>, filter: string, alsoRunDisabled: bool): seq<seq<bool>>
    reads cases
  {
    seq(|cases|, i requires 0 <= i < |cases| reads cases => cases[i].Runnable(filter, alsoRunDisabled))
  }

  ghost function AllTests(cases: seq<TestCase>): set<TestInfo>
    reads cases
  {
    set c <- cases, t <- c.tests :: t
  }

  lemma TestsOfCases(cases: seq<TestCase>)
    ensures forall c <- cases, t <- c.tests :: t in AllTests(cases)
  {
  }

  lemma ListsAt(cases: seq<TestCase>, filter: string, alsoRunDisabled: bool, p: Protocol)
    requires Usable(p)
    ensures var lists := RunnableLists(cases, filter, alsoRunDisabled);
      var chosen := ChosenLists(lists, p);
      && |lists| == |chosen| == |cases|
      && forall k :: 0 <= k < |cases| ==>
        lists[k] == cases[k].Runnable(filter, alsoRunDisabled) &&
        chosen[k] == Chosen(lists[k], Count(Joined(lists[..k])), p)
  {
  }

  lemma NextList(lists: seq<seq<bool>>, i: nat)
    requires i < |lists|
    ensures Count(Joined(lists[..i + 1])) == Count(Joined(lists[..i])) + Count(lists[i])
  {
    assert lists[..i + 1][..i] == lists[..i];
    CountJoined(Joined(lists[..i]), lists[i]);
  }

  class UnitTestImpl {
    var testCases: seq<TestCase>
    var lastDeathTestCase: int
    const testCaseIndices: IntVector
    const random: Random

    /** What registration depends on. */
    ghost function View(): Order
      requires lastDeathTestCase >= -1
      reads this
    {
      Order(Names(testCases), lastDeathTestCase + 1)
    }

    ghost predicate Valid()
      reads this, testCaseIndices, testCases, Vectors(testCases)
    {
      && -1 <= lastDeathTestCase < |testCases|
      && WellFormed(View())
      && |testCaseIndices.elems| == |testCases| && IsPermutation(testCaseIndices.elems)
      && Separate(testCases, testCaseIndices)
      && forall c <- testCases :: c.testIndices in Vectors(testCases) && c.Valid()
    }

    constructor (seed: nat)
      ensures Valid() && testCases == [] && fresh(testCaseIndices) && fresh(random)
      ensures View() == Order([], 0) && testCaseIndices.elems == Identity(0)
    {
      var indices := new IntVector();
      var generator := new Random(seed);
      testCases := [];
      lastDeathTestCase := -1;
      testCaseIndices := indices;
      random := generator;
    }

    /** The test case of that name, registered now if it is new. */
    method GetTestCase(name: string) returns (testCase: TestCase)
      requires Valid()
      modifies this, testCaseIndices
      ensures Valid() && View() == Registered(old(View()), name)
      ensures testCase in testCases && testCase.name == name
      ensures testCase in old(testCases) ==>
        testCases == old(testCases) && testCaseIndices.elems == old(testCaseIndices.elems)
      ensures testCase !in old(testCases) ==>
        && fresh(testCase) && fresh(testCase.testIndices) && testCase.tests == []
        && forall c :: c in testCases <==> c in old(testCases) || c == testCase
      ensures testCase !in old(testCases) ==>
        testCaseIndices.elems == old(testCaseIndices.elems) + [|old(testCases)|] && |testCases| == |old(testCases)| + 1
      ensures old(testCaseIndices.elems) == Identity(|old(testCases)|) ==>
        testCaseIndices.elems == Identity(|testCases|)
      ensures testCase !in old(testCases) && old(DeathsFirst()) ==>
        (DeathsFirst() <==> (IsDeathTestCase(name) ==> old(FirstOtherInPlace())))
    {
      hide WellFormed, IsPermutation, IsDeathTestCase, Names, Vectors, Separate, Registered, FrontFirst, Identity;
      NamesLength(testCases);
      var i := 0;
      while i < |testCases|
        invariant i <= |testCases| && forall k :: 0 <= k < i ==> testCases[k].name != name
      {
        if testCases[i].name == name {
          Named(testCases, i);
          AlreadyRegistered(View(), name);
          return testCases[i];
        }
        i := i + 1;
      }
      NotNamed(testCases, name);
      RegistrationAfterShuffleIff(testCaseIndices.elems, lastDeathTestCase + 1);
      NextIdentity(|testCases|);
      testCase := AddTestCase(name);
    }

    /** A new death test case goes behind the last one, any other to the end; either takes the next index. */
    method AddTestCase(name: string) returns (testCase: TestCase)
      requires Valid() && name !in View().names
      modifies this, testCaseIndices
      ensures Valid() && View() == Registered(old(View()), name)
      ensures testCase !in old(testCases) && testCase.name == name
      ensures fresh(testCase) && fresh(testCase.testIndices) && testCase.tests == []
      ensures forall c :: c in testCases <==> c in old(testCases) || c == testCase
      ensures testCaseIndices.elems == old(testCaseIndices.elems) + [|old(testCases)|]
      ensures |testCases| == |old(testCases)| + 1
      ensures lastDeathTestCase == old(lastDeathTestCase) + if IsDeathTestCase(name) then 1 else 0
    {
      hide WellFormed, IsPermutation, IsDeathTestCase, Names, Vectors, Separate, Inserted;
      ghost var before := View();
      NamesLength(testCases);
      OwnIndices(testCases, testCaseIndices);
      VectorsAllocated(testCases);
      NewName(before, name);
      RegisteredKeeps(before, name);
      AppendIndex(testCaseIndices.elems);
      testCase := new TestCase(name);
      var at := |testCases|;
      if IsDeathTestCase(name) {
        lastDeathTestCase := lastDeathTestCase + 1;
        at := lastDeathTestCase;
      }
      InsertedAt(testCases, at, testCase);
      InsertedSeparate(testCases, at, testCase, testCaseIndices);
      InsertedNames(testCases, at, testCase);
      InsertedMembers(testCases, at, testCase);
      testCases := Inserted(testCases, at, testCase);
      testCaseIndices.elems := testCaseIndices.elems + [|testCaseIndices.elems|];
    }

    /** Registers the test case if it is new, and the test with it. */
    method AddTestInfo(test: TestInfo) returns (testCase: TestCase)
      requires Valid()
      modifies this, testCaseIndices, testCases, Vectors(testCases)
      ensures Valid() && View() == Registered(old(View()), test.testCaseName)
      ensures old(testCaseIndices.elems) == Identity(|old(testCases)|) ==>
        testCaseIndices.elems == Identity(|testCases|)
      ensures testCase in testCases && testCase.name == test.testCaseName && |testCases| <= |old(testCases)| + 1
      ensures forall c <- testCases :: c in old(testCases) || (fresh(c) && fresh(c.testIndices))
      ensures forall c <- testCases ::
        c.tests == (if c in old(testCases) then old(c.tests) else []) + if c == testCase then [test] else []
    {
      hide WellFormed, IsPermutation, IsDeathTestCase, Registered, FrontFirst, Vectors, Separate, Identity, Names;
      VectorsAllocated(testCases);
      testCase := GetTestCase(test.testCaseName);
      OwnVectors(testCases, testCaseIndices);
      testCase.AddTestInfo(test);
    }

    /** No test belongs to two test cases. */
    ghost predicate DisjointTests()
      reads this`testCases, testCases`tests
    {
      forall i, j :: 0 <= i < j < |testCases| ==>
        testCases[i] != testCases[j] && forall t <- testCases[i].tests :: t !in testCases[j].tests
    }

    lemma Apart(i: nat)
      requires DisjointTests() && i < |testCases|
      ensures forall k :: 0 <= k < i ==>
        testCases[k] != testCases[i] && forall t <- testCases[k].tests :: t !in testCases[i].tests
    {
    }

    /** The index order keeps the death test cases in front. */
    ghost predicate DeathsFirst()
      reads this, testCaseIndices
    {
      FrontFirst(testCaseIndices.elems, lastDeathTestCase + 1)
    }

    /** The first test case that is no death test case, if there is one, comes first among its kind. */
    ghost predicate FirstOtherInPlace()
      requires -1 <= lastDeathTestCase < |testCaseIndices.elems|
      reads this, testCaseIndices
    {
      var d := lastDeathTestCase + 1;
      d == |testCaseIndices.elems| || testCaseIndices.elems[d] == d
    }

    /** The i-th test case to run, if there is one. */
    function GetMutableTestCase(i: int): TestCase?
      requires InBounds(testCases, testCaseIndices.elems)
      reads this, testCaseIndices
    {
      if 0 <= i < |testCaseIndices.elems| then testCases[testCaseIndices.elems[i]] else null
    }

    ghost predicate RunsAllDeathsFirst()
      requires InBounds(testCases, testCaseIndices.elems)
      reads this, testCaseIndices
    {
      && multiset(Picked(testCases, testCaseIndices.elems)) == multiset(testCases)
      && forall i :: 0 <= i < |testCaseIndices.elems| ==>
        GetMutableTestCase(i) != null && (IsDeathTestCase(GetMutableTestCase(i).name) <==> i < lastDeathTestCase + 1)
    }

    /** Every test case is run once, and the death test cases before the others exactly when the indices keep them
        first. */
    lemma RunOrder()
      requires Valid()
      ensures InBounds(testCases, testCaseIndices.elems)
      ensures multiset(Picked(testCases, testCaseIndices.elems)) == multiset(testCases)
      ensures RunsAllDeathsFirst() <==> DeathsFirst()
    {
      hide Vectors, Separate, IsDeathTestCase, Picked;
      PickedPermutation(testCases, testCaseIndices.elems);
      forall i | 0 <= i < |testCaseIndices.elems|
        ensures IsDeathTestCase(GetMutableTestCase(i).name) <==> testCaseIndices.elems[i] < lastDeathTestCase + 1
      {
        var k := testCaseIndices.elems[i];
        assert View().names[k] == testCases[k].name;
      }
    }

    /** Whatever the state of the generator, every test case is still run once; and the death test cases before the
        others exactly when they were before.  The order is that of the two shuffles. */
    method ShuffleTests()
      requires Valid()
      requires |testCases| <= MAX_RANGE && forall c <- testCases :: |c.tests| <= MAX_RANGE
      modifies random, testCaseIndices, Vectors(testCases)
      ensures Valid() && InBounds(testCases, testCaseIndices.elems)
      ensures multiset(Picked(testCases, testCaseIndices.elems)) == multiset(testCases)
      ensures RunsAllDeathsFirst() <==> old(DeathsFirst())
      ensures testCaseIndices.elems
           == ShuffledApart(old(testCaseIndices.elems), lastDeathTestCase + 1, old(random.state))
      ensures TestsShuffled(testCases, StateAfter(old(random.state), DrawsApart(|testCases|, lastDeathTestCase + 1)))
    {
      hide Vectors, Separate, IsPermutation, FrontFirst, RunsAllDeathsFirst, WellFormed, IsDeathTestCase;
      hide Shuffled, StateAfter, ShuffledApart, AllDraws, TestCounts, Picked, InBounds, DrawsApart, Names;
      ShuffleCases();
      OwnVectors(testCases, testCaseIndices);
      forall i | 0 <= i < |testCases| ensures testCases[i].testIndices.elems == old(testCases[i].testIndices.elems) {
        assert testCases[i] in testCases;
      }
      ShuffleEach();
      RunOrder();
    }

    method ShuffleCases()
      requires Valid() && |testCases| <= MAX_RANGE
      modifies random, testCaseIndices
      ensures Valid() && (DeathsFirst() <==> old(DeathsFirst()))
      ensures testCaseIndices.elems
           == ShuffledApart(old(testCaseIndices.elems), lastDeathTestCase + 1, old(random.state))
      ensures random.state == StateAfter(old(random.state), DrawsApart(|testCases|, lastDeathTestCase + 1))
    {
      hide Shuffled, StateAfter, FrontFirst, IsPermutation, WellFormed, Names;
      var n, d := |testCases|, lastDeathTestCase + 1;
      ghost var before := testCaseIndices.elems;
      OwnIndices(testCases, testCaseIndices);
      ShuffleRange(random, 0, d, testCaseIndices);
      ghost var between := testCaseIndices.elems;
      ShuffleRange(random, d, n, testCaseIndices);
      TwoShuffles(before, between, testCaseIndices.elems, d);
      Halves(before, between, testCaseIndices.elems, d);
      StateAfterMore(old(random.state), Draws(d), Draws(n - d));
    }

    /** The tests of each test case, with the numbers that follow. */
    method ShuffleEach()
      requires Valid() && forall c <- testCases :: |c.tests| <= MAX_RANGE
      modifies random, Vectors(testCases)
      ensures Valid() && testCaseIndices.elems == old(testCaseIndices.elems)
      ensures TestsShuffled(testCases, old(random.state))
    {
      hide Vectors, Separate, IsPermutation, WellFormed, Names, Shuffled, StateAfter, AllDraws, TestCounts, Draws;
      OwnVectors(testCases, testCaseIndices);
      NoDraws(old(random.state), TestCounts(testCases));
      for i := 0 to |testCases|
        invariant testCaseIndices.elems == old(testCaseIndices.elems) && forall c <- testCases :: c.Valid()
        invariant random.state == StateAfter(old(random.state), AllDraws(TestCounts(testCases)[..i]))
        invariant forall k :: i <= k < |testCases| ==>
          testCases[k].testIndices.elems == old(testCases[k].testIndices.elems)
        invariant forall k :: 0 <= k < i ==>
          testCases[k].testIndices.elems
          == Shuffled(old(testCases[k].testIndices.elems),
                      StateAfter(old(random.state), AllDraws(TestCounts(testCases)[..k])))
      {
        var c := testCases[i];
        NextDraws(old(random.state), testCases, i);
        c.ShuffleTests(random);
      }
    }

    /** Back to the order of registration, for the test cases and for the tests of each. */
    method UnshuffleTests()
      requires Valid()
      modifies testCaseIndices, Vectors(testCases)
      ensures Valid() && DeathsFirst() && testCaseIndices.elems == Identity(|testCases|)
      ensures forall c <- testCases :: c.testIndices.elems == Identity(|c.tests|)
    {
      hide Vectors, Separate, IsPermutation, WellFormed, IsDeathTestCase, Identity;
      OwnVectors(testCases, testCaseIndices);
      for i := 0 to |testCases|
        invariant |testCaseIndices.elems| == |testCases| && forall k :: 0 <= k < i ==> testCaseIndices.elems[k] == k
        invariant forall c <- testCases :: c.Valid()
        invariant forall k :: 0 <= k < i ==> testCases[k].testIndices.elems == Identity(|testCases[k].tests|)
      {
        testCases[i].UnshuffleTests();
        testCaseIndices.elems := testCaseIndices.elems[i := i];
      }
      IsIdentity(testCaseIndices.elems);
    }

    /** Goes through the test cases in the order in which they run. */
    method VisitTestCases() returns (run: seq<string>)
      requires Valid()
      ensures InBounds(View().names, testCaseIndices.elems) && run == Picked(View().names, testCaseIndices.elems)
    {
      hide Vectors, Separate, WellFormed;
      NamesLength(testCases);
      PickedPermutation(testCases, testCaseIndices.elems);
      run := [];
      for i := 0 to |testCaseIndices.elems|
        invariant |run| == i && forall k :: 0 <= k < i ==> run[k] == View().names[testCaseIndices.elems[k]]
      {
        var testCase := GetMutableTestCase(i);
        run := run + [testCase.name];
      }
    }

    /** Shuffle when asked to, visit every test case, and restore the order. */
    method RunIteration(shuffle: bool, seed: nat) returns (run: seq<string>)
      requires Valid() && testCaseIndices.elems == Identity(|testCases|)
      requires |testCases| <= MAX_RANGE && forall c <- testCases :: |c.tests| <= MAX_RANGE
      modifies random, testCaseIndices, Vectors(testCases)
      ensures Valid() && testCaseIndices.elems == Identity(|testCases|)
      ensures IsRun(View(), run) && run == RunWith(View(), shuffle, seed)
    {
      hide Vectors, Separate, IsPermutation, FrontFirst, Identity, IsRun, Names, Picked, WellFormed;
      hide RunsAllDeathsFirst, TestsShuffled, ShuffledApart, StateAfter, DrawsApart;
      IdentityFrontFirst(|testCases|, lastDeathTestCase + 1);
      RunOrder();
      if shuffle {
        random.Reseed(seed);
        ShuffleTests();
        RunOrder();
      }
      run := VisitTestCases();
      NamesLength(testCases);
      RunOf(View(), testCaseIndices.elems);
      UnshuffleTests();
    }

    /** One iteration for each seed. */
    method RunAllTests(shuffle: bool, seeds: seq<nat>) returns (runs: seq<seq<string>>)
      requires Valid() && testCaseIndices.elems == Identity(|testCases|)
      requires |testCases| <= MAX_RANGE && forall c <- testCases :: |c.tests| <= MAX_RANGE
      modifies random, testCaseIndices, Vectors(testCases)
      ensures Valid() && testCaseIndices.elems == Identity(|testCases|)
      ensures |runs| == |seeds|
      ensures forall k :: 0 <= k < |runs| ==> IsRun(View(), runs[k]) && runs[k] == RunWith(View(), shuffle, seeds[k])
    {
      hide Vectors, Separate, WellFormed, IsPermutation, FrontFirst, Identity, IsRun, RunWith, Names, Picked;
      ghost var o := View();
      NamesLength(testCases);
      OwnVectors(testCases, testCaseIndices);
      runs := [];
      for i := 0 to |seeds|
        invariant Valid() && testCaseIndices.elems == Identity(|testCases|) && |runs| == i
        invariant forall k :: 0 <= k < |runs| ==> IsRun(o, runs[k]) && runs[k] == RunWith(o, shuffle, seeds[k])
      {
        var run := RunIteration(shuffle, seeds[i]);
        runs := runs + [run];
      }
    }

    /** Decides for every test whether it runs, and counts those that do: the tests of all test cases, in one list,
        are chosen as the protocol says, and a test case runs if one of its tests does. */
    method FilterTests(filter: string, alsoRunDisabled: bool, p: Protocol) returns (numSelected: nat)
      requires Usable(p) && forall c <- testCases :: c.OwnTests()
      requires DisjointTests()
      modifies testCases`shouldRun, AllTests(testCases)
      ensures var chosen := ChosenLists(old(RunnableLists(testCases, filter, alsoRunDisabled)), p);
        |chosen| == |testCases| && numSelected == Count(Joined(chosen)) &&
        forall i :: 0 <= i < |testCases| ==> testCases[i].Flags() == chosen[i]
      ensures forall c <- testCases :: c.shouldRun <==> true in c.Flags()
    {
      hide Count, Joined, Chosen, DisjointTests, ChosenLists, RunnableLists, AllTests;
      hide TestCase.Flags, TestCase.Runnable, TestCase.OwnTests;
      ghost var lists := RunnableLists(testCases, filter, alsoRunDisabled);
      ghost var chosen := ChosenLists(lists, p);
      ListsAt(testCases, filter, alsoRunDisabled, p);
      var numRunnable: nat := 0;
      numSelected := 0;
      NoLists();
      TestsOfCases(testCases);
      for i := 0 to |testCases|
        invariant forall c <- testCases, t <- c.tests :: t in old(AllTests(testCases))
        invariant numRunnable == Count(Joined(lists[..i])) && numSelected == Count(Joined(chosen[..i]))
        invariant forall k :: 0 <= k < i ==>
          testCases[k].Flags() == chosen[k] && (testCases[k].shouldRun <==> true in testCases[k].Flags())
      {
        NextList(lists, i);
        NextList(chosen, i);
        Apart(i);
        label before:
        numRunnable, numSelected := testCases[i].FilterTests(filter, alsoRunDisabled, p, numRunnable, numSelected);
        forall k | 0 <= k < i ensures testCases[k].Flags() == old@before(testCases[k].Flags()) {
          SameFlags@before(testCases[k]);
        }
      }
      assert chosen[..|testCases|] == chosen;
    }
  }

  /** The first d and the rest, shuffled one after the other. */
  function ShuffledApart(s: seq<nat>, d: nat, state: nat): (all: seq<nat>)
    requires d <= |s|
    ensures |all| == |s|
  {
    Shuffled(s[..d], state) + Shuffled(s[d..], StateAfter(state, Draws(d)))
  }

  function DrawsApart(n: nat, d: nat): nat
    requires d <= n
  {
    Draws(d) + Draws(n - d)
  }

  function AllDraws(widths: seq<nat>): nat {
    if widths == [] then 0 else AllDraws(widths[..|widths| - 1]) + Draws(widths[|widths| - 1])
  }

  function TestCounts(cases: seq<TestCase>): (counts: seq<nat>)
    reads cases
    ensures |counts| == |cases|
  {
    seq(|cases|, i requires 0 <= i < |cases| reads cases => |cases[i].tests|)
  }

  lemma Halves(before: seq<nat>, between: seq<nat>, after: seq<nat>, d: nat)
    requires d <= |before| == |between| == |after|
    requires between[d..] == before[d..] && after[..d] == between[..d]
    ensures before[0..d] == before[..d] && between[0..d] == between[..d] && after == after[..d] + after[d..|after|]
    ensures between[d..|between|] == before[d..]
  {
  }

  lemma NoDraws(state: nat, widths: seq<nat>)
    ensures StateAfter(state, AllDraws(widths[..0])) == state
  {
  }

  lemma NextDraws(state: nat, cases: seq<TestCase>, i: nat)
    requires i < |cases|
    ensures StateAfter(StateAfter(state, AllDraws(TestCounts(cases)[..i])), Draws(|cases[i].tests|))
         == StateAfter(state, AllDraws(TestCounts(cases)[..i + 1]))
  {
    hide StateAfter, Draws;
    var widths := TestCounts(cases);
    assert widths[..i + 1][..i] == widths[..i];
    StateAfterMore(state, AllDraws(widths[..i]), Draws(widths[i]));
  }

  /** The tests of every test case are shuffled, one test case after another, from that state of the generator. */
  twostate predicate TestsShuffled(cases: seq<TestCase>, state: nat)
    reads cases, Vectors(cases)
  {
    forall i :: 0 <= i < |cases| ==>
      cases[i].testIndices.elems
      == Shuffled(old(cases[i].testIndices.elems), StateAfter(state, AllDraws(TestCounts(cases)[..i])))
  }

  /** Every test case once, the death test cases before the others. */
  predicate IsRun(o: Order, run: seq<string>) {
    && multiset(run) == multiset(o.names)
    && forall i :: 0 <= i < |run| ==> (IsDeathTestCase(run[i]) <==> i < o.deaths)
  }

  /** The order of a run: that of registration, or the shuffles a seed gives of the death test cases and of the
      others. */
  function RunWith(o: Order, shuffle: bool, seed: nat): seq<string>
    requires o.deaths <= |o.names|
  {
    if shuffle then
      ApartInBounds(|o.names|, o.deaths, seed);
      Picked(o.names, ShuffledApart(Identity(|o.names|), o.deaths, seed))
    else o.names
  }

  lemma ApartInBounds(n: nat, d: nat, state: nat)
    requires d <= n
    ensures forall k :: 0 <= k < n ==> ShuffledApart(Identity(n), d, state)[k] < n
  {
    var s := Identity(n);
    ShuffledMembers(s[..d], state);
    ShuffledMembers(s[d..], StateAfter(state, Draws(d)));
    assert s == s[..d] + s[d..];
    hide Shuffled, StateAfter;
    var t := ShuffledApart(s, d, state);
    assert multiset(t) == multiset(s);
    forall k | 0 <= k < n ensures t[k] < n {
      InRange(t, k);
    }
  }

  lemma RunOf(o: Order, s: seq<nat>)
    requires WellFormed(o) && |s| == |o.names| && IsPermutation(s) && FrontFirst(s, o.deaths)
    ensures InBounds(o.names, s) && IsRun(o, Picked(o.names, s))
    ensures s == Identity(|s|) ==> Picked(o.names, s) == o.names
  {
    hide IsDeathTestCase;
    PickedPermutation(o.names, s);
  }

  function CaseNames(registrations: seq<(string, string)>): seq<string> {
    seq(|registrations|, i requires 0 <= i < |registrations| => registrations[i].0)
  }

  /** Whatever tests are registered, in whatever order, and whatever the seeds: every iteration visits every test case
      once, and the death test cases before the others. */
  method RunProgram(registrations: seq<(string, string)>, shuffle: bool, seeds: seq<nat>)
    returns (runs: seq<seq<string>>)
    requires |registrations| <= MAX_RANGE
    ensures |runs| == |seeds|
    ensures var o := RegisterAll(CaseNames(registrations));
      forall k :: 0 <= k < |runs| ==> IsRun(o, runs[k]) && runs[k] == RunWith(o, shuffle, seeds[k])
  {
    hide IsRun, RunWith, Separate, WellFormed, IsPermutation, FrontFirst, Identity, Names, Registered, CaseNames;
    var names := CaseNames(registrations);
    SameLength(registrations);
    var unitTest := new UnitTestImpl(0);
    for i := 0 to |registrations|
      invariant unitTest.Valid() && unitTest.View() == RegisterAll(names[..i])
      invariant unitTest.testCaseIndices.elems == Identity(|unitTest.testCases|) && |unitTest.testCases| <= i
      invariant fresh(unitTest) && fresh(unitTest.testCaseIndices) && fresh(unitTest.random)
      invariant forall c <- unitTest.testCases :: |c.tests| <= i && fresh(c) && fresh(c.testIndices)
    {
      var test := new TestInfo(registrations[i].0, registrations[i].1);
      assert forall v <- Vectors(unitTest.testCases) :: fresh(v);
      forall k | 0 <= k < |unitTest.testCases| ensures fresh(unitTest.testCases[k]) {
        assert unitTest.testCases[k] in unitTest.testCases;
      }
      var _ := unitTest.AddTestInfo(test);
      NextName(registrations, i);
    }
    assert names[..|registrations|] == names;
    runs := unitTest.RunAllTests(shuffle, seeds);
  }

  lemma SameLength(registrations: seq<(string, string)>)
    ensures |CaseNames(registrations)| == |registrations|
  {
  }

  lemma NextName(registrations: seq<(string, string)>, i: nat)
    requires i < |registrations|
    ensures var names := CaseNames(registrations);
      |names| == |registrations| &&
      RegisterAll(names[..i + 1]) == Registered(RegisterAll(names[..i]), registrations[i].0)
  {
    hide Registered;
    var names := CaseNames(registrations);
    assert names[..i + 1][..i] == names[..i];
  }

  twostate lemma SameFlags(c: TestCase)
    requires c.tests == old(c.tests) && forall t <- c.tests :: old(allocated(t)) && t.shouldRun == old(t.shouldRun)
    ensures c.Flags() == old(c.Flags())
  {
  }

  lemma NoLists()
    ensures Count(Joined([])) == 0
  {
  }

  lemma IsIdentity(s: seq<nat>)
    requires forall k :: 0 <= k < |s| ==> s[k] == k
    ensures s == Identity(|s|) && IsPermutation(s)
  {
  }

  /** The first d positions hold the first d numbers. */
  predicate FrontFirst(s: seq<nat>, d: int) {
    forall k :: 0 <= k < |s| ==> (k < d <==> s[k] < d)
  }

  /** After a shuffle a new death test case is in front of the others exactly when the indices name the place it
      is inserted at in that same place, or when there are no others. */
  lemma RegistrationAfterShuffleIff(s: seq<nat>, d: nat)
    requires IsPermutation(s) && d <= |s|
    ensures FrontFirst(s + [|s|], d) <==> FrontFirst(s, d)
    ensures FrontFirst(s, d) ==> (FrontFirst(s + [|s|], d + 1) <==> d == |s| || s[d] == d)
  {
    var t := s + [|s|];
    assert t[|s|] == |s| && forall k :: 0 <= k < |s| ==> t[k] == s[k];
    if d < |s| {
      NoTwice(s, d);
    }
  }

  lemma {:induction false} NoTwice(s: seq<nat>, x: nat)
    requires IsPermutation(s) && x < |s|
    ensures exists k :: 0 <= k < |s| && s[k] == x
    ensures forall i, j :: 0 <= i < j < |s| && s[i] == x ==> s[j] != x
  {
    assert Identity(|s|)[x] == x;
    assert x in multiset(s);
    OnceOnly(|s|, x);
    forall i, j | 0 <= i < j < |s| && s[i] == x ensures s[j] != x {
      assert s == s[..j] + [s[j]] + s[j + 1..];
      assert s[i] == s[..j][i];
      assert x in multiset(s[..j]);
    }
  }

  lemma {:induction false} OnceOnly(n: nat, x: nat)
    ensures multiset(Identity(n))[x] == if x < n then 1 else 0
  {
    if n > 0 {
      OnceOnly(n - 1, x);
      assert Identity(n) == Identity(n - 1) + [n - 1];
    }
  }

  lemma IdentityFrontFirst(n: nat, d: int)
    ensures IsPermutation(Identity(n)) && FrontFirst(Identity(n), d)
  {
  }

  lemma TwoShuffles(before: seq<nat>, between: seq<nat>, after: seq<nat>, d: nat)
    requires IsPermutation(before) && d <= |before| == |between| == |after|
    requires multiset(between[0..d]) == multiset(before[0..d]) && between[d..] == before[d..]
    requires multiset(after[d..|before|]) == multiset(between[d..|before|]) && after[..d] == between[..d]
    ensures IsPermutation(after) && (FrontFirst(after, d) <==> FrontFirst(before, d))
  {
    assert after[d..|before|] == after[d..] && between[d..|before|] == between[d..];
    assert between[0..d] == between[..d] && before[0..d] == before[..d];
    RangesApart(before, after, d);
    RangesApart(after, before, d);
  }

  lemma AlreadyRegistered(o: Order, name: string)
    requires o.deaths <= |o.names| && name in o.names
    ensures Registered(o, name) == o
  {
  }

  lemma NextIdentity(n: nat)
    ensures Identity(n) + [n] == Identity(n + 1)
  {
  }

  lemma NewName(o: Order, name: string)
    requires o.deaths <= |o.names| && name !in o.names
    ensures Registered(o, name) ==
      if IsDeathTestCase(name) then Order(Inserted(o.names, o.deaths, name), o.deaths + 1)
      else Order(Inserted(o.names, |o.names|, name), o.deaths)
  {
    hide IsDeathTestCase;
    assert o.names[..|o.names|] == o.names;
  }
}
