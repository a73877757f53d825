/** Test filters: wildcard patterns separated by colons. */
module Filters {

  /** The pattern ends at its first colon. */
  predicate AtEnd(pattern: string) {
    pattern == "" || pattern[0] == ':'
  }

  predicate PatternMatchesString(pattern: string, str: string)
    decreases |pattern| + |str|
  {
    if AtEnd(pattern) then str == ""
    else
      match pattern[0]
      case '?' => str != "" && PatternMatchesString(pattern[1..], str[1..])
      case '*' => (str != "" && PatternMatchesString(pattern, str[1..])) || PatternMatchesString(pattern[1..], str)
      case c => str != "" && c == str[0] && PatternMatchesString(pattern[1..], str[1..])
  }

  /** What one character of a pattern stands for. */
  predicate Stands(c: char, part: string) {
    if c == '*' then true else if c == '?' then |part| == 1 else part == [c]
  }

  /** The string is a concatenation of parts, one for every character of the pattern. */
  ghost predicate Denotes(pattern: string, str: string)
    decreases |pattern|
  {
    if AtEnd(pattern) then str == "" else exists k: nat :: PartAt(pattern, str, k)
  }

  ghost predicate PartAt(pattern: string, str: string, k: nat)
    requires !AtEnd(pattern)
    decreases |pattern|, 0
  {
    k <= |str| && Stands(pattern[0], str[..k]) && Denotes(pattern[1..], str[k..])
  }

  lemma SomePart(pattern: string, str: string) returns (k: nat)
    requires !AtEnd(pattern) && Denotes(pattern, str)
    ensures PartAt(pattern, str, k)
  {
    k :| PartAt(pattern, str, k);
  }

  /** The recursive matcher decides the language of the pattern. */
  lemma {:induction false} MatcherIsLanguage(pattern: string, str: string)
    ensures PatternMatchesString(pattern, str) <==> Denotes(pattern, str)
    decreases |pattern| + |str|
  {
    if !AtEnd(pattern) {
      if pattern[0] == '*' {
        StarMatches(pattern, str);
      } else {
        SingleMatches(pattern, str);
      }
    }
  }

  lemma {:induction false} SingleMatches(pattern: string, str: string)
    requires !AtEnd(pattern) && pattern[0] != '*'
    ensures PatternMatchesString(pattern, str) <==> Denotes(pattern, str)
    decreases |pattern| + |str|, 0
  {
    if str != "" {
      MatcherIsLanguage(pattern[1..], str[1..]);
      assert str[..1] == [str[0]];
      assert PartAt(pattern, str, 1) <==> PatternMatchesString(pattern, str);
    }
    if Denotes(pattern, str) {
      var k := SomePart(pattern, str);
      assert |str[..k]| == k == 1;
    }
  }

  lemma {:induction false} StarMatches(pattern: string, str: string)
    requires !AtEnd(pattern) && pattern[0] == '*'
    ensures PatternMatchesString(pattern, str) <==> Denotes(pattern, str)
    decreases |pattern| + |str|, 0
  {
    assert str[0..] == str;
    MatcherIsLanguage(pattern[1..], str);
    assert PartAt(pattern, str, 0) <==> PatternMatchesString(pattern[1..], str);
    if str != "" {
      MatcherIsLanguage(pattern, str[1..]);
      if Denotes(pattern, str[1..]) {
        var k := SomePart(pattern, str[1..]);
        assert str[1..][k..] == str[k + 1..];
        assert PartAt(pattern, str, k + 1);
      }
    }
    if Denotes(pattern, str) {
      var k := SomePart(pattern, str);
      if k > 0 {
        assert str[1..][k - 1..] == str[k..];
        assert PartAt(pattern, str[1..], k - 1);
      }
    }
  }

  /** The position of the first colon, or the length. */
  function Colon(filter: string): (k: nat)
    ensures k <= |filter|
  {
    if AtEnd(filter) then 0 else 1 + Colon(filter[1..])
  }

  predicate MatchesFilter(name: string, filter: string)
    decreases |filter|
  {
    || PatternMatchesString(filter, name)
    || (Colon(filter) < |filter| && MatchesFilter(name, filter[Colon(filter) + 1..]))
  }

  /** Tries the patterns one after another. */
  method FindPattern(name: string, filter: string) returns (r: bool)
    ensures r == MatchesFilter(name, filter)
  {
    var curPattern := filter;
    while true
      invariant MatchesFilter(name, curPattern) == MatchesFilter(name, filter)
      decreases |curPattern|
    {
      if PatternMatchesString(curPattern, name) {
        return true;
      }
      if Colon(curPattern) == |curPattern| {
        return false;
      }
      curPattern := curPattern[Colon(curPattern) + 1..];
    }
  }

  /** A pattern of the filter starts at i and its language holds the name. */
  ghost predicate MatchesAt(name: string, filter: string, i: nat) {
    i <= |filter| && (i > 0 ==> filter[i - 1] == ':') && Denotes(filter[i..], name)
  }

  lemma ColonFacts(filter: string)
    ensures Colon(filter) < |filter| ==> filter[Colon(filter)] == ':'
    ensures forall k :: 0 <= k < Colon(filter) ==> filter[k] != ':'
  {
    if !AtEnd(filter) {
      ColonFacts(filter[1..]);
      assert filter == [filter[0]] + filter[1..];
    }
  }

  /** The patterns behind the first colon start where they start in the rest of the filter. */
  lemma MatchesBehind(name: string, filter: string, i: nat)
    requires Colon(filter) < |filter|
    ensures MatchesAt(name, filter[Colon(filter) + 1..], i) <==> MatchesAt(name, filter, i + (Colon(filter) + 1))
  {
    ColonFacts(filter);
    hide MatchesAt, Colon;
    ShiftedMatch(name, filter, i, Colon(filter) + 1);
  }

  lemma ShiftedMatch(name: string, filter: string, i: nat, c: nat)
    requires 0 < c <= |filter| && filter[c - 1] == ':'
    ensures MatchesAt(name, filter[c..], i) <==> MatchesAt(name, filter, i + c)
  {
    hide Denotes;
    if i <= |filter| - c {
      assert filter[c..][i..] == filter[i + c..];
    }
  }

  lemma NoneBefore(name: string, filter: string, i: nat)
    requires 0 < i <= Colon(filter)
    ensures !MatchesAt(name, filter, i)
  {
    ColonFacts(filter);
    hide Denotes, Colon;
  }

  lemma OnlyFirst(name: string, filter: string, i: nat)
    requires Colon(filter) == |filter| && MatchesAt(name, filter, i)
    ensures i == 0
  {
    ColonFacts(filter);
  }

  lemma MatchesFirst(name: string, filter: string)
    ensures MatchesAt(name, filter, 0) <==> PatternMatchesString(filter, name)
  {
    hide PatternMatchesString, Denotes;
    MatcherIsLanguage(filter, name);
    assert filter[0..] == filter;
  }

  /** A filter matches the union of the languages of its patterns. */
  lemma {:induction false} FilterIsUnion(name: string, filter: string)
    ensures MatchesFilter(name, filter) <==> exists i: nat :: MatchesAt(name, filter, i)
    decreases |filter|
  {
    hide PatternMatchesString, MatchesAt, Colon;
    MatchesFirst(name, filter);
    if Colon(filter) < |filter| {
      var c := Colon(filter) + 1;
      FilterIsUnion(name, filter[c..]);
      if i: nat :| MatchesAt(name, filter[c..], i) {
        MatchesBehind(name, filter, i);
      }
      if i: nat :| MatchesAt(name, filter, i) && i > 0 {
        if i < c {
          NoneBefore(name, filter, i);
        }
        MatchesBehind(name, filter, i - c);
      }
    } else if i: nat :| MatchesAt(name, filter, i) {
      OnlyFirst(name, filter, i);
    }
  }

  const DEATH_TEST_CASE_FILTER := "*DeathTest:*DeathTest/*"
  const DISABLE_TEST_FILTER := "DISABLED_*:*/DISABLED_*"
  const UNIVERSAL_FILTER := "*"

  predicate IsDeathTestCase(name: string) {
    MatchesFilter(name, DEATH_TEST_CASE_FILTER)
  }

  /** The positive and the negative part of the filter, split at its first dash. */
  predicate FilterMatchesTest(filter: string, testCaseName: string, testName: string) {
    var fullName := testCaseName + "." + testName;
    var dash := Dash(filter);
    var positive := if dash == 0 then (if filter == "" then "" else UNIVERSAL_FILTER) else filter[..dash];
    var negative := if dash == |filter| then "" else filter[dash + 1..];
    MatchesFilter(fullName, positive) && !MatchesFilter(fullName, negative)
  }

  function Dash(filter: string): (k: nat)
    ensures k <= |filter|
  {
    if filter == "" || filter[0] == '-' then 0 else 1 + Dash(filter[1..])
  }

  predicate IsDisabled(testCaseName: string, testName: string) {
    MatchesFilter(testCaseName, DISABLE_TEST_FILTER) || MatchesFilter(testName, DISABLE_TEST_FILTER)
  }

  /** Whether a test would run if there were one shard. */
  predicate IsRunnable(filter: string, alsoRunDisabled: bool, testCaseName: string, testName: string) {
    (alsoRunDisabled || !IsDisabled(testCaseName, testName)) && FilterMatchesTest(filter, testCaseName, testName)
  }

  // ---------- which test cases are death tests ----------

  /** No character of the word is special in a pattern. */
  predicate Literal(word: string) {
    forall k :: 0 <= k < |word| ==> word[k] != ':' && word[k] != '?' && word[k] != '*'
  }

  lemma {:induction false} LiteralMatches(word: string, pattern: string, str: string)
    requires Literal(word)
    ensures PatternMatchesString(word + pattern, str) <==> word <= str && PatternMatchesString(pattern, str[|word|..])
  {
    if word == "" {
      assert word + pattern == pattern && str[0..] == str;
    } else {
      var rest := word + pattern;
      assert rest[1..] == word[1..] + pattern;
      if str != "" && str[0] == word[0] {
        LiteralMatches(word[1..], pattern, str[1..]);
        assert word == [word[0]] + word[1..] && str == [str[0]] + str[1..];
        assert word <= str <==> word[1..] <= str[1..];
        assert word <= str ==> str[1..][|word| - 1..] == str[|word|..];
      }
    }
  }

  /** The tail of the string from k matches. */
  predicate TailMatches(pattern: string, str: string, k: nat) {
    k <= |str| && PatternMatchesString(pattern, str[k..])
  }

  lemma TailOfTail(pattern: string, str: string, k: nat)
    requires str != ""
    ensures TailMatches(pattern, str[1..], k) == TailMatches(pattern, str, k + 1)
  {
    if k + 1 <= |str| {
      assert str[1..][k..] == str[k + 1..];
    }
  }

  /** A star followed by a pattern matches when some tail of the string does. */
  lemma {:induction false} StarThen(pattern: string, str: string)
    ensures PatternMatchesString("*" + pattern, str) <==> exists k: nat :: TailMatches(pattern, str, k)
  {
    hide TailMatches;
    var all := "*" + pattern;
    assert all[1..] == pattern;
    StarHere(pattern, str);
    if str != "" {
      StarThen(pattern, str[1..]);
      if k: nat :| TailMatches(pattern, str[1..], k) {
        TailOfTail(pattern, str, k);
      }
      if k: nat :| TailMatches(pattern, str, k) && k > 0 {
        TailOfTail(pattern, str, k - 1);
      }
    } else if k: nat :| TailMatches(pattern, str, k) {
      OnlyHere(pattern, k);
    }
  }

  lemma StarHere(pattern: string, str: string)
    ensures TailMatches(pattern, str, 0) == PatternMatchesString(pattern, str)
  {
    assert str[0..] == str;
  }

  lemma OnlyHere(pattern: string, k: nat)
    requires TailMatches(pattern, "", k)
    ensures k == 0
  {
  }

  lemma {:induction false} ColonAfter(word: string, rest: string)
    requires forall k :: 0 <= k < |word| ==> word[k] != ':'
    ensures Colon(word + rest) == |word| + Colon(rest)
  {
    if word == "" {
      assert word + rest == rest;
    } else {
      assert (word + rest)[1..] == word[1..] + rest;
      ColonAfter(word[1..], rest);
    }
  }

  predicate EndsWith(name: string, tail: string) {
    |tail| <= |name| && name[|name| - |tail|..] == tail
  }

  ghost predicate Contains(name: string, word: string) {
    exists k :: 0 <= k <= |name| && word <= name[k..]
  }

  lemma EndMatches(pattern: string, str: string)
    requires AtEnd(pattern)
    ensures PatternMatchesString(pattern, str) <==> str == ""
  {
  }

  lemma FirstPattern(name: string)
    ensures PatternMatchesString(DEATH_TEST_CASE_FILTER, name) <==> EndsWith(name, "DeathTest")
  {
    hide PatternMatchesString;
    var word, rest := "DeathTest", ":*DeathTest/*";
    assert DEATH_TEST_CASE_FILTER == "*" + (word + rest);
    StarThen(word + rest, name);
    forall k | 0 <= k <= |name| ensures PatternMatchesString(word + rest, name[k..]) <==> name[k..] == word {
      LiteralMatches(word, rest, name[k..]);
      if word <= name[k..] {
        EndMatches(rest, name[k..][|word|..]);
      }
    }
    if EndsWith(name, word) {
      assert TailMatches(word + rest, name, |name| - |word|);
    }
  }

  lemma SecondPattern(name: string)
    ensures PatternMatchesString("*DeathTest/*", name) <==> Contains(name, "DeathTest/")
  {
    var word := "DeathTest/";
    assert "*DeathTest/*" == "*" + (word + "*");
    StarThen(word + "*", name);
    forall k: nat ensures TailMatches(word + "*", name, k) <==> k <= |name| && word <= name[k..] {
      if k <= |name| {
        LiteralMatches(word, "*", name[k..]);
        if word <= name[k..] {
          StarAlone(name[k..][|word|..]);
        }
      }
    }
    hide TailMatches;
    if Contains(name, word) {
      var k :| 0 <= k <= |name| && word <= name[k..];
      assert TailMatches(word + "*", name, k);
    }
  }

  lemma {:induction false} StarAlone(str: string)
    ensures PatternMatchesString("*", str)
  {
    assert "*"[1..] == "";
    if str != "" {
      StarAlone(str[1..]);
    }
  }

  /** A death test case is one whose name ends in DeathTest or holds it before a slash. */
  lemma DeathTestCaseNames(name: string)
    ensures IsDeathTestCase(name) <==> EndsWith(name, "DeathTest") || Contains(name, "DeathTest/")
  {
    hide PatternMatchesString, Colon;
    FirstPattern(name);
    SecondPattern(name);
    var filter, second := DEATH_TEST_CASE_FILTER, "*DeathTest/*";
    TwoPatterns(name, "*DeathTest", second);
    assert filter == "*DeathTest" + ":" + second;
  }

  lemma TwoPatterns(name: string, first: string, second: string)
    requires forall k :: 0 <= k < |first| ==> first[k] != ':'
    requires forall k :: 0 <= k < |second| ==> second[k] != ':'
    ensures var filter := first + ":" + second;
      MatchesFilter(name, filter) <==> PatternMatchesString(filter, name) || PatternMatchesString(second, name)
  {
    hide PatternMatchesString;
    var filter := first + ":" + second;
    assert filter == first + (":" + second);
    ColonAfter(first, ":" + second);
    assert filter[|first| + 1..] == second;
    assert second == second + "";
    ColonAfter(second, "");
  }

  // ---------- which tests are disabled, and which a filter selects ----------

  lemma StarThenEnd(rest: string, str: string)
    requires AtEnd(rest)
    ensures PatternMatchesString("*" + rest, str)
  {
    StarThen(rest, str);
    EndMatches(rest, str[|str|..]);
    assert TailMatches(rest, str, |str|);
  }

  /** A literal word and a star: the names that begin with the word. */
  lemma WordThenStar(word: string, rest: string, name: string)
    requires Literal(word) && AtEnd(rest)
    ensures PatternMatchesString(word + ("*" + rest), name) <==> word <= name
  {
    hide PatternMatchesString;
    LiteralMatches(word, "*" + rest, name);
    if word <= name {
      StarThenEnd(rest, name[|word|..]);
    }
  }

  /** The same with a star in front: the names that hold the word. */
  lemma StarWordStar(word: string, rest: string, name: string)
    requires Literal(word) && AtEnd(rest)
    ensures PatternMatchesString("*" + (word + ("*" + rest)), name) <==> Contains(name, word)
  {
    hide PatternMatchesString;
    var pattern := word + ("*" + rest);
    StarThen(pattern, name);
    forall k: nat ensures TailMatches(pattern, name, k) <==> k <= |name| && word <= name[k..] {
      if k <= |name| {
        WordThenStar(word, rest, name[k..]);
      }
    }
    hide TailMatches;
    if Contains(name, word) {
      var k :| 0 <= k <= |name| && word <= name[k..];
      assert TailMatches(pattern, name, k);
    }
  }

  /** Names that begin with DISABLED_, or hold it after a slash. */
  ghost predicate MarkedDisabled(name: string) {
    "DISABLED_" <= name || Contains(name, "/DISABLED_")
  }

  lemma DisabledName(name: string)
    ensures MatchesFilter(name, DISABLE_TEST_FILTER) <==> MarkedDisabled(name)
  {
    hide PatternMatchesString, Colon, Contains, Literal;
    var first, second := "DISABLED_*", "*/DISABLED_*";
    assert Literal("DISABLED_") && Literal("/DISABLED_") by {
      LiteralWords();
    }
    assert DISABLE_TEST_FILTER == first + ":" + second;
    assert DISABLE_TEST_FILTER == "DISABLED_" + ("*" + (":" + second));
    assert second == "*" + ("/DISABLED_" + ("*" + ""));
    TwoPatterns(name, first, second);
    WordThenStar("DISABLED_", ":" + second, name);
    StarWordStar("/DISABLED_", "", name);
  }

  lemma LiteralWords()
    ensures Literal("DISABLED_") && Literal("/DISABLED_")
  {
  }

  /** A test is disabled when its name or that of its test case is marked so. */
  lemma DisabledTests(testCaseName: string, testName: string)
    ensures IsDisabled(testCaseName, testName) <==> MarkedDisabled(testCaseName) || MarkedDisabled(testName)
  {
    hide MatchesFilter, MarkedDisabled;
    DisabledName(testCaseName);
    DisabledName(testName);
  }

  /** Some pattern of the list denotes the name. */
  ghost predicate MatchesSome(patterns: string, name: string) {
    exists i: nat :: MatchesAt(name, patterns, i)
  }

  lemma {:induction false} DashAfter(word: string, rest: string)
    requires '-' !in word
    ensures Dash(word + rest) == |word| + Dash(rest)
  {
    if word == "" {
      assert word + rest == rest;
    } else {
      assert (word + rest)[1..] == word[1..] + rest;
      DashAfter(word[1..], rest);
    }
  }

  lemma NothingMatches(name: string)
    requires name != ""
    ensures !MatchesFilter(name, "")
  {
  }

  lemma EndDash()
    ensures Dash("") == 0 && forall rest :: Dash("-" + rest) == 0
  {
  }

  /** A filter without a dash selects the tests whose full name one of its patterns denotes. */
  lemma SelectedWithoutDash(filter: string, testCaseName: string, testName: string)
    requires '-' !in filter
    ensures FilterMatchesTest(filter, testCaseName, testName)
       <==> MatchesSome(filter, testCaseName + "." + testName)
  {
    hide MatchesFilter, MatchesAt;
    var name := testCaseName + "." + testName;
    EndDash();
    hide Dash;
    assert filter == filter + "";
    DashAfter(filter, "");
    assert filter[..|filter|] == filter;
    NothingMatches(name);
    FilterIsUnion(name, filter);
  }

  /** With a dash: denoted by a pattern before it, any name when there is none, and by no pattern behind it. */
  lemma SelectedWithDash(positive: string, negative: string, testCaseName: string, testName: string)
    requires '-' !in positive
    ensures var name := testCaseName + "." + testName;
      FilterMatchesTest(positive + "-" + negative, testCaseName, testName)
      <==> (positive == "" || MatchesSome(positive, name)) && !MatchesSome(negative, name)
  {
    hide MatchesFilter, MatchesAt, Dash;
    var name, filter := testCaseName + "." + testName, positive + "-" + negative;
    assert filter == positive + ("-" + negative);
    EndDash();
    DashAfter(positive, "-" + negative);
    assert filter[..|positive|] == positive && filter[|positive| + 1..] == negative;
    UniversalMatches(name);
    FilterIsUnion(name, positive);
    FilterIsUnion(name, negative);
  }

  lemma UniversalMatches(name: string)
    ensures MatchesFilter(name, UNIVERSAL_FILTER)
  {
    StarAlone(name);
  }

  /** A question mark stands for any one character. */
  lemma {:induction false} QuestionMarks(n: nat, pattern: string, str: string)
    ensures PatternMatchesString(seq(n, _ => '?') + pattern, str)
       <==> n <= |str| && PatternMatchesString(pattern, str[n..])
  {
    var marks := seq(n, _ => '?');
    if n == 0 {
      assert marks + pattern == pattern && str[0..] == str;
    } else {
      assert (marks + pattern)[1..] == seq(n - 1, _ => '?') + pattern;
      if str != "" {
        QuestionMarks(n - 1, pattern, str[1..]);
        assert n <= |str| ==> str[1..][n - 1..] == str[n..];
      }
    }
  }
}
