/** The validating and backtracking code of the simple regex engine, proved against the grammar and the language. */
module RegexEngine {
  import opened Regex

  const SIZE_MAX := 0xFFFF_FFFF_FFFF_FFFF

  // ---------- validation ----------

  /** What the validating loop still accepts: at the start or not, and after an atom that may be repeated or not. */
  predicate Scan(s: string, first: bool, prevRepeatable: bool)
    decreases |s|
  {
    if s == "" then true
    else if s[0] == '\\' then |s| >= 2 && IsValidEscape(s[1]) && Scan(s[2..], false, true)
    else
      && !(s[0] == '^' && !first)
      && !(s[0] == '$' && |s| > 1)
      && !IsInSet(s[0], "()[]{}|")
      && !(IsRepeat(s[0]) && !prevRepeatable)
      && Scan(s[1..], false, !IsInSet(s[0], "^$?*+"))
  }

  /** After a repeatable atom, one repetition sign may come first. */
  lemma {:induction false} ScanIsParse(s: string)
    requires NoNul(s)
    ensures Scan(s, false, false) <==> ParseItems(s).Some?
    ensures Scan(s, false, true) <==> ParseItems(if IsRepeat(At(s, 0)) then s[1..] else s).Some?
    decreases |s|
  {
    hide IsValidEscape;
    if s != "" && s != "$" {
      if s[0] != '\\' {
        ScanIsParse(s[1..]);
      } else if |s| >= 2 {
        ScanIsParse(s[2..]);
        assert At(s[2..], 0) == At(s, 2);
      }
    }
  }

  lemma ScanIsParseAtStart(s: string)
    requires NoNul(s)
    ensures Scan(s, true, false) <==> Parse(s).Some?
  {
    ScanIsParse(s);
    if At(s, 0) == '^' {
      ScanIsParse(s[1..]);
    }
  }

  /** NULL is None. */
  method ValidateRegex(regex: Option<string>) returns (isValid: bool)
    requires regex.Some? ==> NoNul(regex.value)
    ensures isValid <==> regex.Some? && Parse(regex.value).Some?
  {
    if regex.None? {
      return false;
    }
    hide Parse, IsValidEscape;
    var s := regex.value;
    ScanIsParseAtStart(s);
    isValid := true;
    var prevRepeatable := false;
    var i := 0;
    while At(s, i) != NUL
      invariant i <= |s|
      invariant isValid && Scan(s[i..], i == 0, prevRepeatable) <==> Scan(s, true, false)
      decreases |s| - i
    {
      ghost var rest := s[i..];
      assert rest[0] == s[i] && rest[1..] == s[i + 1..];
      if s[i] == '\\' {
        i := i + 1;
        if At(s, i) == NUL {
          return false;
        }
        assert rest[1] == s[i] && rest[2..] == s[i + 1..];
        if !IsValidEscape(s[i]) {
          isValid := false;
        }
        prevRepeatable := true;
      } else {
        var ch := s[i];
        if ch == '^' && i > 0 {
          isValid := false;
        } else if ch == '$' && At(s, i + 1) != NUL {
          isValid := false;
        } else if IsInSet(ch, "()[]{}|") {
          isValid := false;
        } else if IsRepeat(ch) && !prevRepeatable {
          isValid := false;
        }
        prevRepeatable := !IsInSet(ch, "^$?*+");
      }
      i := i + 1;
    }
  }

  // ---------- matching ----------

  ghost predicate ValidTail(regex: string) {
    NoNul(regex) && ParseItems(regex).Some?
  }

  function ItemsOf(regex: string): seq<Item>
    requires ParseItems(regex).Some?
  {
    ParseItems(regex).value.0
  }

  predicate EndOf(regex: string)
    requires ParseItems(regex).Some?
  {
    ParseItems(regex).value.1
  }

  lemma NoneMatched(a: Atom, str: string)
    ensures AllMatch(a, str, 0)
  {
  }

  lemma CountAt(a: Atom, rep: char, items: seq<Item>, atEnd: bool, str: string, i: nat)
    requires AllMatch(a, str, i)
    ensures i <= |str|
    ensures RepeatAt(a, rep, items, atEnd, str, i) <==> CountOk(rep, i) && MatchesHead(items, atEnd, str[i..])
  {
  }

  /** The atoms go on at i, or no greater count is possible. */
  lemma NextMatch(a: Atom, rep: char, items: seq<Item>, atEnd: bool, str: string, i: nat)
    requires NoNul(str) && AllMatch(a, str, i)
    ensures if At(str, i) != NUL && AtomMatchesChar(a.escaped, a.c, str[i]) then AllMatch(a, str, i + 1)
            else forall k: nat :: k > i ==> !RepeatAt(a, rep, items, atEnd, str, k)
  {
    hide AtomMatchesChar, MatchesHead;
  }

  lemma TooMany(a: Atom, rep: char, items: seq<Item>, atEnd: bool, str: string, i: nat)
    requires i > if rep == '?' then 1 else |str|
    ensures forall k: nat :: k >= i ==> !RepeatAt(a, rep, items, atEnd, str, k)
  {
    hide MatchesHead;
  }

  method MatchRepetitionAndRegexAtHead(escaped: bool, c: char, rep: char, regex: string, str: string) returns (b: bool)
    requires ValidTail(regex) && NoNul(str) && |str| < SIZE_MAX && IsRepeat(rep)
    ensures b <==> exists k: nat :: RepeatAt(Atom(escaped, c), rep, ItemsOf(regex), EndOf(regex), str, k)
    decreases |regex|, 1
  {
    var minCount := if rep == '+' then 1 else 0;
    var maxCount := if rep == '?' then 1 else SIZE_MAX - 1;
    hide RepeatAt, AllMatch, AtomMatchesChar, ParseItems, MatchesHead;
    ghost var a := Atom(escaped, c);
    NoneMatched(a, str);
    var i := 0;
    while i <= maxCount
      invariant i <= |str| && AllMatch(a, str, i)
      invariant forall k: nat :: k < i ==> !RepeatAt(a, rep, ItemsOf(regex), EndOf(regex), str, k)
    {
      CountAt(a, rep, ItemsOf(regex), EndOf(regex), str, i);
      if i >= minCount {
        var found := MatchRegexAtHead(regex, str[i..]);
        if found {
          return true;
        }
      }
      NextMatch(a, rep, ItemsOf(regex), EndOf(regex), str, i);
      if At(str, i) == NUL || !AtomMatchesChar(escaped, c, str[i]) {
        return false;
      }
      i := i + 1;
    }
    TooMany(a, rep, ItemsOf(regex), EndOf(regex), str, i);
    return false;
  }

  /** The regex is the rest of a valid one, after any `^`. */
  method MatchRegexAtHead(regex: string, str: string) returns (b: bool)
    requires ValidTail(regex) && NoNul(str) && |str| < SIZE_MAX
    ensures b <==> MatchesHead(ItemsOf(regex), EndOf(regex), str)
    decreases |regex|, 0
  {
    if At(regex, 0) == NUL {
      HeadEmpty(false, str);
      return true;
    }
    if regex[0] == '$' {
      HeadEmpty(true, str);
      return At(str, 0) == NUL;
    }
    var escaped := regex[0] == '\\';
    var rest := if escaped then regex[1..] else regex;
    TailShape(regex);
    if IsRepeat(At(rest, 1)) {
      HeadRepeated(ItemsOf(regex), EndOf(regex), str);
      b := MatchRepetitionAndRegexAtHead(escaped, rest[0], rest[1], rest[2..], str);
    } else {
      HeadOnce(ItemsOf(regex), EndOf(regex), str);
      if At(str, 0) != NUL && AtomMatchesChar(escaped, rest[0], str[0]) {
        b := MatchRegexAtHead(rest[1..], str[1..]);
      } else {
        b := false;
      }
    }
  }

  /** How the matcher's view of the regex, atom by pointer arithmetic, lines up with its items. */
  lemma TailShape(regex: string)
    requires ValidTail(regex) && regex != "" && regex[0] != '$'
    ensures var escaped := regex[0] == '\\'; var rest := if escaped then regex[1..] else regex;
      && rest != "" && ItemsOf(regex) != []
      && var item := ItemsOf(regex)[0];
         && item.atom == Atom(escaped, rest[0])
         && (IsRepeat(At(rest, 1)) ==>
               |rest| >= 2 && item == Repeated(item.atom, rest[1]) && ValidTail(rest[2..])
               && ItemsOf(rest[2..]) == ItemsOf(regex)[1..] && EndOf(rest[2..]) == EndOf(regex))
         && (!IsRepeat(At(rest, 1)) ==>
               item == Once(item.atom) && ValidTail(rest[1..])
               && ItemsOf(rest[1..]) == ItemsOf(regex)[1..] && EndOf(rest[1..]) == EndOf(regex))
  {
    var escaped := regex[0] == '\\';
    var rest := if escaped then regex[1..] else regex;
    assert ParseItem(regex).Some?;
    assert AfterAtom(regex) == rest[1..];
    if |rest| >= 2 {
      assert AfterAtom(regex)[1..] == rest[2..];
    }
  }

  lemma BodyItems(regex: string)
    requires NoNul(regex) && Parse(regex).Some?
    ensures var p, body := Parse(regex).value, Body(regex);
      ValidTail(body) && p == Pattern(At(regex, 0) == '^', ItemsOf(body), EndOf(body))
  {
  }

  lemma AtBody(regex: string)
    requires NoNul(regex)
    ensures At(regex, 0) == '^' ==> regex != "" && Body(regex) == regex[1..]
    ensures At(regex, 0) != '^' ==> Body(regex) == regex
  {
  }

  lemma Suffixes(str: string)
    requires NoNul(str)
    ensures forall i: nat :: i <= |str| ==> NoNul(str[i..]) && (At(str, i) == NUL <==> i == |str|)
  {
  }

  method MatchRegexAnywhere(regex: Option<string>, str: Option<string>) returns (b: bool)
    requires regex.Some? ==> NoNul(regex.value) && Parse(regex.value).Some?
    requires str.Some? ==> NoNul(str.value) && |str.value| < SIZE_MAX
    ensures b <==> regex.Some? && str.Some? && MatchesSomewhere(Parse(regex.value).value, str.value)
  {
    if regex.None? || str.None? {
      return false;
    }
    hide Parse, ParseItems, MatchesHead, NoNul;
    var r, s := regex.value, str.value;
    BodyItems(r);
    AtBody(r);
    Suffixes(s);
    ghost var p := Parse(r).value;
    SomewhereIsHead(p, s);
    if At(r, 0) == '^' {
      assert s[0..] == s;
      b := MatchRegexAtHead(r[1..], s);
      return;
    }
    var i := 0;
    while true
      invariant 0 <= i <= |s|
      invariant forall k: nat :: k < i ==> !MatchesHead(p.items, p.atEnd, s[k..])
      decreases |s| - i
    {
      b := MatchRegexAtHead(r, s[i..]);
      if b {
        return;
      }
      if At(s, i) == NUL {
        return false;
      }
      i := i + 1;
    }
  }

  // ---------- the RE class ----------

  /** The pattern FullMatch uses: `^` and `$` added where the text lacks them. */
  function FullPattern(regex: string): string {
    (if At(regex, 0) != '^' then "^" else "") + regex
    + (if |regex| == 0 || regex[|regex| - 1] != '$' then "$" else "")
  }

  class RE {
    var pattern: Option<string>
    var fullPattern: Option<string>
    var isValid: bool

    ghost predicate Valid()
      reads this
    {
      && isValid == (pattern.Some? && Parse(pattern.value).Some?)
      && (pattern.Some? ==> NoNul(pattern.value))
      && fullPattern == if isValid then Some(FullPattern(pattern.value)) else None
    }

    constructor (regex: Option<string>)
      requires regex.Some? ==> NoNul(regex.value)
      ensures Valid() && pattern == regex
    {
      pattern := regex;
      fullPattern := None;
      var ok := ValidateRegex(regex);
      isValid := ok;
      if ok {
        var r := regex.value;
        var buffer := "";
        if At(r, 0) != '^' {
          buffer := buffer + "^";
        }
        buffer := buffer + r;
        if |r| == 0 || r[|r| - 1] != '$' {
          buffer := buffer + "$";
        }
        assert buffer == FullPattern(r);
        fullPattern := Some(buffer);
      }
    }

    /** FullMatch: the whole string is in the regex's language, unless the regex ends in an escaped `$`;
        then a prefix is enough. */
    method FullMatch(str: string) returns (b: bool)
      requires Valid() && NoNul(str) && |str| < SIZE_MAX
      ensures b <==> isValid && FullMatches(pattern.value, str)
    {
      b := false;
      if isValid {
        FullPatternParses(pattern.value);
        FullPatternNoNul(pattern.value);
        b := MatchRegexAnywhere(fullPattern, Some(str));
        FullMatchMeaning(pattern.value, str);
      }
    }

    method PartialMatch(str: string) returns (b: bool)
      requires Valid() && NoNul(str) && |str| < SIZE_MAX
      ensures b <==> isValid && MatchesSomewhere(Parse(pattern.value).value, str)
    {
      b := false;
      if isValid {
        b := MatchRegexAnywhere(pattern, Some(str));
      }
    }
  }

  lemma FullPatternNoNul(regex: string)
    requires NoNul(regex)
    ensures NoNul(FullPattern(regex))
  {
  }

  /** The last item is an unrepeated escaped `$` and no anchor follows it. */
  predicate EndsInEscapedDollar(p: Pattern) {
    !p.atEnd && p.items != [] && p.items[|p.items| - 1] == Once(Atom(true, '$'))
  }

  lemma {:induction false} LastChar(items: seq<Item>, atEnd: bool)
    requires ValidItems(items)
    ensures var s := RenderItems(items, atEnd);
      (s != "" && s[|s| - 1] == '$') <==> atEnd || EndsInEscapedDollar(Pattern(false, items, atEnd))
  {
    if items != [] {
      LastChar(items[1..], atEnd);
      assert ValidItem(items[0]);
    }
  }

  lemma {:induction false} RenderDollar(items: seq<Item>)
    ensures RenderItems(items, false) + "$" == RenderItems(items, true)
  {
    if items != [] {
      RenderDollar(items[1..]);
      assert RenderItems(items, true) == RenderItem(items[0]) + (RenderItems(items[1..], false) + "$");
    } else {
      assert "" + "$" == "$";
    }
  }

  lemma FullIsRendered(regex: string, p: Pattern)
    requires regex == Render(p) && At(RenderItems(p.items, p.atEnd), 0) != '^'
    requires var body := RenderItems(p.items, p.atEnd);
      (body != "" && body[|body| - 1] == '$') <==> p.atEnd || EndsInEscapedDollar(p)
    ensures FullPattern(regex) == Render(Pattern(true, p.items, !EndsInEscapedDollar(p)))
  {
    hide RenderItems;
    var body := RenderItems(p.items, p.atEnd);
    RenderDollar(p.items);
    BodyEnd(p.atStart, body, regex);
    assert body + "" == body;
  }

  /** The full pattern is the same items, anchored at the start, and at the end unless an escaped `$` was taken
      for an anchor. */
  lemma FullPatternParses(regex: string)
    requires Parse(regex).Some?
    ensures var p := Parse(regex).value;
      Parse(FullPattern(regex)) == Some(Pattern(true, p.items, !EndsInEscapedDollar(p)))
  {
    hide ParseItems, RenderItems, Render, FullPattern;
    var p := Parse(regex).value;
    ParsedRenders(regex, p);
    LastChar(p.items, p.atEnd);
    RenderStart(p.items, p.atEnd);
    FullIsRendered(regex, p);
    RenderedParses(Pattern(true, p.items, !EndsInEscapedDollar(p)));
  }

  lemma BodyEnd(atStart: bool, body: string, regex: string)
    requires regex == (if atStart then "^" else "") + body && At(body, 0) != '^'
    ensures FullPattern(regex) == "^" + (body + if body != "" && body[|body| - 1] == '$' then "" else "$")
  {
  }

  /** What FullMatch decides. */
  ghost predicate FullMatches(regex: string, str: string)
    requires Parse(regex).Some?
  {
    var p := Parse(regex).value;
    if EndsInEscapedDollar(p) then MatchesHead(p.items, false, str) else Denotes(p.items, str)
  }

  lemma FullMatchMeaning(regex: string, str: string)
    requires Parse(regex).Some? && Parse(FullPattern(regex)).Some?
    ensures MatchesSomewhere(Parse(FullPattern(regex)).value, str) <==> FullMatches(regex, str)
  {
    hide Parse, Denotes, FullPattern;
    FullPatternParses(regex);
    var p := Parse(regex).value;
    SomewhereIsHead(Parse(FullPattern(regex)).value, str);
    assert str[0..] == str && str[..|str|] == str;
    if !EndsInEscapedDollar(p) {
      assert MatchesHead(p.items, true, str) <==> HeadUpTo(p.items, true, str, |str|);
    }
  }

  // ---------- exactly when FullMatch means a full match ----------

  function SampleChar(a: Atom): char {
    if !a.escaped then a.c
    else match a.c
         case 'd' => '0'
         case 'f' => '\U{0C}'
         case 'n' => '\n'
         case 'r' => '\r'
         case 's' => ' '
         case 't' => '\t'
         case 'v' => '\U{0B}'
         case 'W' => ' '
         case 'D' => 'a'
         case 'S' => 'a'
         case 'w' => 'a'
         case c => c
  }

  lemma SampleMatches(a: Atom)
    requires ValidAtom(a)
    ensures MatchesAtom(a, SampleChar(a))
  {
  }

  /** A word of the language: every atom once. */
  function Sample(items: seq<Item>): string {
    if items == [] then "" else [SampleChar(items[0].atom)] + Sample(items[1..])
  }

  lemma {:induction false} SampleDenoted(items: seq<Item>)
    requires ValidItems(items)
    ensures Denotes(items, Sample(items))
  {
    if items != [] {
      assert ValidItem(items[0]);
      SampleMatches(items[0].atom);
      SampleDenoted(items[1..]);
      var w := Sample(items);
      assert w[1..] == Sample(items[1..]);
      if items[0].Repeated? {
        assert Split(items, items[0].atom, items[0].rep, w, 1);
      }
    }
  }

  /** A word of a language whose last item is an escaped `$` ends in `$`. */
  lemma {:induction false} EndsInDollar(items: seq<Item>, w: string)
    requires items != [] && items[|items| - 1] == Once(Atom(true, '$')) && Denotes(items, w)
    ensures w != "" && w[|w| - 1] == '$'
  {
    if |items| == 1 {
      assert items[1..] == [];
      assert Denotes([], w[1..]);
    } else {
      var k: nat := 1;
      if items[0].Repeated? {
        k :| Split(items, items[0].atom, items[0].rep, w, k);
      }
      EndsInDollar(items[1..], w[k..]);
    }
  }

  /** FullMatch accepts exactly the whole-string matches if and only if the regex does not end in an escaped `$`. */
  lemma FullMatchIsFullIff(regex: string)
    requires Parse(regex).Some?
    ensures (forall str :: FullMatches(regex, str) <==> Denotes(Parse(regex).value.items, str))
            <==> !EndsInEscapedDollar(Parse(regex).value)
  {
    hide Parse, Denotes, MatchesHead, EndsInEscapedDollar;
    if EndsInEscapedDollar(Parse(regex).value) {
      var str := MatchedInPart(regex);
    }
  }

  /** A text with more behind it than the pattern's language has. */
  lemma MatchedInPart(regex: string) returns (str: string)
    requires Parse(regex).Some? && EndsInEscapedDollar(Parse(regex).value)
    ensures FullMatches(regex, str) && !Denotes(Parse(regex).value.items, str)
  {
    hide Parse, Denotes, ValidItems;
    var p := Parse(regex).value;
    ParsedRenders(regex, p);
    var w := Sample(p.items);
    SampleDenoted(p.items);
    str := w + "x";
    assert str[..|w|] == w;
    assert HeadUpTo(p.items, false, str, |w|);
    if Denotes(p.items, str) {
      EndsInDollar(p.items, str);
    }
  }
}
