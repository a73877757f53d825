/** The simple regular expressions of the test framework: their grammar, and the language each denotes. */
module Regex {

  const NUL := '\0'

  /** A C string's contents. */
  predicate NoNul(s: string) {
    forall i :: 0 <= i < |s| ==> s[i] != NUL
  }

  function At(s: string, i: nat): char {
    if i < |s| then s[i] else NUL
  }

  // ---------- characters ----------

  predicate IsInSet(ch: char, set_: string) {
    ch != NUL && ch in set_
  }

  predicate IsAsciiDigit(ch: char) {
    '0' <= ch <= '9'
  }

  predicate IsAsciiPunct(ch: char) {
    IsInSet(ch, "^-!\"#$%&'()*+,./:;<=>?@[\\]_`{|}~")
  }

  predicate IsRepeat(ch: char) {
    IsInSet(ch, "?*+")
  }

  predicate IsAsciiWhiteSpace(ch: char) {
    IsInSet(ch, " \U{0C}\n\r\t\U{0B}")
  }

  predicate IsAsciiWordChar(ch: char) {
    'a' <= ch <= 'z' || 'A' <= ch <= 'Z' || '0' <= ch <= '9' || ch == '_'
  }

  predicate IsValidEscape(c: char) {
    IsAsciiPunct(c) || IsInSet(c, "dDfnrsStvwW")
  }

  /** Characters that cannot be an atom by themselves. */
  predicate IsReserved(c: char) {
    c == NUL || c == '\\' || c in "()[]{}|" || c in "^$?*+"
  }

  predicate AtomMatchesChar(escaped: bool, patternChar: char, ch: char) {
    if escaped then
      match patternChar
      case 'd' => IsAsciiDigit(ch)
      case 'D' => !IsAsciiDigit(ch)
      case 'f' => ch == '\U{0C}'
      case 'n' => ch == '\n'
      case 'r' => ch == '\r'
      case 's' => IsAsciiWhiteSpace(ch)
      case 'S' => !IsAsciiWhiteSpace(ch)
      case 't' => ch == '\t'
      case 'v' => ch == '\U{0B}'
      case 'w' => IsAsciiWordChar(ch)
      case 'W' => !IsAsciiWordChar(ch)
      case _ => IsAsciiPunct(patternChar) && patternChar == ch
    else (patternChar == '.' && ch != '\n') || patternChar == ch
  }

  // ---------- the grammar ----------

  datatype Atom = Atom(escaped: bool, c: char)

  datatype Item = Once(atom: Atom) | Repeated(atom: Atom, rep: char)

  /** ^? item* $? */
  datatype Pattern = Pattern(atStart: bool, items: seq<Item>, atEnd: bool)

  predicate ValidAtom(a: Atom) {
    if a.escaped then IsValidEscape(a.c) else !IsReserved(a.c)
  }

  predicate ValidItem(item: Item) {
    ValidAtom(item.atom) && (item.Repeated? ==> IsRepeat(item.rep))
  }

  predicate ValidItems(items: seq<Item>) {
    forall k :: 0 <= k < |items| ==> ValidItem(items[k])
  }

  function RenderAtom(a: Atom): string {
    if a.escaped then ['\\', a.c] else [a.c]
  }

  function RenderItem(item: Item): string {
    RenderAtom(item.atom) + if item.Repeated? then [item.rep] else []
  }

  function RenderItems(items: seq<Item>, atEnd: bool): string {
    if items == [] then if atEnd then "$" else "" else RenderItem(items[0]) + RenderItems(items[1..], atEnd)
  }

  function Render(p: Pattern): string {
    (if p.atStart then "^" else "") + RenderItems(p.items, p.atEnd)
  }

  datatype Option<T> = None | Some(value: T)

  /** The first atom of s, when it is one. */
  function ParseAtom(s: string): Option<Atom> {
    if s == "" then None
    else if s[0] == '\\' then if |s| >= 2 && IsValidEscape(s[1]) then Some(Atom(true, s[1])) else None
    else if IsReserved(s[0]) then None
    else Some(Atom(false, s[0]))
  }

  /** What follows the first atom. */
  function AfterAtom(s: string): string
    requires ParseAtom(s).Some?
  {
    if s[0] == '\\' then s[2..] else s[1..]
  }

  function ParseItem(s: string): Option<Item> {
    match ParseAtom(s)
    case None => None
    case Some(a) => if IsRepeat(At(AfterAtom(s), 0)) then Some(Repeated(a, AfterAtom(s)[0])) else Some(Once(a))
  }

  function AfterItem(s: string): string
    requires ParseItem(s).Some?
  {
    if ParseItem(s).value.Once? then AfterAtom(s) else AfterAtom(s)[1..]
  }

  /** The items of s, and whether a final `$` follows them. */
  function ParseItems(s: string): Option<(seq<Item>, bool)>
    decreases |s|
  {
    if s == "" then Some(([], false))
    else if s == "$" then Some(([], true))
    else if ParseItem(s).None? then None
    else match ParseItems(AfterItem(s))
         case None => None
         case Some(rest) => Some(([ParseItem(s).value] + rest.0, rest.1))
  }

  function Body(regex: string): string {
    if At(regex, 0) == '^' then regex[1..] else regex
  }

  function Parse(regex: string): Option<Pattern> {
    match ParseItems(Body(regex))
    case None => None
    case Some(r) => Some(Pattern(At(regex, 0) == '^', r.0, r.1))
  }

  // ---------- parsing and rendering are inverse ----------

  lemma RenderParsedItem(s: string)
    requires ParseItem(s).Some?
    ensures ValidItem(ParseItem(s).value) && RenderItem(ParseItem(s).value) + AfterItem(s) == s
  {
    hide IsValidEscape, IsReserved;
    var a, tail := ParseAtom(s).value, AfterAtom(s);
    assert RenderAtom(a) + tail == s;
    if ParseItem(s).value.Repeated? {
      assert [tail[0]] + tail[1..] == tail;
    }
  }

  lemma ItemIsShorter(s: string)
    requires ParseItem(s).Some?
    ensures |AfterItem(s)| < |s|
  {
    hide IsValidEscape, IsReserved;
  }

  lemma {:induction false} RenderParsed(s: string)
    requires ParseItems(s).Some?
    ensures ValidItems(ParseItems(s).value.0) && RenderItems(ParseItems(s).value.0, ParseItems(s).value.1) == s
    decreases |s|
  {
    hide ValidItem, ParseItem, RenderItem, AfterItem;
    if s != "" && s != "$" {
      RenderParsedItem(s);
      ItemIsShorter(s);
      RenderParsed(AfterItem(s));
      var rest := ParseItems(AfterItem(s)).value;
      assert ([ParseItem(s).value] + rest.0)[1..] == rest.0;
    }
  }

  /** A rendered valid item parses back, when no repetition sign follows a single atom. */
  lemma ParseOneItem(item: Item, rest: string)
    requires ValidItem(item) && !IsRepeat(At(rest, 0))
    ensures var s := RenderItem(item) + rest; ParseItem(s) == Some(item) && AfterItem(s) == rest
  {
    var s := RenderItem(item) + rest;
    var a := item.atom;
    var tail := (if item.Repeated? then [item.rep] else []) + rest;
    assert s == RenderAtom(a) + tail;
    assert ParseAtom(s) == Some(a) && AfterAtom(s) == tail;
    if item.Repeated? {
      assert tail[1..] == rest;
    } else {
      assert tail == rest;
    }
  }

  lemma RenderStartsNoRepeat(items: seq<Item>, atEnd: bool)
    requires ValidItems(items)
    ensures !IsRepeat(At(RenderItems(items, atEnd), 0))
  {
    if items != [] {
      var a := items[0].atom;
      assert ValidItem(items[0]);
      assert RenderItems(items, atEnd)[0] == if a.escaped then '\\' else a.c;
    }
  }

  lemma {:induction false} ParseRendered(items: seq<Item>, atEnd: bool)
    requires ValidItems(items)
    ensures ParseItems(RenderItems(items, atEnd)) == Some((items, atEnd))
  {
    if items != [] {
      var rest := RenderItems(items[1..], atEnd);
      ParseRendered(items[1..], atEnd);
      RenderStartsNoRepeat(items[1..], atEnd);
      assert ValidItem(items[0]);
      ParseOneItem(items[0], rest);
      var s := RenderItem(items[0]) + rest;
      assert s[0] != '$';
      assert [items[0]] + items[1..] == items;
    }
  }

  lemma RenderStart(items: seq<Item>, atEnd: bool)
    requires ValidItems(items)
    ensures At(RenderItems(items, atEnd), 0) != '^'
  {
    if items != [] {
      assert ValidItem(items[0]);
      assert RenderItems(items, atEnd)[0] == if items[0].atom.escaped then '\\' else items[0].atom.c;
    }
  }

  lemma ParsedRenders(regex: string, p: Pattern)
    requires Parse(regex) == Some(p)
    ensures ValidItems(p.items) && Render(p) == regex
  {
    hide ParseItems, RenderItems;
    RenderParsed(Body(regex));
    if p.atStart {
      assert regex == ['^'] + regex[1..];
    } else {
      assert "" + RenderItems(p.items, p.atEnd) == RenderItems(p.items, p.atEnd);
    }
  }

  lemma RenderedParses(p: Pattern)
    requires ValidItems(p.items)
    ensures Parse(Render(p)) == Some(p)
  {
    hide ParseItems, RenderItems, ValidItems;
    var body := RenderItems(p.items, p.atEnd);
    ParseRendered(p.items, p.atEnd);
    RenderStart(p.items, p.atEnd);
    if p.atStart {
      assert Render(p)[1..] == body;
    } else {
      assert Render(p) == body;
    }
  }

  /** Parse finds a pattern exactly when some valid pattern renders to the regex, and it is that one. */
  lemma ParseInvertsRender(regex: string, p: Pattern)
    ensures Parse(regex) == Some(p) <==> ValidItems(p.items) && Render(p) == regex
  {
    hide Parse, Render;
    if Parse(regex) == Some(p) {
      ParsedRenders(regex, p);
    }
    if ValidItems(p.items) && Render(p) == regex {
      RenderedParses(p);
    }
  }

  // ---------- the language of a pattern ----------

  predicate MatchesAtom(a: Atom, ch: char) {
    AtomMatchesChar(a.escaped, a.c, ch)
  }

  /** Each of the first k characters of w matches the atom. */
  predicate AllMatch(a: Atom, w: string, k: nat) {
    k <= |w| && forall i :: 0 <= i < k ==> MatchesAtom(a, w[i])
  }

  predicate CountOk(rep: char, k: nat) {
    (rep == '+' ==> k >= 1) && (rep == '?' ==> k <= 1)
  }

  /** The word w is in the language of the item sequence. */
  ghost predicate Denotes(items: seq<Item>, w: string)
    decreases |items|
  {
    if items == [] then w == ""
    else match items[0]
         case Once(a) => w != "" && MatchesAtom(a, w[0]) && Denotes(items[1..], w[1..])
         case Repeated(a, rep) => exists k: nat :: Split(items, a, rep, w, k)
  }

  ghost predicate Split(items: seq<Item>, a: Atom, rep: char, w: string, k: nat)
    requires items != []
    decreases |items|, 0
  {
    CountOk(rep, k) && AllMatch(a, w, k) && Denotes(items[1..], w[k..])
  }

  /** Some prefix of str, all of str if atEnd, is in the language. */
  ghost predicate MatchesHead(items: seq<Item>, atEnd: bool, str: string) {
    exists n: nat :: HeadUpTo(items, atEnd, str, n)
  }

  ghost predicate HeadUpTo(items: seq<Item>, atEnd: bool, str: string, n: nat) {
    n <= |str| && (atEnd ==> n == |str|) && Denotes(items, str[..n])
  }

  /** Some substring of str is in the language, respecting the anchors. */
  ghost predicate MatchesSomewhere(p: Pattern, str: string) {
    exists i: nat, j: nat :: MatchesBetween(p, str, i, j)
  }

  ghost predicate MatchesBetween(p: Pattern, str: string, i: nat, j: nat) {
    i <= j <= |str| && (p.atStart ==> i == 0) && (p.atEnd ==> j == |str|) && Denotes(p.items, str[i..j])
  }

  lemma HeadEmpty(atEnd: bool, str: string)
    ensures MatchesHead([], atEnd, str) <==> !atEnd || str == ""
  {
    if !atEnd || str == "" {
      assert HeadUpTo([], atEnd, str, 0);
    }
  }

  lemma HeadOnce(items: seq<Item>, atEnd: bool, str: string)
    requires items != [] && items[0].Once?
    ensures MatchesHead(items, atEnd, str) <==>
            str != "" && MatchesAtom(items[0].atom, str[0]) && MatchesHead(items[1..], atEnd, str[1..])
  {
    if MatchesHead(items, atEnd, str) {
      var n: nat :| HeadUpTo(items, atEnd, str, n);
      assert str[..n][1..] == str[1..][..n - 1];
      assert HeadUpTo(items[1..], atEnd, str[1..], n - 1);
    }
    if str != "" && MatchesAtom(items[0].atom, str[0]) && MatchesHead(items[1..], atEnd, str[1..]) {
      var n: nat :| HeadUpTo(items[1..], atEnd, str[1..], n);
      assert str[..n + 1][1..] == str[1..][..n];
      assert HeadUpTo(items, atEnd, str, n + 1);
    }
  }

  /** k repetitions of the atom at the head of str, and the rest of the regex after them. */
  ghost predicate RepeatAt(a: Atom, rep: char, rest: seq<Item>, atEnd: bool, str: string, k: nat) {
    CountOk(rep, k) && AllMatch(a, str, k) && MatchesHead(rest, atEnd, str[k..])
  }

  lemma HeadRepeated(items: seq<Item>, atEnd: bool, str: string)
    requires items != [] && items[0].Repeated?
    ensures MatchesHead(items, atEnd, str) <==>
            exists k: nat :: RepeatAt(items[0].atom, items[0].rep, items[1..], atEnd, str, k)
  {
    var a, rep := items[0].atom, items[0].rep;
    if MatchesHead(items, atEnd, str) {
      var n: nat :| HeadUpTo(items, atEnd, str, n);
      assert Denotes(items, str[..n]);
      var k: nat :| Split(items, a, rep, str[..n], k);
      assert str[..n][k..] == str[k..][..n - k];
      assert HeadUpTo(items[1..], atEnd, str[k..], n - k);
      assert RepeatAt(a, rep, items[1..], atEnd, str, k);
    }
    if k: nat :| RepeatAt(a, rep, items[1..], atEnd, str, k) {
      var n: nat :| HeadUpTo(items[1..], atEnd, str[k..], n);
      assert str[..k + n][k..] == str[k..][..n];
      assert Split(items, a, rep, str[..k + n], k);
      assert HeadUpTo(items, atEnd, str, k + n);
    }
  }

  /** A substring in the language is a suffix with a matching head. */
  lemma SomewhereIsHead(p: Pattern, str: string)
    ensures MatchesSomewhere(p, str) <==>
            exists i: nat :: i <= |str| && (p.atStart ==> i == 0) && MatchesHead(p.items, p.atEnd, str[i..])
  {
    if i: nat, j: nat :| MatchesBetween(p, str, i, j) {
      assert str[i..][..j - i] == str[i..j];
      assert HeadUpTo(p.items, p.atEnd, str[i..], j - i);
    }
    if i: nat :| i <= |str| && (p.atStart ==> i == 0) && MatchesHead(p.items, p.atEnd, str[i..]) {
      var n: nat :| HeadUpTo(p.items, p.atEnd, str[i..], n);
      assert str[i..][..n] == str[i..i + n];
      assert MatchesBetween(p, str, i, i + n);
    }
  }
}
