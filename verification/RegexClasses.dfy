/** What single characters of a regex stand for, listed character by character, and the languages built from them. */
module RegexClasses {
  import opened Regex

  const DIGITS := "0123456789"

  // ---------- the characters ----------

  /** Space, form feed, newline, carriage return, tab and vertical tab. */
  predicate Blank(ch: char) {
    var c := ch as int;
    c == 32 || c == 12 || c == 10 || c == 13 || c == 9 || c == 11
  }

  /** A to Z and a to z in ASCII. */
  predicate Letter(ch: char) {
    var c := ch as int;
    65 <= c <= 90 || 97 <= c <= 122
  }

  /** The punctuation marks of ASCII. */
  predicate Mark(ch: char) {
    var c := ch as int;
    33 <= c <= 47 || 58 <= c <= 64 || 91 <= c <= 96 || 123 <= c <= 126
  }

  lemma DigitListed(ch: char)
    ensures AtomMatchesChar(true, 'd', ch) <==> ch in DIGITS
  {
    if '0' <= ch <= '9' {
      assert DIGITS[ch as int - '0' as int] == ch;
    }
  }

  lemma WordCharListed(ch: char)
    ensures AtomMatchesChar(true, 'w', ch) <==> Letter(ch) || ch in DIGITS || ch == '_'
  {
    DigitListed(ch);
  }

  lemma BlankListed(ch: char)
    ensures AtomMatchesChar(true, 's', ch) <==> Blank(ch)
  {
  }

  lemma MarkListed(ch: char)
    ensures ch in "^-!\"#$%&'()*+,./:;<=>?@[\\]_`{|}~" <==> Mark(ch)
  {
  }

  /** What an escaped character stands for. */
  predicate EscapeStands(c: char, ch: char) {
    if c == 'd' then ch in DIGITS
    else if c == 'D' then ch !in DIGITS
    else if c == 's' then Blank(ch)
    else if c == 'S' then !Blank(ch)
    else if c == 'w' then Letter(ch) || ch in DIGITS || ch == '_'
    else if c == 'W' then !Letter(ch) && ch !in DIGITS && ch != '_'
    else if c == 'f' then ch as int == 12
    else if c == 'n' then ch as int == 10
    else if c == 'r' then ch as int == 13
    else if c == 't' then ch as int == 9
    else if c == 'v' then ch as int == 11
    else Mark(c) && ch == c
  }

  /** What an atom stands for: every character but the newline for a dot, itself for any other unescaped one. */
  predicate Stands(a: Atom, ch: char) {
    if a.escaped then EscapeStands(a.c, ch) else if a.c == '.' then ch as int != 10 else ch == a.c
  }

  lemma AtomStands(a: Atom, ch: char)
    ensures MatchesAtom(a, ch) <==> Stands(a, ch)
  {
    hide Mark;
    DigitListed(ch);
    WordCharListed(ch);
    BlankListed(ch);
    MarkListed(a.c);
  }

  /** Which characters may follow a backslash, and which stand for nothing by themselves. */
  lemma EscapesAndReserved(c: char)
    ensures ValidAtom(Atom(true, c)) <==> Mark(c) || c in "dDfnrsStvwW"
    ensures c != NUL ==> (ValidAtom(Atom(false, c)) <==>
      c !in ['\\', '(', ')', '[', ']', '{', '}', '|', '^', '$', '?', '*', '+'])
    ensures forall a :: ValidItem(Repeated(a, c)) <==> ValidAtom(a) && (c == '?' || c == '*' || c == '+')
  {
    MarkListed(c);
    hide Mark;
  }

  // ---------- the languages of single items ----------

  /** A one-atom pattern has exactly the one-character words of its set. */
  lemma OnceLanguage(a: Atom, w: string)
    ensures Denotes([Once(a)], w) <==> |w| == 1 && Stands(a, w[0])
  {
    hide Stands;
    if w != "" {
      AtomStands(a, w[0]);
      assert [Once(a)][1..] == [];
      assert Denotes([], w[1..]) <==> |w| == 1;
    }
  }

  lemma SomeSplit(items: seq<Item>, w: string)
    requires items != [] && items[0].Repeated?
    ensures Denotes(items, w) ==> exists k: nat :: Split(items, items[0].atom, items[0].rep, w, k)
    ensures (exists k: nat :: Split(items, items[0].atom, items[0].rep, w, k)) ==> Denotes(items, w)
  {
    var a, rep := items[0].atom, items[0].rep;
    if Denotes(items, w) {
      assert Denotes(items, w);
      var k: nat :| Split(items, a, rep, w, k);
    } else {
      assert !Denotes(items, w);
      forall k: nat ensures !Split(items, a, rep, w, k) {
      }
    }
  }

  /** A repeated atom: any number of its characters, at least one for `+`, at most one for `?`. */
  lemma RepeatedLanguage(a: Atom, rep: char, w: string)
    requires rep == '*' || rep == '+' || rep == '?'
    ensures Denotes([Repeated(a, rep)], w) <==>
      && (rep == '+' ==> |w| >= 1) && (rep == '?' ==> |w| <= 1)
      && forall i :: 0 <= i < |w| ==> Stands(a, w[i])
  {
    hide Stands;
    var items := [Repeated(a, rep)];
    assert items[1..] == [];
    forall i | 0 <= i < |w| ensures MatchesAtom(a, w[i]) <==> Stands(a, w[i]) {
      AtomStands(a, w[i]);
    }
    forall k: nat ensures Split(items, a, rep, w, k) <==> k == |w| && CountOk(rep, k) && AllMatch(a, w, k) {
      OnlyWhole(items, a, rep, w, k);
    }
    SomeSplit(items, w);
    if Denotes(items, w) {
      var k: nat :| Split(items, a, rep, w, k);
    }
    if CountOk(rep, |w|) && AllMatch(a, w, |w|) {
      assert Split(items, a, rep, w, |w|);
    }
  }

  lemma OnlyWhole(items: seq<Item>, a: Atom, rep: char, w: string, k: nat)
    requires items == [Repeated(a, rep)]
    ensures Split(items, a, rep, w, k) <==> k == |w| && CountOk(rep, k) && AllMatch(a, w, k)
  {
    assert items[1..] == [];
  }

  ghost predicate CutAt(xs: seq<Item>, ys: seq<Item>, w: string, k: nat) {
    k <= |w| && Denotes(xs, w[..k]) && Denotes(ys, w[k..])
  }

  /** Items one after another: their words one after another. */
  lemma {:induction false} Sequence(xs: seq<Item>, ys: seq<Item>, w: string)
    ensures Denotes(xs + ys, w) <==> exists k: nat :: CutAt(xs, ys, w, k)
  {
    if xs == [] {
      assert xs + ys == ys;
      CutAtStart(ys, w);
    } else {
      assert (xs + ys)[1..] == xs[1..] + ys;
      if xs[0].Once? {
        if w != "" {
          Sequence(xs[1..], ys, w[1..]);
        }
        OnceThen(xs, ys, w);
      } else {
        forall j: nat | j <= |w| {
          Sequence(xs[1..], ys, w[j..]);
        }
        RepeatedThen(xs, ys, w);
      }
    }
  }

  lemma CutAtStart(ys: seq<Item>, w: string)
    ensures Denotes(ys, w) <==> exists k: nat :: CutAt([], ys, w, k)
  {
    assert w[..0] == "" && w[0..] == w;
    if Denotes(ys, w) {
      assert CutAt([], ys, w, 0);
    }
    if k: nat :| CutAt([], ys, w, k) {
      assert w[..k] == "" && k == 0;
    }
  }

  lemma OnceThen(xs: seq<Item>, ys: seq<Item>, w: string)
    requires xs != [] && xs[0].Once?
    ensures (exists k: nat :: CutAt(xs, ys, w, k)) <==>
            w != "" && MatchesAtom(xs[0].atom, w[0]) && exists k: nat :: CutAt(xs[1..], ys, w[1..], k)
  {
    hide CutAt, MatchesAtom;
    if k: nat :| CutAt(xs, ys, w, k) {
      OnceBeforeCut(xs, ys, w, k);
    }
    if w != "" && MatchesAtom(xs[0].atom, w[0]) {
      if k: nat :| CutAt(xs[1..], ys, w[1..], k) {
        OnceThenRest(xs, ys, w, k);
      }
    }
  }

  lemma OnceBeforeCut(xs: seq<Item>, ys: seq<Item>, w: string, k: nat)
    requires xs != [] && xs[0].Once? && CutAt(xs, ys, w, k)
    ensures w != "" && k > 0 && MatchesAtom(xs[0].atom, w[0]) && CutAt(xs[1..], ys, w[1..], k - 1)
  {
    OnceDenotes(xs, w[..k]);
    hide Denotes, MatchesAtom;
    assert w[..k][1..] == w[1..][..k - 1] && w[k..] == w[1..][k - 1..];
  }

  lemma OnceThenRest(xs: seq<Item>, ys: seq<Item>, w: string, k: nat)
    requires xs != [] && xs[0].Once? && w != "" && MatchesAtom(xs[0].atom, w[0]) && CutAt(xs[1..], ys, w[1..], k)
    ensures CutAt(xs, ys, w, k + 1)
  {
    OnceDenotes(xs, w[..k + 1]);
    hide Denotes, MatchesAtom;
    assert w[..k + 1][1..] == w[1..][..k] && w[k + 1..] == w[1..][k..];
  }

  lemma OnceDenotes(xs: seq<Item>, w: string)
    requires xs != [] && xs[0].Once?
    ensures Denotes(xs, w) <==> w != "" && MatchesAtom(xs[0].atom, w[0]) && Denotes(xs[1..], w[1..])
  {
  }

  lemma RepeatedThen(xs: seq<Item>, ys: seq<Item>, w: string)
    requires xs != [] && xs[0].Repeated?
    requires (xs + ys)[1..] == xs[1..] + ys
    requires forall j: nat :: j <= |w| ==>
      (Denotes(xs[1..] + ys, w[j..]) <==> exists k: nat :: CutAt(xs[1..], ys, w[j..], k))
    ensures Denotes(xs + ys, w) <==> exists k: nat :: CutAt(xs, ys, w, k)
  {
    hide Denotes;
    var a, rep := xs[0].atom, xs[0].rep;
    SomeSplit(xs + ys, w);
    if Denotes(xs + ys, w) {
      var j: nat :| Split(xs + ys, a, rep, w, j);
      RunThenRest(xs, ys, w, j);
    }
    if k: nat :| CutAt(xs, ys, w, k) {
      RunBeforeCut(xs, ys, w, k);
    }
  }

  lemma RunThenRest(xs: seq<Item>, ys: seq<Item>, w: string, j: nat)
    requires xs != [] && xs[0].Repeated? && (xs + ys)[1..] == xs[1..] + ys
    requires Split(xs + ys, xs[0].atom, xs[0].rep, w, j)
    requires exists k: nat :: CutAt(xs[1..], ys, w[j..], k)
    ensures exists k: nat :: CutAt(xs, ys, w, k)
  {
    hide Denotes;
    var k: nat :| CutAt(xs[1..], ys, w[j..], k);
    assert w[..j + k][j..] == w[j..][..k] && w[j + k..] == w[j..][k..];
    assert Split(xs, xs[0].atom, xs[0].rep, w[..j + k], j);
    SomeSplit(xs, w[..j + k]);
    assert Denotes(xs, w[..j + k]);
    assert CutAt(xs, ys, w, j + k);
  }

  lemma RunBeforeCut(xs: seq<Item>, ys: seq<Item>, w: string, k: nat)
    requires xs != [] && xs[0].Repeated? && (xs + ys)[1..] == xs[1..] + ys
    requires CutAt(xs, ys, w, k)
    requires forall j: nat :: j <= |w| ==>
      (Denotes(xs[1..] + ys, w[j..]) <==> exists k: nat :: CutAt(xs[1..], ys, w[j..], k))
    ensures exists j: nat :: Split(xs + ys, xs[0].atom, xs[0].rep, w, j)
  {
    hide Denotes, MatchesAtom;
    SomeSplit(xs, w[..k]);
    var j: nat :| Split(xs, xs[0].atom, xs[0].rep, w[..k], j);
    assert AllMatch(xs[0].atom, w, j);
    hide AllMatch;
    assert w[..k][j..] == w[j..][..k - j] && w[k..] == w[j..][k - j..];
    assert CutAt(xs[1..], ys, w[j..], k - j);
    assert Split(xs + ys, xs[0].atom, xs[0].rep, w, j);
  }

  // ---------- plain text as a regex ----------

  /** Text without a character that is special in a regex. */
  predicate Plain(text: string) {
    forall i :: 0 <= i < |text| ==>
      text[i] != NUL && text[i] !in ['\\', '(', ')', '[', ']', '{', '}', '|', '^', '$', '?', '*', '+', '.']
  }

  function PlainItems(text: string): seq<Item> {
    seq(|text|, i requires 0 <= i < |text| => Once(Atom(false, text[i])))
  }

  lemma {:induction false} PlainLanguage(text: string, w: string)
    requires Plain(text)
    ensures Denotes(PlainItems(text), w) <==> w == text
  {
    var items := PlainItems(text);
    if text != "" {
      assert items[1..] == PlainItems(text[1..]);
      if w != "" {
        PlainLanguage(text[1..], w[1..]);
        assert w == [w[0]] + w[1..] && text == [text[0]] + text[1..];
      }
    }
  }

  lemma {:induction false} PlainRenders(text: string, atEnd: bool)
    ensures RenderItems(PlainItems(text), atEnd) == text + if atEnd then "$" else ""
  {
    if text == "" {
      assert PlainItems(text) == [];
    } else {
      assert PlainItems(text)[1..] == PlainItems(text[1..]);
      PlainRenders(text[1..], atEnd);
      assert text == [text[0]] + text[1..];
    }
  }

  lemma PlainIsValid(text: string)
    requires Plain(text)
    ensures ValidItems(PlainItems(text))
  {
    forall i | 0 <= i < |text| ensures ValidItem(PlainItems(text)[i]) {
      EscapesAndReserved(text[i]);
    }
  }

  /** Plain text, with or without anchors, is a valid regex; it is found wherever it occurs as a substring, after `^`
      only at the start of the text and before `$` only at its end. */
  lemma PlainTextIsFound(text: string, atStart: bool, atEnd: bool, str: string)
    requires Plain(text)
    ensures var regex := (if atStart then "^" else "") + text + (if atEnd then "$" else "");
      && Parse(regex).Some?
      && (MatchesSomewhere(Parse(regex).value, str) <==>
            exists i :: 0 <= i <= |str| && text <= str[i..]
              && (atStart ==> i == 0) && (atEnd ==> i + |text| == |str|))
  {
    var p := Pattern(atStart, PlainItems(text), atEnd);
    PlainParses(text, atStart, atEnd);
    hide Parse, Denotes, PlainItems, Plain, MatchesBetween;
    if i: nat, j: nat :| MatchesBetween(p, str, i, j) {
      PlainBetween(text, p, str, i, j);
    }
    if i :| 0 <= i <= |str| && text <= str[i..] && (atStart ==> i == 0) && (atEnd ==> i + |text| == |str|) {
      PlainBetween(text, p, str, i, i + |text|);
    }
  }

  lemma PlainBetween(text: string, p: Pattern, str: string, i: nat, j: nat)
    requires Plain(text) && p.items == PlainItems(text)
    ensures MatchesBetween(p, str, i, j) <==>
      i <= |str| && text <= str[i..] && j == i + |text| && (p.atStart ==> i == 0) && (p.atEnd ==> j == |str|)
  {
    hide Denotes, PlainItems, Plain;
    if i <= j <= |str| {
      PlainLanguage(text, str[i..j]);
      assert str[i..] == str[i..j] + str[j..];
    }
    if i <= |str| && text <= str[i..] {
      assert str[i..i + |text|] == str[i..][..|text|] == text;
    }
  }

  lemma PlainParses(text: string, atStart: bool, atEnd: bool)
    requires Plain(text)
    ensures Parse((if atStart then "^" else "") + text + (if atEnd then "$" else ""))
         == Some(Pattern(atStart, PlainItems(text), atEnd))
  {
    hide Parse, PlainItems, ValidItems;
    var p := Pattern(atStart, PlainItems(text), atEnd);
    PlainRenders(text, atEnd);
    PlainIsValid(text);
    ParseInvertsRender((if atStart then "^" else "") + text + (if atEnd then "$" else ""), p);
  }
}
