/** The parameter grid: every property of every row takes the value at row number modulo the length of its list. */
module Grid {

  import opened Arithmetic

  const WIDTH := 0x1_0000_0000

  /** A property and the values listed for it. */
  datatype Property = Property(name: string, values: seq<string>)

  /** The configuration space; the map the source iterates has no name twice. */
  predicate Distinct(space: seq<Property>) {
    forall i, j :: 0 <= i < j < |space| ==> space[i].name != space[j].name
  }

  function Sizes(space: seq<Property>): seq<nat> {
    seq(|space|, i requires 0 <= i < |space| => |space[i].values|)
  }

  function Product(sizes: seq<nat>): nat {
    if sizes == [] then 1 else sizes[0] * Product(sizes[1..])
  }

  /** The number of rows: the product kept in 32 bits. */
  function Rows(sizes: seq<nat>): nat {
    Product(sizes) % WIDTH
  }

  lemma {:induction false} ProductAppend(sizes: seq<nat>, n: nat)
    ensures Product(sizes + [n]) == Product(sizes) * n
  {
    var all := sizes + [n];
    if sizes == [] {
      assert all[1..] == [];
    } else {
      assert all[1..] == sizes[1..] + [n];
      ProductAppend(sizes[1..], n);
      assert sizes[0] * (Product(sizes[1..]) * n) == (sizes[0] * Product(sizes[1..])) * n;
    }
  }

  lemma WrappedTimes(a: nat, b: nat, n: nat)
    requires a == b % WIDTH
    ensures (a * n) % WIDTH == (b * n) % WIDTH
  {
    var q := b / WIDTH;
    assert b == WIDTH * q + a;
    assert b * n == WIDTH * (q * n) + a * n;
    var w, r := (a * n) / WIDTH, (a * n) % WIDTH;
    assert a * n == WIDTH * w + r;
    DivMod(WIDTH, q * n + w, r);
  }

  /** The grid, row by row. */
  method ParserProps(space: seq<Property>) returns (ret: array<map<string, string>>)
    requires Distinct(space)
    ensures fresh(ret) && ret.Length == Rows(Sizes(space))
    ensures forall i :: 0 <= i < ret.Length ==> ret[i].Keys == set p <- space :: p.name
    ensures forall i, k :: 0 <= i < ret.Length && 0 <= k < |space| ==> HasValue(space[k], i, ret[i])
    ensures PairwiseCoprime(Sizes(space)) && Product(Sizes(space)) < WIDTH ==> ShowsAll(space, ret[..])
  {
    hide Filled, HasValue, Distinct, PairwiseCoprime, ShowsAll;
    var totalSpace: nat := 1;
    ghost var sizes := Sizes(space);
    for k := 0 to |space|
      invariant totalSpace == Product(sizes[..k]) % WIDTH
    {
      WrappedTimes(totalSpace, Product(sizes[..k]), |space[k].values|);
      ProductAppend(sizes[..k], sizes[k]);
      assert sizes[..k + 1] == sizes[..k] + [sizes[k]];
      totalSpace := totalSpace * |space[k].values| % WIDTH;
    }
    assert sizes[..|space|] == sizes;
    ret := new map<string, string>[totalSpace](_ => map[]);
    forall i | 0 <= i < ret.Length ensures Filled(space, 0, i, ret[i]) {
      NothingFilled(space, i);
    }
    for k := 0 to |space|
      invariant forall i :: 0 <= i < ret.Length ==> Filled(space, k, i, ret[i])
    {
      if ret.Length > 0 {
        NoEmptyList(sizes, k);
      }
      for i := 0 to ret.Length
        invariant forall j :: 0 <= j < i ==> Filled(space, k + 1, j, ret[j])
        invariant forall j :: i <= j < ret.Length ==> Filled(space, k, j, ret[j])
      {
        FilledOneMore(space, k, i, ret[i]);
        ret[i] := ret[i][space[k].name := space[k].values[i % |space[k].values|]];
      }
    }
    forall i | 0 <= i < ret.Length
      ensures ret[i].Keys == (set p <- space :: p.name)
        && forall k :: 0 <= k < |space| ==> HasValue(space[k], i, ret[i])
    {
      FilledRow(space, i, ret[i]);
    }
    ghost var rows := ret[..];
    forall i, k | 0 <= i < |rows| && 0 <= k < |space| ensures HasValue(space[k], i, rows[i]) {
      assert rows[i] == ret[i] && HasValue(space[k], i, ret[i]);
    }
    if PairwiseCoprime(sizes) && Product(sizes) < WIDTH {
      EveryChoiceShown(space, rows);
    }
  }

  /** Every combination of values is the combination of some row. */
  ghost predicate ShowsAll(space: seq<Property>, rows: seq<map<string, string>>) {
    forall c :: Choice(Sizes(space), c) ==> exists i :: 0 <= i < |rows| && ShowsChoice(space, c, rows[i])
  }

  lemma EveryChoiceShown(space: seq<Property>, rows: seq<map<string, string>>)
    requires |rows| == Rows(Sizes(space))
    requires forall i, k :: 0 <= i < |rows| && 0 <= k < |space| ==> HasValue(space[k], i, rows[i])
    requires PairwiseCoprime(Sizes(space)) && Product(Sizes(space)) < WIDTH
    ensures ShowsAll(space, rows)
  {
    hide HasValue, PairwiseCoprime, ShowsChoice, Product, Choice, Rows;
    forall c | Choice(Sizes(space), c) ensures exists i :: 0 <= i < |rows| && ShowsChoice(space, c, rows[i]) {
      var i := RowOfChoice(space, c);
      ChoiceShown(space, c, i, rows);
      assert ShowsChoice(space, c, rows[i]);
    }
  }

  /** The row takes the chosen value of every property. */
  predicate ShowsChoice(space: seq<Property>, c: seq<nat>, row: map<string, string>) {
    |c| == |space| && forall k :: 0 <= k < |space| ==>
      c[k] < |space[k].values| && space[k].name in row && row[space[k].name] == space[k].values[c[k]]
  }

  lemma RowOfChoice(space: seq<Property>, c: seq<nat>) returns (i: nat)
    requires PairwiseCoprime(Sizes(space)) && Product(Sizes(space)) < WIDTH && Choice(Sizes(space), c)
    ensures i < Rows(Sizes(space)) && Hits(Sizes(space), c, i)
  {
    hide PairwiseCoprime, Product, Hits;
    EveryChoiceOnceIff(Sizes(space));
    assert InOneRow(Sizes(space), c);
    i :| RowHits(Sizes(space), c, i);
  }

  lemma ChoiceShown(space: seq<Property>, c: seq<nat>, i: nat, rows: seq<map<string, string>>)
    requires i < |rows| && Choice(Sizes(space), c) && Hits(Sizes(space), c, i)
    requires forall k :: 0 <= k < |space| ==> HasValue(space[k], i, rows[i])
    ensures ShowsChoice(space, c, rows[i])
  {
    forall k | 0 <= k < |space|
      ensures c[k] < |space[k].values| && rows[i][space[k].name] == space[k].values[c[k]]
    {
      assert Sizes(space)[k] == |space[k].values|;
      assert HasValue(space[k], i, rows[i]);
    }
  }

  /** The row has its value for the first k properties and for no other. */
  ghost predicate Filled(space: seq<Property>, k: nat, i: nat, row: map<string, string>)
    requires k <= |space|
  {
    && (forall m :: 0 <= m < k ==> HasValue(space[m], i, row))
    && (forall x :: x in row ==> exists m :: 0 <= m < k && space[m].name == x)
  }

  /** The row takes the value at i modulo the length of the list. */
  predicate HasValue(p: Property, i: nat, row: map<string, string>) {
    p.values != [] && p.name in row && row[p.name] == p.values[i % |p.values|]
  }

  lemma NothingFilled(space: seq<Property>, i: nat)
    ensures Filled(space, 0, i, map[])
  {
  }

  lemma FilledRow(space: seq<Property>, i: nat, row: map<string, string>)
    requires Filled(space, |space|, i, row)
    ensures row.Keys == set p <- space :: p.name
    ensures forall k :: 0 <= k < |space| ==> HasValue(space[k], i, row)
  {
    assert forall k :: 0 <= k < |space| ==> HasValue(space[k], i, row);
    forall x ensures x in row.Keys <==> x in (set p <- space :: p.name) {
      if x in row {
        var m :| 0 <= m < |space| && space[m].name == x;
        assert space[m] in space;
      }
    }
  }

  lemma FilledOneMore(space: seq<Property>, k: nat, i: nat, row: map<string, string>)
    requires Distinct(space) && k < |space| && Filled(space, k, i, row) && space[k].values != []
    ensures Filled(space, k + 1, i, row[space[k].name := space[k].values[i % |space[k].values|]])
  {
    var row' := row[space[k].name := space[k].values[i % |space[k].values|]];
    forall m | 0 <= m < k + 1 ensures HasValue(space[m], i, row') {
      assert m < k ==> HasValue(space[m], i, row);
    }
    assert space[k].name == space[k].name;
  }

  lemma {:induction false} NoEmptyList(sizes: seq<nat>, k: nat)
    requires k < |sizes| && Product(sizes) != 0
    ensures sizes[k] > 0
  {
    if k > 0 {
      NoEmptyList(sizes[1..], k - 1);
    }
  }

  // ---------- which combinations the rows hold ----------

  /** A position in every list. */
  predicate Choice(sizes: seq<nat>, c: seq<nat>) {
    |c| == |sizes| && forall k :: 0 <= k < |sizes| ==> c[k] < sizes[k]
  }

  /** The number i leaves these positions as remainders. */
  predicate Hits(sizes: seq<nat>, c: seq<nat>, i: nat) {
    |c| == |sizes| && forall k :: 0 <= k < |sizes| ==> sizes[k] > 0 && i % sizes[k] == c[k]
  }

  predicate RowHits(sizes: seq<nat>, c: seq<nat>, i: nat) {
    i < Rows(sizes) && Hits(sizes, c, i)
  }

  ghost predicate InOneRow(sizes: seq<nat>, c: seq<nat>) {
    (exists i :: RowHits(sizes, c, i)) && forall i, j :: RowHits(sizes, c, i) && RowHits(sizes, c, j) ==> i == j
  }

  ghost predicate EveryChoiceOnce(sizes: seq<nat>) {
    forall c :: Choice(sizes, c) ==> InOneRow(sizes, c)
  }

  ghost predicate PairwiseCoprime(sizes: seq<nat>) {
    forall j, k :: 0 <= j < k < |sizes| ==> Coprime(sizes[j], sizes[k])
  }

  lemma {:induction false} ZeroProduct(sizes: seq<nat>)
    ensures Product(sizes) == 0 <==> 0 in sizes
  {
    if sizes != [] {
      ZeroProduct(sizes[1..]);
      assert sizes == [sizes[0]] + sizes[1..];
    }
  }

  lemma {:induction false} DividesProduct(sizes: seq<nat>, k: nat)
    requires k < |sizes| && 0 !in sizes
    ensures sizes[k] > 0 && Product(sizes) > 0 && Product(sizes) % sizes[k] == 0
  {
    ZeroProduct(sizes);
    assert sizes[k] in sizes;
    var rest := Product(sizes[1..]);
    if k == 0 {
      Multiple(sizes[0], rest);
    } else {
      assert 0 !in sizes[1..];
      DividesProduct(sizes[1..], k - 1);
      DividesTimes(sizes[k], sizes[0], rest);
    }
  }

  lemma {:induction false} CoprimeToProduct(n: nat, sizes: seq<nat>)
    requires n > 0 && forall k :: 0 <= k < |sizes| ==> Coprime(sizes[k], n)
    ensures Coprime(Product(sizes), n)
  {
    if sizes == [] {
      CombinationCoprime(1, n, 1, 0);
    } else {
      CoprimeToProduct(n, sizes[1..]);
      CoprimeProduct(sizes[0], Product(sizes[1..]), n);
    }
  }

  lemma CoprimeSymmetric(a: nat, b: nat)
    requires Coprime(a, b)
    ensures Coprime(b, a)
  {
    forall d: nat | d > 1 ensures !CommonDivisor(d, b, a) {
      assert !CommonDivisor(d, a, b);
    }
  }

  /** The number below m * s with remainders x and y. */
  lemma Remainders(m: nat, s: nat, x: nat, y: nat) returns (z: nat)
    requires x < m && y < s && Coprime(m, s)
    ensures z < m * s && z % m == x && z % s == y
  {
    var a, b := CoprimeCombination(m, s);
    var q, t := (a * (y - x)) / s, (a * (y - x)) % s;
    assert a * (y - x) == s * q + t;
    z := x + m * t;
    assert m * t <= m * (s - 1);
    Distribute(m, s, 1);
    DivMod(m, t, x);
    RemaindersSecond(m, s, x, y, a, b, q, t);
    DivMod(s, -b * (y - x) - m * q, y);
  }

  lemma RemaindersSecond(m: int, s: int, x: int, y: int, a: int, b: int, q: int, t: int)
    requires m * a + s * b == 1 && a * (y - x) == s * q + t
    ensures x + m * t == s * (-b * (y - x) - m * q) + y
  {
    var d := y - x;
    calc {
      m * t;
      m * (a * d - s * q);
      { Distribute(m, a * d, s * q); }
      m * (a * d) - m * (s * q);
      (m * a) * d - s * (m * q);
      (1 - s * b) * d - s * (m * q);
      d - (s * b) * d - s * (m * q);
    }
    assert (s * b) * d == s * (b * d);
    Distribute(s, -b * d, m * q);
    assert -b * d == -(b * d);
  }

  lemma OnlyOneBelow(m: nat, s: nat, z: nat, z': nat)
    requires m > 0 && s > 0 && Coprime(m, s) && z < m * s && z' < m * s
    requires z % m == z' % m && z % s == z' % s
    ensures z == z'
  {
    var a, b := CoprimeCombination(m, s);
    var u := Apart(m, z, z');
    var v := Apart(s, z, z');
    var d := z - z';
    Combined(m, s, a, b, u, v, d);
    Small(m * s, v * a + u * b);
  }

  lemma Combined(m: int, s: int, a: int, b: int, u: int, v: int, d: int)
    requires m * a + s * b == 1 && d == m * u && d == s * v
    ensures d == (m * s) * (v * a + u * b)
  {
    calc {
      d;
      d * (m * a + s * b);
      { Distribute(d, m * a, s * b); }
      d * (m * a) + d * (s * b);
      (s * v) * (m * a) + (m * u) * (s * b);
      (m * s) * (v * a) + (m * s) * (u * b);
      { Distribute(m * s, v * a, u * b); }
      (m * s) * (v * a + u * b);
    }
  }

  lemma TailFacts(sizes: seq<nat>)
    requires sizes != [] && 0 !in sizes && PairwiseCoprime(sizes)
    ensures sizes[0] > 0 && 0 !in sizes[1..] && PairwiseCoprime(sizes[1..]) && Product(sizes[1..]) > 0
    ensures Coprime(Product(sizes[1..]), sizes[0])
  {
    var rest := sizes[1..];
    assert forall k :: 0 <= k < |rest| ==> rest[k] == sizes[k + 1];
    ZeroProduct(rest);
    forall k | 0 <= k < |rest| ensures Coprime(rest[k], sizes[0]) {
      CoprimeSymmetric(sizes[0], sizes[k + 1]);
    }
    CoprimeToProduct(sizes[0], rest);
  }

  /** Remainders for the tail carry over to every number with the same remainder modulo the product of the tail. */
  lemma HitsTail(sizes: seq<nat>, c: seq<nat>, z: nat)
    requires sizes != [] && c != [] && 0 !in sizes && Product(sizes[1..]) > 0
    ensures Hits(sizes, c, z) <==> z % sizes[0] == c[0] && Hits(sizes[1..], c[1..], z % Product(sizes[1..]))
  {
    var rest, m := sizes[1..], Product(sizes[1..]);
    forall k | 0 <= k < |rest| ensures rest[k] > 0 && (z % m) % rest[k] == z % sizes[k + 1] {
      assert 0 !in rest;
      DividesProduct(rest, k);
      ModOfMod(z, m, rest[k]);
    }
    if z % sizes[0] == c[0] && Hits(rest, c[1..], z % m) {
      forall k | 0 <= k < |sizes| ensures sizes[k] > 0 && z % sizes[k] == c[k] {
        assert k > 0 ==> rest[k - 1] == sizes[k] && c[1..][k - 1] == c[k];
      }
    }
    if Hits(sizes, c, z) {
      forall k | 0 <= k < |rest| ensures rest[k] > 0 && (z % m) % rest[k] == c[1..][k] {
        assert rest[k] == sizes[k + 1] && c[1..][k] == c[k + 1];
      }
    }
  }

  /** The Chinese remainder theorem: below the product there is a number with the chosen remainders. */
  lemma {:induction false} SomeNumber(sizes: seq<nat>, c: seq<nat>) returns (z: nat)
    requires Choice(sizes, c) && PairwiseCoprime(sizes)
    ensures z < Product(sizes) && Hits(sizes, c, z)
  {
    if sizes == [] {
      z := 0;
    } else {
      assert 0 !in sizes;
      TailFacts(sizes);
      var m := Product(sizes[1..]);
      assert Choice(sizes[1..], c[1..]);
      var y := SomeNumber(sizes[1..], c[1..]);
      z := Remainders(m, sizes[0], y, c[0]);
      HitsTail(sizes, c, z);
    }
  }

  /** And only one. */
  lemma {:induction false} OneNumber(sizes: seq<nat>, c: seq<nat>, z: nat, z': nat)
    requires 0 !in sizes && PairwiseCoprime(sizes) && z < Product(sizes) && z' < Product(sizes)
    requires Hits(sizes, c, z) && Hits(sizes, c, z')
    ensures z == z'
  {
    if sizes != [] {
      TailFacts(sizes);
      var m := Product(sizes[1..]);
      HitsTail(sizes, c, z);
      HitsTail(sizes, c, z');
      OneNumber(sizes[1..], c[1..], z % m, z' % m);
      OnlyOneBelow(m, sizes[0], z, z');
    }
  }

  lemma ChoiceOnce(sizes: seq<nat>, c: seq<nat>)
    requires PairwiseCoprime(sizes) && Product(sizes) < WIDTH && Choice(sizes, c)
    ensures InOneRow(sizes, c)
  {
    hide Hits, PairwiseCoprime, Product;
    assert 0 !in sizes;
    var z := SomeNumber(sizes, c);
    assert RowHits(sizes, c, z);
    forall i, j | RowHits(sizes, c, i) && RowHits(sizes, c, j) ensures i == j {
      OneNumber(sizes, c, i, j);
    }
  }

  lemma NotBoth(i: nat, a: nat, b: nat, d: nat)
    requires a > 0 && b > 0 && d > 1 && CommonDivisor(d, a, b)
    ensures !(i % a == 0 && i % b == 1)
  {
    ModOfMod(i, a, d);
    ModOfMod(i, b, d);
  }

  /** Lists with a common divisor: first position of one, second of the other, first of the rest is in no row. */
  lemma SharedDivisorLosesOne(sizes: seq<nat>, j: nat, k: nat, d: nat)
    requires 0 !in sizes && j < k < |sizes| && d > 1 && CommonDivisor(d, sizes[j], sizes[k])
    ensures !EveryChoiceOnce(sizes)
  {
    var c := seq(|sizes|, m requires 0 <= m < |sizes| => if m == k then 1 else 0);
    assert sizes[k] != 1;
    assert Choice(sizes, c);
    forall i ensures !RowHits(sizes, c, i) {
      NotBoth(i, sizes[j], sizes[k], d);
      assert c[j] == 0 && c[k] == 1;
    }
    assert !InOneRow(sizes, c);
  }

  function Positions(sizes: seq<nat>, i: nat): seq<nat>
    requires forall k :: 0 <= k < |sizes| ==> sizes[k] > 0
  {
    seq(|sizes|, k requires 0 <= k < |sizes| => i % sizes[k])
  }

  /** When the product does not fit, the combination of the first number past the rows is in no row. */
  lemma WrapLosesOne(sizes: seq<nat>)
    requires 0 !in sizes && PairwiseCoprime(sizes) && Product(sizes) >= WIDTH
    ensures !EveryChoiceOnce(sizes)
  {
    var z := Rows(sizes);
    forall m | 0 <= m < |sizes| ensures sizes[m] > 0 {
      assert sizes[m] in sizes;
    }
    var c := Positions(sizes, z);
    assert Choice(sizes, c) && Hits(sizes, c, z);
    forall i ensures !RowHits(sizes, c, i) {
      if RowHits(sizes, c, i) {
        OneNumber(sizes, c, i, z);
      }
    }
    assert !InOneRow(sizes, c);
  }

  /** Every choice of one value a list is in exactly one row if and only if some list is empty, so that there are no
      choices, or the lengths are pairwise coprime and their product fits in 32 bits. */
  lemma EveryChoiceOnceIff(sizes: seq<nat>)
    ensures EveryChoiceOnce(sizes) <==> 0 in sizes || (PairwiseCoprime(sizes) && Product(sizes) < WIDTH)
  {
    if 0 in sizes {
      var k :| 0 <= k < |sizes| && sizes[k] == 0;
      forall c ensures !Choice(sizes, c) {
      }
    } else if !PairwiseCoprime(sizes) {
      var j, k :| 0 <= j < k < |sizes| && !Coprime(sizes[j], sizes[k]);
      var d: nat :| d > 1 && CommonDivisor(d, sizes[j], sizes[k]);
      SharedDivisorLosesOne(sizes, j, k, d);
    } else if Product(sizes) >= WIDTH {
      WrapLosesOne(sizes);
    } else {
      forall c | Choice(sizes, c) ensures InOneRow(sizes, c) {
        ChoiceOnce(sizes, c);
      }
    }
  }

  // ---------- how often each value is used ----------

  /** Whatever the lengths, if the product fits then every value of a list is in the same number of rows. */
  lemma UsedEqually(sizes: seq<nat>, k: nat, p: nat)
    requires k < |sizes| && p < sizes[k] && Product(sizes) < WIDTH
    ensures Uses(Rows(sizes), sizes[k], p) == Rows(sizes) / sizes[k] && Rows(sizes) % sizes[k] == 0
  {
    hide Product, Uses;
    UsesFormula(Rows(sizes), sizes[k], p);
    ZeroProduct(sizes);
    if 0 !in sizes {
      DividesProduct(sizes, k);
    }
  }
}
