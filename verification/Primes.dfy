/** Three prime tables: trial division, a sieve, and the one that consults the sieve first. */
module Primes {

  import opened Arithmetic

  ghost predicate Prime(n: int) {
    n > 1 && NoDivisorBelow(n, n)
  }

  ghost predicate NoDivisorBelow(n: int, bound: int) {
    forall d :: 1 < d < bound ==> n % d != 0
  }

  /** q is the first prime after p. */
  ghost predicate NextPrime(p: int, q: int) {
    p < q && Prime(q) && forall n :: p < n < q ==> !Prime(n)
  }

  lemma OtherDivisor(n: int, d: int, i: int)
    requires 1 < i <= d < n < i * i && n % d == 0
    ensures 1 < n / d < i && n % (n / d) == 0
  {
    var e := n / d;
    assert n == d * e;
    Multiple(e, d);
    AtLeastProduct(d, e, i);
  }

  lemma AtLeastProduct(d: int, e: int, i: int)
    requires 0 < i <= d
    ensures e >= i ==> d * e >= i * i
    ensures e <= 1 ==> d * e <= d
  {
    if e >= i {
      assert i * i <= d * i <= d * e;
    }
  }

  /** A number without a divisor up to its square root has none. */
  lemma RootIsEnough(n: int, i: int)
    requires 1 < i && n < i * i && NoDivisorBelow(n, i)
    ensures NoDivisorBelow(n, n)
  {
    forall d | 1 < d < n ensures n % d != 0 {
      if n % d == 0 && d >= i {
        OtherDivisor(n, d, i);
      }
    }
  }

  // ---------- there is always a next prime ----------

  function Factorial(n: nat): (f: nat)
    ensures f > 0
  {
    if n == 0 then 1 else n * Factorial(n - 1)
  }

  lemma {:induction false} DividesFactorial(n: nat, d: nat)
    requires 0 < d <= n
    ensures Factorial(n) % d == 0
  {
    var f := Factorial(n - 1);
    if d == n {
      Multiple(d, f);
    } else {
      DividesFactorial(n - 1, d);
      var q := f / d;
      assert n * f == d * (n * q) by {
        assert f == d * q;
      }
      Multiple(d, n * q);
    }
  }

  lemma {:induction false} LeastDivisor(n: int, from: int) returns (d: int)
    requires 1 < from <= n && NoDivisorBelow(n, from)
    ensures 1 < d <= n && n % d == 0 && NoDivisorBelow(n, d)
    decreases n - from
  {
    if n % from == 0 {
      d := from;
    } else {
      d := LeastDivisor(n, from + 1);
    }
  }

  lemma PrimeDivisor(n: int) returns (d: int)
    requires n > 1
    ensures 1 < d <= n && n % d == 0 && Prime(d)
  {
    d := LeastDivisor(n, 2);
    forall e | 1 < e < d ensures d % e != 0 {
      if d % e == 0 {
        ModOfMod(n, d, e);
      }
    }
  }

  /** Euclid: the product of the numbers up to p, plus one, has a prime divisor, and it is above p. */
  lemma PrimeAbove(p: nat) returns (q: int)
    ensures p < q <= Factorial(p) + 1 && Prime(q)
  {
    var f := Factorial(p);
    q := PrimeDivisor(f + 1);
    if q <= p {
      DividesFactorial(p, q);
      assert f == q * (f / q);
      DivMod(q, f / q, 1);
    }
  }

  // ---------- trial division ----------

  class OnTheFlyPrimeTable {

    method IsPrime(n: int) returns (r: bool)
      ensures r == Prime(n)
    {
      if n <= 1 {
        return false;
      }
      var i := 2;
      while i * i <= n
        invariant 2 <= i <= n && NoDivisorBelow(n, i)
        decreases n - i
      {
        if n % i == 0 {
          Below(n, i);
          return false;
        }
        Below(n, i);
        i := i + 1;
      }
      RootIsEnough(n, i);
      r := true;
    }

    method GetNextPrime(p: int) returns (q: int)
      ensures if p < 0 then q == -1 else NextPrime(p, q)
    {
      var n := p + 1;
      ghost var bound := n;
      if p >= 0 {
        bound := PrimeAbove(p);
      }
      while n > 0
        invariant p < n <= bound && (p >= 0 ==> Prime(bound))
        invariant forall m :: p < m < n ==> !Prime(m)
        decreases bound - n
      {
        var prime := IsPrime(n);
        if prime {
          return n;
        }
        n := n + 1;
      }
      q := -1;
    }
  }

  lemma Below(n: int, i: int)
    requires 2 <= i && i * i <= n
    ensures i < n && i + 1 <= n
  {
    assert 2 * i <= i * i;
  }

  // ---------- the sieve ----------

  class PreCalculatedPrimeTable {
    const isPrimeSize: nat
    const isPrime: array<bool>

    ghost predicate Valid()
      reads this, isPrime
    {
      && isPrimeSize >= 2 && isPrime.Length == isPrimeSize
      && forall n :: 0 <= n < isPrimeSize ==> isPrime[n] == Prime(n)
    }

    constructor (max: int)
      requires max >= 1
      ensures Valid() && fresh(isPrime) && isPrimeSize == max + 1
    {
      isPrimeSize := max + 1;
      isPrime := new bool[max + 1](_ => true);
      new;
      CalculatePrimesUpTo(max);
    }

    method CalculatePrimesUpTo(max: int)
      requires max >= 1 && isPrime.Length == isPrimeSize == max + 1
      requires forall n :: 0 <= n <= max ==> isPrime[n]
      modifies isPrime
      ensures Valid()
    {
      hide Unmarked, Prime;
      UnmarkedEnds();
      isPrime[0], isPrime[1] := false, false;
      for i := 2 to max + 1
        invariant forall n :: 0 <= n <= max ==> isPrime[n] == Unmarked(n, i)
      {
        if isPrime[i] {
          var j := 2 * i;
          Multiple(i, 2);
          NoneBetween(i, i);
          while j <= max
            invariant j > i && j % i == 0
            invariant forall n :: 0 <= n <= max ==>
              isPrime[n] == (Unmarked(n, i) && !(n < j && MultipleOf(i, n)))
          {
            NoneBetween(i, j);
            isPrime[j] := false;
            j := j + i;
          }
          forall n | 0 <= n <= max ensures isPrime[n] == Unmarked(n, i + 1) {
            MarkMultiples(n, i);
          }
        } else {
          forall n | 0 <= n <= max ensures isPrime[n] == Unmarked(n, i + 1) {
            MarkedAlready(n, i);
          }
        }
      }
    }

    method IsPrime(n: int) returns (r: bool)
      requires Valid()
      ensures r == (n < isPrimeSize && Prime(n))
    {
      r := 0 <= n && n < isPrimeSize && isPrime[n];
    }

    method GetNextPrime(p: int) returns (q: int)
      requires Valid() && p >= -1
      ensures q == -1 || (NextPrime(p, q) && q < isPrimeSize)
      ensures q == -1 ==> forall n :: p < n < isPrimeSize ==> !Prime(n)
    {
      var n := p + 1;
      while n < isPrimeSize
        invariant p < n && forall m :: p < m < n && m < isPrimeSize ==> !Prime(m)
      {
        if isPrime[n] {
          return n;
        }
        n := n + 1;
      }
      q := -1;
    }
  }

  /** No number from 2 up to i has n among its proper multiples. */
  ghost predicate Unmarked(n: int, i: int) {
    n > 1 && forall d :: 1 < d < i && d < n ==> n % d != 0
  }

  lemma UnmarkedEnds()
    ensures forall n :: Unmarked(n, 2) == (n > 1)
    ensures forall n, i :: n < i ==> Unmarked(n, i) == Prime(n)
    ensures forall i :: i > 1 ==> Unmarked(i, i) == Prime(i)
  {
  }

  predicate MultipleOf(i: int, n: int)
    requires i > 0
  {
    n > i && n % i == 0
  }

  lemma NoneBetween(i: int, j: int)
    requires i > 0 && j % i == 0
    ensures (j + i) % i == 0
    ensures forall n :: j < n < j + i ==> n % i != 0
  {
    var q := j / i;
    assert j == i * q;
    Distribute(i, q, 1);
    Multiple(i, q + 1);
    forall n | j < n < j + i ensures n % i != 0 {
      DivMod(i, q, n - j);
    }
  }

  lemma MarkMultiples(n: int, i: int)
    requires i >= 2
    ensures Unmarked(n, i + 1) == (Unmarked(n, i) && !MultipleOf(i, n))
  {
  }

  /** The multiples of a number that is marked are marked. */
  lemma MarkedAlready(n: int, i: int)
    requires i >= 2 && !Unmarked(i, i)
    ensures Unmarked(n, i + 1) == Unmarked(n, i)
  {
    if n > i && n % i == 0 {
      var d :| 1 < d < i && i % d == 0;
      ModOfMod(n, i, d);
    }
  }

  // ---------- the sieve, and trial division beyond it ----------

  class HybridPrimeTable {
    const onTheFly: OnTheFlyPrimeTable
    const precalc: PreCalculatedPrimeTable?
    const maxPrecalculated: int

    ghost predicate Valid()
      reads this, precalc, if precalc == null then {} else {precalc.isPrime}
    {
      precalc != null ==> precalc.Valid() && precalc.isPrimeSize == maxPrecalculated + 1
    }

    constructor (forceOnTheFly: bool, maxPrecalculated: int)
      requires !forceOnTheFly ==> maxPrecalculated >= 1
      ensures Valid() && this.maxPrecalculated == maxPrecalculated && (precalc == null <==> forceOnTheFly)
    {
      var fly := new OnTheFlyPrimeTable;
      onTheFly := fly;
      this.maxPrecalculated := maxPrecalculated;
      if forceOnTheFly {
        precalc := null;
      } else {
        var table := new PreCalculatedPrimeTable(maxPrecalculated);
        precalc := table;
      }
    }

    /** Agrees with primality everywhere. */
    method IsPrime(n: int) returns (r: bool)
      requires Valid()
      ensures r == Prime(n)
    {
      if precalc != null && n < maxPrecalculated {
        r := precalc.IsPrime(n);
      } else {
        r := onTheFly.IsPrime(n);
      }
    }

    /** The least prime above p from 0 on; at -1 the two tables differ. */
    method GetNextPrime(p: int) returns (q: int)
      requires Valid() && (precalc != null ==> p >= -1)
      ensures p >= 0 ==> NextPrime(p, q)
      ensures p < 0 ==> q == if precalc != null && maxPrecalculated >= 2 then 2 else -1
    {
      q := -1;
      if precalc != null && p < maxPrecalculated {
        q := precalc.GetNextPrime(p);
        FirstPrime();
      }
      if q == -1 {
        q := onTheFly.GetNextPrime(p);
      }
    }
  }

  lemma FirstPrime()
    ensures Prime(2) && !Prime(0) && !Prime(1) && !Prime(-1)
  {
  }
}
