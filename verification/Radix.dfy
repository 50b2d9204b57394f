/**
 Positional notation. Every radix conversion of the program (ConvertBits, the bit
 streams, Base58, little-endian integers) is specified by the number its digits stand
 for, and every round trip rests on ValueUnique: digit strings of equal length and equal
 value are equal.
 */
module Radix {
  function Pow(b: nat, e: nat): nat {
    if e == 0 then 1 else b * Pow(b, e - 1)
  }

  /** The number a big-endian digit string stands for. */
  function Value(base: nat, ds: seq<nat>): nat {
    if ds == [] then 0 else Value(base, ds[..|ds| - 1]) * base + ds[|ds| - 1]
  }

  ghost predicate Digits(base: nat, ds: seq<nat>) {
    forall i :: 0 <= i < |ds| ==> ds[i] < base
  }

  lemma PowPositive(b: nat, e: nat)
    requires b > 0
    ensures Pow(b, e) > 0
  {
  }

  lemma {:induction false} PowAdd(b: nat, m: nat, n: nat)
    ensures Pow(b, m + n) == Pow(b, m) * Pow(b, n)
  {
    if m != 0 {
      PowAdd(b, m - 1, n);
      MulAssoc(b, Pow(b, m - 1), Pow(b, n));
    }
  }

  lemma {:induction false} PowMul(b: nat, m: nat, n: nat)
    ensures Pow(b, m * n) == Pow(Pow(b, m), n)
  {
    if n != 0 {
      PowMul(b, m, n - 1);
      assert m * n == m + m * (n - 1);
      PowAdd(b, m, m * (n - 1));
    }
  }

  lemma {:induction false} PowMonotone(b: nat, m: nat, n: nat)
    requires b > 0 && m <= n
    ensures Pow(b, m) <= Pow(b, n)
  {
    PowAdd(b, m, n - m);
    PowPositive(b, n - m);
    PowPositive(b, m);
    MulLe(Pow(b, m), 1, Pow(b, n - m));
  }

  lemma {:induction false} PowBaseMonotone(a: nat, b: nat, n: nat)
    requires a <= b
    ensures Pow(a, n) <= Pow(b, n)
  {
    if n != 0 {
      PowBaseMonotone(a, b, n - 1);
      MulLe(a, Pow(a, n - 1), Pow(b, n - 1));
      MulLe(Pow(b, n - 1), a, b);
    }
  }

  lemma {:induction false} PowBaseStrict(a: nat, b: nat, n: nat)
    requires a < b && n > 0
    ensures Pow(a, n) < Pow(b, n)
  {
    PowBaseMonotone(a, b, n - 1);
    PowPositive(b, n - 1);
    MulLe(a, Pow(a, n - 1), Pow(b, n - 1));
    assert b * Pow(b, n - 1) == a * Pow(b, n - 1) + (b - a) * Pow(b, n - 1);
    MulLe(Pow(b, n - 1), 1, b - a);
  }

  /** If p digits of radix a fit in q digits of radix b, then n digits of radix a fit in
      `size` digits of radix b whenever size/n is at least q/p. */
  lemma {:induction false} RadixFits(a: nat, p: nat, b: nat, q: nat, n: nat, size: nat)
    requires b > 0 && p > 0
    requires Pow(a, p) <= Pow(b, q) && q * n <= p * size
    ensures Pow(a, n) <= Pow(b, size)
  {
    PowMul(a, n, p);
    PowMul(a, p, n);
    assert n * p == p * n;
    PowBaseMonotone(Pow(a, p), Pow(b, q), n);
    PowMul(b, q, n);
    PowMonotone(b, q * n, p * size);
    PowMul(b, size, p);
    assert size * p == p * size;
    if Pow(a, n) > Pow(b, size) {
      PowBaseStrict(Pow(b, size), Pow(a, n), p);
    }
  }

  lemma MulAssoc(x: nat, y: nat, z: nat)
    ensures x * y * z == x * (y * z)
  {
  }

  lemma MulLe(x: nat, y: nat, z: nat)
    requires y <= z
    ensures x * y <= x * z
    ensures y * x <= z * x
  {
  }

  /** Quotient and remainder are determined by their defining equation. */
  lemma DivModUnique(n: nat, d: nat, q: nat, r: nat)
    requires r < d && n == q * d + r
    ensures n / d == q && n % d == r
  {
    var k := n / d - q;
    assert k * d == r - n % d;
    MulAtLeast(k, d);
  }

  lemma MulAtLeast(k: int, d: int)
    requires d > 0
    ensures k > 0 ==> k * d >= d
    ensures k < 0 ==> k * d <= -d
  {
  }

  lemma {:induction false} ValueAppend(base: nat, xs: seq<nat>, ys: seq<nat>)
    ensures Value(base, xs + ys) == Value(base, xs) * Pow(base, |ys|) + Value(base, ys)
  {
    if ys == [] {
      assert xs + ys == xs;
    } else {
      var n := |ys| - 1;
      assert (xs + ys)[..|xs + ys| - 1] == xs + ys[..n];
      ValueAppend(base, xs, ys[..n]);
      assert Pow(base, |ys|) == base * Pow(base, n);
      Distribute(Value(base, xs), Pow(base, n), base, Value(base, ys[..n]));
    }
  }

  lemma Distribute(x: nat, p: nat, b: nat, y: nat)
    ensures (x * p + y) * b == x * (b * p) + y * b
  {
    MulAssoc(x, p, b);
    assert p * b == b * p;
  }

  lemma {:induction false} ValueBound(base: nat, ds: seq<nat>)
    requires base > 0 && Digits(base, ds)
    ensures Value(base, ds) < Pow(base, |ds|)
  {
    if ds != [] {
      var n := |ds| - 1;
      ValueBound(base, ds[..n]);
      MulLe(base, Value(base, ds[..n]) + 1, Pow(base, n));
    }
  }

  /** A digit string of given length is determined by its value. */
  lemma {:induction false} ValueUnique(base: nat, xs: seq<nat>, ys: seq<nat>)
    requires base > 0 && Digits(base, xs) && Digits(base, ys)
    requires |xs| == |ys| && Value(base, xs) == Value(base, ys)
    ensures xs == ys
  {
    if xs != [] {
      var n := |xs| - 1;
      DivModUnique(Value(base, xs), base, Value(base, xs[..n]), xs[n]);
      DivModUnique(Value(base, ys), base, Value(base, ys[..n]), ys[n]);
      ValueUnique(base, xs[..n], ys[..n]);
      assert xs == xs[..n] + [xs[n]];
      assert ys == ys[..n] + [ys[n]];
    }
  }

  lemma {:induction false} ValueZeros(base: nat, n: nat)
    ensures Value(base, seq(n, _ => 0)) == 0
  {
    if n != 0 {
      assert seq(n, _ => 0)[..n - 1] == seq(n - 1, _ => 0);
      ValueZeros(base, n - 1);
    }
  }

  lemma ValueSnoc(base: nat, ds: seq<nat>, d: nat)
    ensures Value(base, ds + [d]) == Value(base, ds) * base + d
  {
    assert (ds + [d])[..|ds + [d]| - 1] == ds;
  }

  lemma ValueCons(base: nat, d: nat, ds: seq<nat>)
    ensures Value(base, [d] + ds) == d * Pow(base, |ds|) + Value(base, ds)
  {
    ValueAppend(base, [d], ds);
    assert Value(base, [d]) == d by { ValueSnoc(base, [], d); assert [] + [d] == [d]; }
  }

  /** Leading zeros do not count. */
  lemma ValueLeadingZeros(base: nat, n: nat, ds: seq<nat>)
    ensures Value(base, seq(n, _ => 0) + ds) == Value(base, ds)
  {
    ValueAppend(base, seq(n, _ => 0), ds);
    ValueZeros(base, n);
  }

  /** The digits of v without leading zeros. */
  function Minimal(base: nat, v: nat): (ds: seq<nat>)
    requires base > 1
    ensures Digits(base, ds) && (ds == [] <==> v == 0)
  {
    if v == 0 then [] else
      DivLess(v, base);
      Minimal(base, v / base) + [v % base]
  }

  lemma DivLess(v: nat, base: nat)
    requires base > 1 && v > 0
    ensures v / base < v
  {
    var q: nat := v / base;
    assert v == q * base + v % base;
    MulLe(q, 2, base);
  }

  ghost predicate Trimmed(ds: seq<nat>) {
    ds != [] ==> ds[0] != 0
  }

  lemma {:induction false} MinimalValue(base: nat, v: nat)
    requires base > 1
    ensures Value(base, Minimal(base, v)) == v && Trimmed(Minimal(base, v))
  {
    if v != 0 {
      DivLess(v, base);
      var q: nat, r: nat := v / base, v % base;
      assert v == q * base + r;
      MinimalValue(base, q);
      ValueSnoc(base, Minimal(base, q), r);
      assert Minimal(base, v) == Minimal(base, q) + [r];
    }
  }

  /** A digit string without leading zeros is the minimal one of its value. */
  lemma {:induction false} MinimalUnique(base: nat, ds: seq<nat>)
    requires base > 1 && Digits(base, ds) && Trimmed(ds)
    ensures Minimal(base, Value(base, ds)) == ds
  {
    if ds != [] {
      var n := |ds| - 1;
      var hi := Value(base, ds[..n]);
      MinimalUnique(base, ds[..n]);
      DivModUnique(Value(base, ds), base, hi, ds[n]);
      assert ds == ds[..n] + [ds[n]];
      if Value(base, ds) == 0 {
        assert n > 0;
        MulAtLeast(hi, base);
      }
    }
  }
}
