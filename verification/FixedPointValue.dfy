/**
 What ParseFixedPoint computes from the parts of a number: the whole, the fraction and the
 exponent of a text say what the integer is, with all powers of ten on their side of the
 equation.
 */
module FixedPointValues {
  import opened Wrappers
  import opened Radix
  import opened CStrings
  import opened FixedPoint

  /** Digit d is worth d. */
  lemma DigitIs(d: nat)
    requires d < 10
    ensures |TEN| == 10 && Digit(TEN[d]) == d
  {
    assert TEN[d] == '0' + d as char;
  }

  lemma Times10(x: nat, p: nat, y: nat, d: nat)
    ensures (x * p + y) * 10 + d == x * (10 * p) + (y * 10 + d)
  {
    assert x * (10 * p) == 10 * (x * p);
  }

  lemma {:induction false} DecJoin(a: string, b: string)
    ensures Dec(a + b) == Dec(a) * Pow(10, |b|) + Dec(b)
  {
    if b == [] {
      assert a + b == a;
    } else {
      var n := |b| - 1;
      DecJoin(a, b[..n]);
      assert Dec(a + b) == Dec(a + b[..n]) * 10 + Digit(b[n]) by {
        DecSnoc(a + b[..n], b[n]);
        assert a + b == a + b[..n] + [b[n]];
      }
      Times10(Dec(a), Pow(10, n), Dec(b[..n]), Digit(b[n]));
    }
  }

  // ---- The number a text stands for ----

  function PowerOf(n: Number): int {
    match n.exp
    case None => 0
    case Some(e) => if e.sign == "-" then 0 - Dec(e.digits) else Dec(e.digits)
  }

  /** 10^|frac| times the whole and the fraction. */
  function Digits(n: Number): nat {
    Dec(n.whole) * Pow(10, |n.frac|) + Dec(n.frac)
  }

  /** The part of a power of ten that multiplies, and the part that divides. */
  function Above(x: int): nat {
    if x >= 0 then x else 0
  }

  function Below(x: int): nat {
    if x >= 0 then 0 else -x
  }

  /** a = (whole + frac / 10^|frac|) * 10^x */
  ghost predicate Worth(n: Number, x: int, a: nat) {
    a * (Pow(10, |n.frac|) * Pow(10, Below(x))) == Digits(n) * Pow(10, Above(x))
  }

  /** v is the number times 10^decimals, below 10^18 in magnitude; for a zero the power of ten is
      to be in range as well. */
  ghost predicate Fits(n: Number, decimals: int, v: int) {
    && (exists a: nat {:trigger Worth(n, PowerOf(n) + decimals, a)} ::
          v == (if n.neg then 0 - a else a) && Worth(n, PowerOf(n) + decimals, a))
    && -1000000000000000000 < v < 1000000000000000000
    && (Digits(n) == 0 ==> 0 <= PowerOf(n) + decimals < 18)
  }

  lemma DigitsIs(n: Number)
    ensures Digits(n) == Mantissa(n)
  {
    DecJoin(n.whole, n.frac);
  }

  lemma CancelRight(a: nat, b: nat, p: nat, m: nat, q: nat, r: nat)
    requires p > 0 && q == b * p && r == m * p
    ensures a * q == r <==> a * b == m
  {
    MulAssoc(a, b, p);
    Cancels(a * b, m, p);
  }

  /** f digits after the point and a power x that does not fall short of them. */
  lemma WorthAbove(f: nat, x: nat, m: nat, a: nat)
    requires x >= f
    ensures a * (Pow(10, f) * Pow(10, 0)) == m * Pow(10, x) <==> a == m * Pow(10, x - f)
  {
    PowAdd(10, x - f, f);
    PowPositive(10, f);
    MulAssoc(m, Pow(10, x - f), Pow(10, f));
    CancelRight(a, 1, Pow(10, f), m * Pow(10, x - f), Pow(10, f) * Pow(10, 0), m * Pow(10, x));
  }

  lemma WorthBetween(f: nat, x: nat, m: nat, a: nat)
    requires x < f
    ensures a * (Pow(10, f) * Pow(10, 0)) == m * Pow(10, x) <==> a * Pow(10, f - x) == m
  {
    PowAdd(10, f - x, x);
    PowPositive(10, x);
    CancelRight(a, Pow(10, f - x), Pow(10, x), m, Pow(10, f) * Pow(10, 0), m * Pow(10, x));
  }

  lemma WorthBelow(f: nat, x: nat, m: nat, a: nat)
    ensures a * (Pow(10, f) * Pow(10, x)) == m * Pow(10, 0) <==> a * Pow(10, f + x) == m
  {
    PowAdd(10, f, x);
  }

  lemma WorthIs(n: Number, x: int, a: nat)
    ensures Worth(n, x, a) <==> Scaled(Mantissa(n), x - |n.frac|, a)
  {
    DigitsIs(n);
    var f := |n.frac|;
    if x >= f {
      WorthAbove(f, x, Mantissa(n), a);
    } else if x >= 0 {
      WorthBetween(f, x, Mantissa(n), a);
    } else {
      WorthBelow(f, -x, Mantissa(n), a);
    }
  }

  lemma ZeroWorth(n: Number, x: int, a: nat)
    requires Digits(n) == 0
    ensures Worth(n, x, a) <==> a == 0
  {
    PowPositive(10, |n.frac|);
    PowPositive(10, Below(x));
    MulLe(Pow(10, |n.frac|), 1, Pow(10, Below(x)));
    MulAtLeast(a, Pow(10, |n.frac|) * Pow(10, Below(x)));
  }

  lemma AcceptedWorth(n: Number, decimals: int, a: nat)
    ensures Accepted(n, decimals, a) <==>
      && Worth(n, PowerOf(n) + decimals, a) && a < LIMIT
      && (Digits(n) == 0 ==> 0 <= PowerOf(n) + decimals < 18)
  {
    DigitsIs(n);
    if Mantissa(n) == 0 {
      ZeroWorth(n, PowerOf(n) + decimals, a);
    } else {
      WorthIs(n, PowerOf(n) + decimals, a);
    }
  }

  // ---- The texts ----

  /** Sign, whole, point and fraction if there is one, exponent if there is one. */
  function Written(n: Number): string {
    (if n.neg then "-" else "") + n.whole + (if n.frac == "" then "" else "." + n.frac)
    + match n.exp
      case None => ""
      case Some(e) => [e.mark] + e.sign + e.digits
  }

  ghost predicate InTen(s: string) {
    forall i :: 0 <= i < |s| ==> s[i] in TEN
  }

  /** The grammar of JSON numbers. */
  ghost predicate Json(n: Number) {
    && (n.whole == "0" || (n.whole != "" && n.whole[0] != '0' && InTen(n.whole))) && InTen(n.frac)
    && match n.exp
       case None => true
       case Some(e) =>
         && (e.mark == 'e' || e.mark == 'E') && (e.sign == "" || e.sign == "+" || e.sign == "-")
         && e.digits != "" && InTen(e.digits)
  }

  lemma InTenIs(s: string)
    ensures AllDigits(s) <==> InTen(s)
  {
    forall i | 0 <= i < |s| ensures IsDigit(s[i]) <==> s[i] in TEN {
      DigitsAre(s[i]);
    }
  }

  lemma JsonIs(n: Number)
    ensures Valid(n) <==> Json(n)
  {
    InTenIs(n.whole);
    InTenIs(n.frac);
    if n.exp.Some? {
      InTenIs(n.exp.value.digits);
    }
  }

  lemma Joined(a: string, b: string, c: string, d: string)
    ensures a + (b + (c + d)) == a + b + c + d
  {
  }

  lemma WrittenIs(n: Number)
    ensures Text(n) == Written(n)
  {
    Joined(SignText(n.neg), n.whole, FracText(n.frac), ExpText(n.exp));
    if n.exp.Some? {
      var e := n.exp.value;
      assert [e.mark] + (e.sign + e.digits) == [e.mark] + e.sign + e.digits;
    }
  }

  lemma FitsIff(n: Number, decimals: int, v: int)
    ensures Fits(n, decimals, v) <==> exists a: nat :: Accepted(n, decimals, a) && v == Signed(n.neg, a)
  {
    if a: nat :| Accepted(n, decimals, a) && v == Signed(n.neg, a) {
      AcceptedWorth(n, decimals, a);
    }
    if Fits(n, decimals, v) {
      var a: nat :| v == (if n.neg then 0 - a else a) && Worth(n, PowerOf(n) + decimals, a);
      AcceptedWorth(n, decimals, a);
    }
  }

  /** The text of a JSON number that v is the value of. */
  ghost predicate Stands(val: string, n: Number, decimals: int, v: int) {
    Json(n) && Written(n) == val && Fits(n, decimals, v)
  }

  lemma StandsIff(val: string, n: Number, decimals: int, v: int)
    ensures Stands(val, n, decimals, v) <==>
      Valid(n) && Text(n) == val && exists a: nat :: Accepted(n, decimals, a) && v == Signed(n.neg, a)
  {
    JsonIs(n);
    WrittenIs(n);
    FitsIff(n, decimals, v);
  }

  /** Exactly the JSON numbers whose value times 10^decimals is an integer of magnitude below
      10^18 are accepted, a zero if its power of ten is in range; the result is that integer. */
  lemma ParseValue(val: string, decimals: int, r: Option<int>, v: int)
    requires match ParseNumber(val) { case None => r == None case Some(n) => Answer(n, decimals, r) }
    ensures r == Some(v) <==> exists n :: Stands(val, n, decimals, v)
  {
    ParseExact(val, decimals, r, v);
    if r == Some(v) {
      var n, a: nat :| Valid(n) && Text(n) == val && Accepted(n, decimals, a) && v == Signed(n.neg, a);
      StandsIff(val, n, decimals, v);
    }
    if n :| Stands(val, n, decimals, v) {
      StandsIff(val, n, decimals, v);
    }
  }
}
