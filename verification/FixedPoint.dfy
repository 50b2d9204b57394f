/**
 strencodings.cpp: ParseFixedPoint reads a JSON number (section 6 of RFC 8259) into a 64-bit
 count of 10^-decimals. It is exact: it accepts a number other than zero exactly when the
 scaled value is an integer of magnitude below 10^18.
 */
module FixedPoint {
  import opened Wrappers
  import opened CStrings
  import opened Radix

  type int64 = x: int | -0x8000_0000_0000_0000 <= x < 0x8000_0000_0000_0000
  type int32 = x: int | -0x8000_0000 <= x < 0x8000_0000

  const UPPER_BOUND: int64 := 1000000000000000000 - 1
  /** 10^18, the least magnitude that is too large. */
  const LIMIT: nat := 1000000000000000000

  // ---- JSON numbers ----

  datatype Exponent = Exponent(mark: char, sign: string, digits: string)

  datatype Number = Number(neg: bool, whole: string, frac: string, exp: Option<Exponent>)

  predicate AllDigits(s: string) {
    forall i :: 0 <= i < |s| ==> IsDigit(s[i])
  }

  /** No leading zero but in the number zero. */
  predicate WholeOk(w: string) {
    w == "0" || (w != [] && w[0] != '0' && AllDigits(w))
  }

  predicate ExponentOk(e: Exponent) {
    (e.mark == 'e' || e.mark == 'E') && e.sign in ["", "+", "-"] && e.digits != [] && AllDigits(e.digits)
  }

  predicate Valid(n: Number) {
    WholeOk(n.whole) && AllDigits(n.frac) && (n.exp.Some? ==> ExponentOk(n.exp.value))
  }

  function SignText(neg: bool): string {
    if neg then "-" else ""
  }

  /** A fraction has at least one digit; no fraction is written as none. */
  function FracText(frac: string): string {
    if frac == [] then [] else "." + frac
  }

  function ExpText(e: Option<Exponent>): string {
    match e
    case None => []
    case Some(x) => [x.mark] + (x.sign + x.digits)
  }

  function Text(n: Number): string {
    SignText(n.neg) + (n.whole + (FracText(n.frac) + ExpText(n.exp)))
  }

  // ---- Parsing ----

  function ParseWhole(s: string): Option<nat> {
    if s == [] then None
    else if s[0] == '0' then Some(1)
    else if IsDigit(s[0]) then Some(Run(IsDigit, s))
    else None
  }

  /** The digits after a point, and where they end; without a point, none. */
  function ParseFrac(s: string): Option<(string, string)> {
    if s == [] || s[0] != '.' then Some(([], s)) else
      var k := Run(IsDigit, s[1..]);
      if k == 0 then None else Some((s[1..][..k], s[1..][k..]))
  }

  function SignAt(s: string): string {
    if s != [] && (s[0] == '+' || s[0] == '-') then [s[0]] else []
  }

  /** What follows the digits of the mantissa is an exponent, or nothing. */
  function ParseExp(s: string): Option<Option<Exponent>> {
    if s == [] then Some(None)
    else if s[0] != 'e' && s[0] != 'E' then None
    else
      var sign := SignAt(s[1..]);
      var t := s[1..][|sign|..];
      if t != [] && AllDigits(t) then Some(Some(Exponent(s[0], sign, t))) else None
  }

  /** What follows the digits before the point. */
  function ParseRest(s: string): Option<(string, Option<Exponent>)> {
    match ParseFrac(s)
    case None => None
    case Some((frac, t)) =>
      match ParseExp(t)
      case None => None
      case Some(exp) => Some((frac, exp))
  }

  function ParseUnsigned(neg: bool, s: string): Option<Number> {
    match ParseWhole(s)
    case None => None
    case Some(k) =>
      if k > |s| then None else
        match ParseRest(s[k..])
        case None => None
        case Some((frac, exp)) => Some(Number(neg, s[..k], frac, exp))
  }

  function ParseNumber(s: string): Option<Number> {
    if s != [] && s[0] == '-' then ParseUnsigned(true, s[1..]) else ParseUnsigned(false, s)
  }

  lemma RunDigits(w: string, rest: string)
    requires AllDigits(w) && (rest == [] || !IsDigit(rest[0]))
    ensures Run(IsDigit, w + rest) == |w| && (w + rest)[..|w|] == w && (w + rest)[|w|..] == rest
  {
    RunIs(IsDigit, w + rest, |w|);
  }

  lemma DigitsRun(s: string)
    ensures AllDigits(s[..Run(IsDigit, s)])
  {
    RunSpec(IsDigit, s);
  }

  predicate NoDigit(s: string) {
    s == [] || !IsDigit(s[0])
  }

  lemma WholeParses(w: string, rest: string)
    requires WholeOk(w) && NoDigit(rest)
    ensures ParseWhole(w + rest) == Some(|w|) && (w + rest)[..|w|] == w && (w + rest)[|w|..] == rest
  {
    if w != "0" {
      RunDigits(w, rest);
    }
  }

  lemma FracParses(frac: string, rest: string)
    requires AllDigits(frac) && NoDigit(rest) && (rest != [] ==> rest[0] != '.')
    ensures ParseFrac(FracText(frac) + rest) == Some((frac, rest))
  {
    var s := FracText(frac) + rest;
    if frac == [] {
      assert s == rest;
    } else {
      assert s[1..] == frac + rest;
      RunDigits(frac, rest);
    }
  }

  lemma ExpParses(e: Option<Exponent>)
    requires e.Some? ==> ExponentOk(e.value)
    ensures ParseExp(ExpText(e)) == Some(e)
  {
    if e.Some? {
      var x := e.value;
      var s := ExpText(e);
      assert s[1..] == x.sign + x.digits;
      assert SignAt(s[1..]) == x.sign;
      assert s[1..][|x.sign|..] == x.digits;
    }
  }

  lemma ParsesText(n: Number)
    requires Valid(n)
    ensures ParseNumber(Text(n)) == Some(n)
  {
    var s := FracText(n.frac) + ExpText(n.exp);
    var u := n.whole + s;
    assert ParseRest(s) == Some((n.frac, n.exp)) by {
      ExpParses(n.exp);
      FracParses(n.frac, ExpText(n.exp));
    }
    WholeParses(n.whole, s);
    assert Text(n) == SignText(n.neg) + u;
    if n.neg {
      assert Text(n)[1..] == u;
    } else {
      assert Text(n) == u && u[0] != '-';
    }
  }

  lemma WholeSound(s: string)
    requires ParseWhole(s).Some?
    ensures ParseWhole(s).value <= |s| && WholeOk(s[..ParseWhole(s).value])
  {
    if s[0] == '0' {
      assert s[..1] == "0";
    } else {
      DigitsRun(s);
      RunAtLeast(IsDigit, s, 1);
    }
  }

  lemma FracSound(s: string)
    requires ParseFrac(s).Some?
    ensures var (frac, t) := ParseFrac(s).value; AllDigits(frac) && s == FracText(frac) + t
  {
    if s != [] && s[0] == '.' {
      DigitsRun(s[1..]);
      var (frac, t) := ParseFrac(s).value;
      assert s == ['.'] + (frac + t);
    } else {
      assert s == [] + s;
    }
  }

  lemma ExpSound(s: string)
    requires ParseExp(s).Some?
    ensures var e := ParseExp(s).value; (e.Some? ==> ExponentOk(e.value)) && s == ExpText(e)
  {
    if s != [] {
      var x := ParseExp(s).value.value;
      assert s == [s[0]] + s[1..] && s[1..] == x.sign + x.digits;
    }
  }

  lemma RestText(s: string)
    requires ParseRest(s).Some?
    ensures var (frac, exp) := ParseRest(s).value;
      AllDigits(frac) && (exp.Some? ==> ExponentOk(exp.value)) && s == FracText(frac) + ExpText(exp)
  {
    FracSound(s);
    ExpSound(ParseFrac(s).value.1);
  }

  lemma UnsignedText(neg: bool, u: string)
    requires ParseUnsigned(neg, u).Some?
    ensures var n := ParseUnsigned(neg, u).value;
      n.neg == neg && Valid(n) && u == n.whole + (FracText(n.frac) + ExpText(n.exp))
  {
    var k := ParseWhole(u).value;
    WholeSound(u);
    RestText(u[k..]);
    var (frac, exp) := ParseRest(u[k..]).value;
    PartsText(u, k, Number(neg, u[..k], frac, exp));
  }

  lemma PartsText(u: string, k: nat, n: Number)
    requires k <= |u| && WholeOk(u[..k]) && AllDigits(n.frac) && (n.exp.Some? ==> ExponentOk(n.exp.value))
    requires n.whole == u[..k] && u[k..] == FracText(n.frac) + ExpText(n.exp)
    ensures Valid(n) && u == n.whole + (FracText(n.frac) + ExpText(n.exp))
  {
    assert u == u[..k] + u[k..];
  }

  lemma ParsedText(s: string)
    requires ParseNumber(s).Some?
    ensures Valid(ParseNumber(s).value) && Text(ParseNumber(s).value) == s
  {
    if s != [] && s[0] == '-' {
      UnsignedText(true, s[1..]);
      assert s == "-" + s[1..];
    } else {
      UnsignedText(false, s);
      assert s == "" + s;
    }
  }

  /** The parser recognises exactly the JSON numbers, each in one way. */
  lemma ParseIff(s: string, n: Number)
    ensures ParseNumber(s) == Some(n) <==> Valid(n) && Text(n) == s
  {
    if ParseNumber(s) == Some(n) {
      ParsedText(s);
    }
    if Valid(n) && Text(n) == s {
      ParsesText(n);
    }
  }

  // ---- Values ----

  function Digit(c: char): nat {
    if IsDigit(c) then c as int - '0' as int else 0
  }

  /** The number a digit string stands for. */
  function Dec(s: string): nat {
    if s == [] then 0 else Dec(s[..|s| - 1]) * 10 + Digit(s[|s| - 1])
  }

  lemma DecSnoc(s: string, c: char)
    ensures Dec(s + [c]) == Dec(s) * 10 + Digit(c)
  {
    assert (s + [c])[..|s + [c]| - 1] == s;
  }

  /** More digits only shift a number and add less than a unit. */
  lemma {:induction false} DecExtend(a: string, b: string)
    ensures Dec(a) * Pow(10, |b|) <= Dec(a + b) < (Dec(a) + 1) * Pow(10, |b|)
  {
    if b == [] {
      assert a + b == a;
    } else {
      var n := |b| - 1;
      assert a + b == (a + b[..n]) + [b[n]];
      DecSnoc(a + b[..n], b[n]);
      DecExtend(a, b[..n]);
      Times10(Dec(a), Pow(10, n), Dec(a + b[..n]), Digit(b[n]));
      assert Pow(10, |b|) == 10 * Pow(10, n);
    }
  }

  lemma Times10(d: nat, p: nat, v: nat, c: nat)
    requires d * p <= v < (d + 1) * p && c < 10
    ensures d * (10 * p) <= v * 10 + c < (d + 1) * (10 * p)
  {
    assert d * (10 * p) == 10 * (d * p) && (d + 1) * (10 * p) == 10 * ((d + 1) * p);
  }

  function Mantissa(n: Number): nat {
    Dec(n.whole + n.frac)
  }

  function ExpValue(n: Number): int {
    match n.exp
    case None => 0
    case Some(e) => if e.sign == "-" then 0 - Dec(e.digits) else Dec(e.digits)
  }

  /** The power of ten by which the digits, read as an integer, are to be scaled. */
  function Scale(n: Number, decimals: int): int {
    ExpValue(n) - |n.frac| + decimals
  }

  /** a is m times 10^k. */
  ghost predicate Scaled(m: nat, k: int, a: nat) {
    if k >= 0 then a == m * Pow(10, k) else a * Pow(10, -k) == m
  }

  /** The magnitudes accepted: below 10^18, and for zero an exponent in range. */
  ghost predicate Accepted(n: Number, decimals: int, a: nat) {
    if Mantissa(n) != 0 then a < LIMIT && Scaled(Mantissa(n), Scale(n, decimals), a)
    else a == 0 && 0 <= ExpValue(n) + decimals < 18
  }

  function Signed(neg: bool, a: nat): int {
    if neg then 0 - a else a
  }

  // ---- What the guards rule out ----

  /** 18 digits or more before a last digit that is not zero: nothing accepted equals it,
      however many digits follow. */
  lemma TooManyDigits(v: nat, q: nat, m: nat, k: int, a: nat)
    requires v >= LIMIT && v % 10 != 0 && v * Pow(10, q) <= m < (v + 1) * Pow(10, q)
    ensures !(a < LIMIT && Scaled(m, k, a))
  {
    PowPositive(10, q);
    if Scaled(m, k, a) && a < LIMIT {
      if k >= 0 {
        PowPositive(10, k);
        MulLe(m, 1, Pow(10, k));
        MulLe(v, 1, Pow(10, q));
      } else {
        Divides(v, q, m, -k, a);
      }
    }
  }

  lemma Divides(v: nat, q: nat, m: nat, j: nat, a: nat)
    requires v >= LIMIT && v % 10 != 0 && v * Pow(10, q) <= m < (v + 1) * Pow(10, q)
    ensures !(a < LIMIT && a * Pow(10, j) == m)
  {
    if j <= q {
      PowMonotone(10, j, q);
      PowPositive(10, j);
      SmallPower(v, Pow(10, j), Pow(10, q), a);
    } else {
      PowAdd(10, q, j - q);
      var p, r := Pow(10, q), Pow(10, j - q - 1);
      assert Pow(10, j) == p * (10 * r);
      LargePower(v, p, r, m, a);
    }
  }

  lemma SmallPower(v: nat, y: nat, p: nat, a: nat)
    requires 0 < y <= p
    ensures a < v ==> a * y < v * p
  {
    MulLe(v, y, p);
    Mono(a, v, y);
  }

  lemma LargePower(v: nat, p: nat, r: nat, m: nat, a: nat)
    requires v * p <= m < (v + 1) * p
    ensures a * (p * (10 * r)) == m ==> v % 10 == 0
  {
    Regroup(a, p, r);
    Between(v, 10 * (a * r), p, m);
  }

  lemma Mono(x: nat, y: nat, p: nat)
    ensures x < y ==> x * p + p <= y * p
  {
    if x < y {
      MulLe(p, x + 1, y);
      assert (x + 1) * p == x * p + p;
    }
  }

  lemma Regroup(a: nat, p: nat, r: nat)
    ensures a * (p * (10 * r)) == 10 * (a * r) * p
  {
    assert a * (p * (10 * r)) == a * (10 * r) * p by { MulAssoc(a, 10 * r, p); assert p * (10 * r) == 10 * r * p; }
    assert a * (10 * r) == 10 * (a * r);
  }

  /** Between two multiples of p there is no third. */
  lemma Between(v: nat, w: nat, p: nat, m: nat)
    requires v * p <= m < (v + 1) * p
    ensures m == w * p ==> w == v
  {
    assert (v + 1) * p == v * p + p;
    Mono(w, v, p);
    Mono(v, w, p);
  }

  // ---- The mantissa ----

  /** The mantissa, without its trailing zeros, stands for v. */
  ghost predicate Held(v: nat, mantissa: int, tzeros: int) {
    && 0 <= mantissa < LIMIT && tzeros >= 0 && v == mantissa * Pow(10, tzeros)
    && (mantissa == 0 || mantissa % 10 != 0)
  }

  /** A value that no number beginning with its digits can recover from. */
  ghost predicate TooLong(v: nat) {
    v >= LIMIT && v % 10 != 0
  }

  lemma PowSplit(m: nat, i: nat, j: nat)
    requires i <= j
    ensures m * Pow(10, i) <= m * Pow(10, j)
    ensures m * Pow(10, j) == m * Pow(10, i) * Pow(10, j - i)
  {
    PowAdd(10, i, j - i);
    MulAssoc(m, Pow(10, i), Pow(10, j - i));
    PowMonotone(10, i, j);
    MulLe(m, Pow(10, i), Pow(10, j));
  }

  lemma PowNext(m: nat, i: nat)
    ensures m * Pow(10, i + 1) == m * Pow(10, i) * 10
  {
    assert Pow(10, i + 1) == 10 * Pow(10, i);
    assert m * (10 * Pow(10, i)) == m * Pow(10, i) * 10;
  }

  /** The loop of guarded multiplications before a digit that is not zero. */
  method ShiftUp(mantissa: int64, tzeros: int32) returns (ok: bool, mantissa': int64)
    requires 0 <= mantissa < LIMIT && 0 <= tzeros < 0x7fff_ffff
    ensures ok ==> mantissa' == mantissa * Pow(10, tzeros + 1) < LIMIT
    ensures !ok ==> mantissa * Pow(10, tzeros) * 10 >= LIMIT
  {
    mantissa' := mantissa;
    assert mantissa * Pow(10, 0) == mantissa;
    var i := 0;
    while i <= tzeros
      invariant 0 <= i <= tzeros + 1 && mantissa' == mantissa * Pow(10, i) && 0 <= mantissa' < LIMIT
    {
      if mantissa' > UPPER_BOUND / 10 {
        PowSplit(mantissa, i, tzeros);
        return false, mantissa';
      }
      PowNext(mantissa, i);
      mantissa' := mantissa' * 10;
      i := i + 1;
    }
    ok := true;
  }

  method ProcessMantissaDigit(ch: char, mantissa: int64, tzeros: int32, ghost v: nat)
    returns (ok: bool, mantissa': int64, tzeros': int32)
    requires IsDigit(ch) && Held(v, mantissa, tzeros) && tzeros < 0x7fff_ffff
    ensures ok ==> Held(v * 10 + Digit(ch), mantissa', tzeros') && tzeros' <= tzeros + 1
    ensures ok && v * 10 + Digit(ch) == 0 ==> tzeros' == tzeros + 1
    ensures !ok ==> TooLong(v * 10 + Digit(ch))
  {
    mantissa', tzeros' := mantissa, tzeros;
    if ch == '0' {
      HeldZero(v, mantissa, tzeros);
      tzeros' := tzeros' + 1;
    } else {
      ok, mantissa' := ShiftUp(mantissa, tzeros);
      if !ok {
        StuckDigit(v, mantissa, tzeros, Digit(ch));
        return;
      }
      HeldDigit(v, mantissa, tzeros, mantissa', Digit(ch));
      mantissa' := mantissa' + (ch as int - '0' as int);
      tzeros' := 0;
    }
    ok := true;
  }

  lemma HeldZero(v: nat, m: nat, tz: nat)
    requires Held(v, m, tz)
    ensures Held(v * 10 + 0, m, tz + 1)
  {
    PowNext(m, tz);
  }

  lemma HeldDigit(v: nat, m: nat, tz: nat, shifted: nat, d: nat)
    requires Held(v, m, tz) && shifted == m * Pow(10, tz + 1) < LIMIT && 0 < d < 10
    ensures Held(v * 10 + d, shifted + d, 0) && shifted + d < LIMIT
  {
    PowNext(m, tz);
    Room(m, tz);
    assert (shifted + d) * Pow(10, 0) == shifted + d;
  }

  lemma StuckDigit(v: nat, m: nat, tz: nat, d: nat)
    requires Held(v, m, tz) && m * Pow(10, tz) * 10 >= LIMIT && 0 < d < 10
    ensures TooLong(v * 10 + d)
  {
  }

  /** A multiple of ten below 10^18 leaves room for a last digit. */
  lemma Room(m: nat, i: nat)
    ensures (m * Pow(10, i + 1)) % 10 == 0
    ensures m * Pow(10, i + 1) < LIMIT ==> m * Pow(10, i + 1) + 9 < LIMIT
  {
    PowNext(m, i);
  }

  /** One of the digits of the string from ptr on. */
  method ReadDigit(val: string, ghost ptr: nat, i: int32, mantissa: int64, tzeros: int32, ghost before: string)
    returns (ok: bool, mantissa': int64, tzeros': int32)
    requires ptr <= i < |val| < 0x8000_0000 && IsDigit(val[i]) && tzeros <= i
    requires Held(Dec(before + val[ptr..i]), mantissa, tzeros)
    ensures ok ==> Held(Dec(before + val[ptr..i + 1]), mantissa', tzeros') && tzeros' <= tzeros + 1
    ensures Dec(before + val[ptr..i + 1]) == 0 ==> Dec(before + val[ptr..i]) == 0
    ensures ok && Dec(before + val[ptr..i + 1]) == 0 ==> tzeros' == tzeros + 1
    ensures !ok ==> TooLong(Dec(before + val[ptr..i + 1]))
  {
    DigitNext(before, val, ptr, i);
    ok, mantissa', tzeros' := ProcessMantissaDigit(val[i], mantissa, tzeros, Dec(before + val[ptr..i]));
  }

  /** The digits of the string from ptr on, after the digits before. */
  method ReadDigits(val: string, ptr: int32, mantissa: int64, tzeros: int32, ghost before: string)
    returns (ok: bool, ptr': int32, mantissa': int64, tzeros': int32, ghost stuck: string)
    requires 0 <= ptr <= |val| < 0x8000_0000 && Held(Dec(before), mantissa, tzeros) && tzeros <= ptr
    ensures ok ==> ptr <= ptr' && ptr' == ptr + Run(IsDigit, val[ptr..]) && tzeros' <= ptr'
    ensures ok ==> Held(Dec(before + val[ptr..ptr']), mantissa', tzeros')
    ensures ok && Dec(before + val[ptr..ptr']) == 0 ==> tzeros' == tzeros + ptr' - ptr
    ensures !ok ==> stuck <= val[ptr..][..Run(IsDigit, val[ptr..])] && TooLong(Dec(before + stuck))
  {
    ptr', mantissa', tzeros', stuck := ptr, mantissa, tzeros, [];
    assert before + val[ptr..ptr] == before;
    while ptr' < |val| && IsDigit(val[ptr'])
      invariant ptr <= ptr' <= |val| && tzeros' <= ptr'
      invariant forall i :: ptr <= i < ptr' ==> IsDigit(val[i])
      invariant Held(Dec(before + val[ptr..ptr']), mantissa', tzeros')
      invariant Dec(before + val[ptr..ptr']) == 0 ==> tzeros' == tzeros + ptr' - ptr
    {
      ok, mantissa', tzeros' := ReadDigit(val, ptr, ptr', mantissa', tzeros', before);
      ptr' := ptr' + 1;
      if !ok {
        stuck := val[ptr..ptr'];
        StuckPrefix(val, ptr, ptr');
        return;
      }
    }
    RunEnds(val, ptr, ptr');
    ok := true;
  }

  lemma DigitNext(before: string, val: string, ptr: nat, i: nat)
    requires ptr <= i < |val|
    ensures Dec(before + val[ptr..i + 1]) == Dec(before + val[ptr..i]) * 10 + Digit(val[i])
  {
    assert before + val[ptr..i + 1] == before + val[ptr..i] + [val[i]];
    DecSnoc(before + val[ptr..i], val[i]);
  }

  lemma StuckPrefix(val: string, ptr: nat, i: nat)
    requires ptr <= i <= |val| && forall k :: ptr <= k < i ==> IsDigit(val[k])
    ensures val[ptr..i] <= val[ptr..][..Run(IsDigit, val[ptr..])]
  {
    RunAtLeast(IsDigit, val[ptr..], i - ptr);
  }

  lemma RunEnds(val: string, ptr: nat, i: nat)
    requires ptr <= i <= |val| && (forall k :: ptr <= k < i ==> IsDigit(val[k])) && (i < |val| ==> !IsDigit(val[i]))
    ensures i == ptr + Run(IsDigit, val[ptr..])
  {
    RunIs(IsDigit, val[ptr..], i - ptr);
  }

  /** Digits that are too long rule out every number that begins with them. */
  lemma TooLongRejects(n: Number, decimals: int, ds: string, a: nat)
    requires ds <= n.whole + n.frac && TooLong(Dec(ds))
    ensures !Accepted(n, decimals, a)
  {
    var more := (n.whole + n.frac)[|ds|..];
    assert n.whole + n.frac == ds + more;
    DecExtend(ds, more);
    TooManyDigits(Dec(ds), |more|, Mantissa(n), Scale(n, decimals), a);
    PowPositive(10, |more|);
    MulLe(Dec(ds), 1, Pow(10, |more|));
  }

  ghost predicate Hopeless(n: Number) {
    forall decimals, a: nat :: !Accepted(n, decimals, a)
  }

  /** What is known after the mantissa. */
  ghost predicate MantissaRead(u: string, t: string, whole: string, frac: string, mantissa: int, tzeros: int) {
    && ParseWhole(u) == Some(|whole|) && whole <= u && ParseFrac(u[|whole|..]) == Some((frac, t))
    && Held(Dec(whole + frac), mantissa, tzeros)
    && (Dec(whole + frac) == 0 ==> tzeros == |frac|)
  }

  /** No number of this text is accepted. */
  ghost predicate Rejected(u: string) {
    forall neg: bool {:trigger ParseUnsigned(neg, u)} ::
      ParseUnsigned(neg, u).Some? ==> Hopeless(ParseUnsigned(neg, u).value)
  }

  lemma StuckRejects(u: string, whole: string, rest: string, ds: string)
    requires ParseWhole(u) == Some(|whole|) && whole <= u && u[|whole|..] == rest && TooLong(Dec(ds))
    requires ds <= whole || (ParseFrac(rest).Some? && ds <= whole + ParseFrac(rest).value.0)
    ensures Rejected(u)
  {
    forall neg: bool | ParseUnsigned(neg, u).Some? ensures Hopeless(ParseUnsigned(neg, u).value) {
      var n := ParseUnsigned(neg, u).value;
      assert n.whole == whole;
      assert ds <= n.whole + n.frac;
      forall decimals, a: nat ensures !Accepted(n, decimals, a) {
        TooLongRejects(n, decimals, ds, a);
      }
    }
  }

  /** The digits before the point. */
  method ReadWhole(val: string, ptr: int32)
    returns (ok: bool, ptr': int32, mantissa: int64, tzeros: int32, ghost whole: string)
    requires 0 <= ptr <= |val| < 0x8000_0000
    ensures ok ==> ptr < ptr' <= |val| && whole == val[ptr..ptr'] && ParseWhole(val[ptr..]) == Some(|whole|)
    ensures ok ==> Held(Dec(whole), mantissa, tzeros) && tzeros <= ptr' && (Dec(whole) == 0 ==> tzeros == 0)
    ensures !ok ==> Rejected(val[ptr..])
  {
    ptr', mantissa, tzeros, whole := ptr, 0, 0, [];
    ghost var u := val[ptr..];
    if ptr < |val| {
      if val[ptr] == '0' {
        ptr' := ptr + 1;
        whole := "0";
        ZeroWhole(val, ptr);
        return true, ptr', 0, 0, whole;
      } else if '1' <= val[ptr] <= '9' {
        ok, ptr', mantissa, tzeros, whole := ReadNonzero(val, ptr);
        return;
      }
    }
    NoWholeRejects(u);
    ok := false;
  }

  lemma ZeroWhole(val: string, ptr: nat)
    requires ptr < |val| && val[ptr] == '0'
    ensures val[ptr..ptr + 1] == "0" && ParseWhole(val[ptr..]) == Some(1) && Held(Dec("0"), 0, 0) && Dec("0") == 0
  {
    DecSnoc("", '0');
    assert "" + ['0'] == "0";
  }

  lemma NoWholeRejects(u: string)
    requires u == [] || !('0' <= u[0] <= '9')
    ensures Rejected(u)
  {
    assert ParseWhole(u) == None;
  }

  method ReadNonzero(val: string, ptr: int32)
    returns (ok: bool, ptr': int32, mantissa: int64, tzeros: int32, ghost whole: string)
    requires 0 <= ptr < |val| < 0x8000_0000 && '1' <= val[ptr] <= '9'
    ensures ok ==> ptr < ptr' <= |val| && whole == val[ptr..ptr'] && ParseWhole(val[ptr..]) == Some(|whole|)
    ensures ok ==> Held(Dec(whole), mantissa, tzeros) && tzeros <= ptr' && Dec(whole) != 0
    ensures !ok ==> Rejected(val[ptr..])
  {
    ghost var none, stuck := "", "";
    ok, ptr', mantissa, tzeros, stuck := ReadDigits(val, ptr, 0, 0, none);
    whole := [];
    if !ok {
      NonzeroStuck(val[ptr..], none, stuck);
      return;
    }
    NonzeroRead(val, ptr, ptr', none);
    whole := val[ptr..ptr'];
  }

  lemma NonzeroStuck(u: string, none: string, stuck: string)
    requires u != [] && '1' <= u[0] <= '9' && none == []
    requires stuck <= u[..Run(IsDigit, u)] && TooLong(Dec(none + stuck))
    ensures Rejected(u)
  {
    var whole := u[..Run(IsDigit, u)];
    NonzeroWhole(u);
    assert none + stuck == stuck;
    StuckRejects(u, whole, u[|whole|..], stuck);
  }

  lemma NonzeroRead(val: string, ptr: nat, end: nat, none: string)
    requires ptr < |val| && '1' <= val[ptr] <= '9' && end == ptr + Run(IsDigit, val[ptr..]) && none == []
    ensures ptr < end <= |val| && none + val[ptr..end] == val[ptr..end]
    ensures ParseWhole(val[ptr..]) == Some(end - ptr) && Dec(val[ptr..end]) != 0
  {
    NonzeroWhole(val[ptr..]);
    assert val[ptr..][..end - ptr] == val[ptr..end];
  }

  lemma NonzeroWhole(u: string)
    requires u != [] && '1' <= u[0] <= '9'
    ensures ParseWhole(u) == Some(Run(IsDigit, u)) && Run(IsDigit, u) > 0 && Dec(u[..Run(IsDigit, u)]) > 0
  {
    RunAtLeast(IsDigit, u, 1);
    NotZero(u[..Run(IsDigit, u)]);
  }

  lemma NotZero(ds: string)
    requires ds != [] && '1' <= ds[0] <= '9'
    ensures Dec(ds) > 0
  {
    assert ds == ds[..1] + ds[1..];
    DecSnoc("", ds[0]);
    assert "" + [ds[0]] == ds[..1];
    DecExtend(ds[..1], ds[1..]);
    PowPositive(10, |ds| - 1);
    MulLe(Pow(10, |ds| - 1), 1, Dec(ds[..1]));
  }

  /** The point and the digits after it. */
  method ReadFrac(val: string, ptr: int32, mantissa: int64, tzeros: int32, ghost u: string, ghost whole: string)
    returns (ok: bool, ptr': int32, mantissa': int64, tzeros': int32, point_ofs: int32, ghost frac: string)
    requires 0 <= ptr <= |val| < 0x8000_0000 && u == whole + val[ptr..] && ParseWhole(u) == Some(|whole|)
    requires Held(Dec(whole), mantissa, tzeros) && tzeros <= ptr && (Dec(whole) == 0 ==> tzeros == 0)
    ensures ok ==> ptr <= ptr' <= |val| && MantissaRead(u, val[ptr'..], whole, frac, mantissa', tzeros')
    ensures ok ==> point_ofs == |frac| <= ptr' && tzeros' <= ptr'
    ensures !ok ==> Rejected(u)
  {
    ptr', mantissa', tzeros', point_ofs, frac := ptr, mantissa, tzeros, 0, [];
    assert u[|whole|..] == val[ptr..];
    if ptr < |val| && val[ptr] == '.' {
      ok, ptr', mantissa', tzeros', point_ofs, frac := ReadPoint(val, ptr, mantissa, tzeros, u, whole);
    } else {
      assert whole + [] == whole;
      ok := true;
    }
  }

  method ReadPoint(val: string, ptr: int32, mantissa: int64, tzeros: int32, ghost u: string, ghost whole: string)
    returns (ok: bool, ptr': int32, mantissa': int64, tzeros': int32, point_ofs: int32, ghost frac: string)
    requires 0 <= ptr < |val| < 0x8000_0000 && val[ptr] == '.'
    requires ParseWhole(u) == Some(|whole|) && whole <= u && u[|whole|..] == val[ptr..]
    requires Held(Dec(whole), mantissa, tzeros) && tzeros <= ptr && (Dec(whole) == 0 ==> tzeros == 0)
    ensures ok ==> ptr <= ptr' <= |val| && MantissaRead(u, val[ptr'..], whole, frac, mantissa', tzeros')
    ensures ok ==> point_ofs == |frac| <= ptr' && tzeros' <= ptr'
    ensures !ok ==> Rejected(u)
  {
    ptr', mantissa', tzeros', point_ofs, frac := ptr + 1, mantissa, tzeros, 0, [];
    if !(ptr' < |val| && IsDigit(val[ptr'])) {
      assert NoDigit(val[ptr..][1..]);
      NoFracRejects(u, whole, val[ptr..]);
      return false, ptr', mantissa', tzeros', 0, [];
    }
    ghost var stuck;
    ok, ptr', mantissa', tzeros', stuck := ReadDigits(val, ptr + 1, mantissa, tzeros, whole);
    if !ok {
      assert val[ptr..][1..] == val[ptr + 1..];
      PointStuck(u, whole, val[ptr..], stuck);
      return;
    }
    PointRead(val, ptr, ptr');
    frac := val[ptr + 1..ptr'];
    point_ofs := ptr' - ptr - 1;
    FracExtends(whole, frac);
  }

  lemma NoFracRejects(u: string, whole: string, rest: string)
    requires ParseWhole(u) == Some(|whole|) && whole <= u && u[|whole|..] == rest
    requires rest != [] && rest[0] == '.' && NoDigit(rest[1..])
    ensures Rejected(u)
  {
    assert ParseFrac(rest) == None;
  }

  lemma PointStuck(u: string, whole: string, rest: string, stuck: string)
    requires ParseWhole(u) == Some(|whole|) && whole <= u && u[|whole|..] == rest
    requires |rest| > 1 && rest[0] == '.' && IsDigit(rest[1])
    requires stuck <= rest[1..][..Run(IsDigit, rest[1..])] && TooLong(Dec(whole + stuck))
    ensures Rejected(u)
  {
    RunAtLeast(IsDigit, rest[1..], 1);
    StuckRejects(u, whole, rest, whole + stuck);
  }

  lemma PointRead(val: string, ptr: nat, end: nat)
    requires ptr + 1 < |val| && val[ptr] == '.' && IsDigit(val[ptr + 1])
    requires end == ptr + 1 + Run(IsDigit, val[ptr + 1..])
    ensures ptr + 1 < end <= |val| && ParseFrac(val[ptr..]) == Some((val[ptr + 1..end], val[end..]))
  {
    var t := val[ptr + 1..];
    assert val[ptr..][1..] == t;
    RunAtLeast(IsDigit, t, 1);
    assert t[..end - ptr - 1] == val[ptr + 1..end] && t[end - ptr - 1..] == val[end..];
  }

  lemma FracExtends(whole: string, frac: string)
    ensures Dec(whole + frac) == 0 ==> Dec(whole) == 0
  {
    DecExtend(whole, frac);
    PowPositive(10, |frac|);
    MulLe(Dec(whole), 1, Pow(10, |frac|));
  }

  // ---- The exponent ----

  /** What the text after the mantissa is worth, or that it cannot be accepted. */
  ghost predicate ExponentRead(t: string, exponent: int) {
    && ParseExp(t).Some? && 0 - LIMIT < exponent < LIMIT
    && exponent == ExpOf(ParseExp(t).value)
  }

  function ExpOf(e: Option<Exponent>): int {
    match e
    case None => 0
    case Some(x) => if x.sign == "-" then 0 - Dec(x.digits) else Dec(x.digits)
  }

  ghost predicate HugeExponent(t: string) {
    ParseExp(t).Some? ==> ParseExp(t).value.Some? && Dec(ParseExp(t).value.value.digits) >= LIMIT
  }

  /** The digits of the exponent, up to the end of the string. */
  method ReadExpDigits(val: string, ptr: int32) returns (ok: bool, exponent: int64)
    requires 0 <= ptr <= |val| < 0x8000_0000
    ensures var t := val[ptr..];
      if ok then t != [] && AllDigits(t) && exponent == Dec(t) < LIMIT
      else t != [] && AllDigits(t) ==> Dec(t) >= LIMIT
  {
    exponent := 0;
    var i := ptr;
    assert val[ptr..ptr] == [];
    if !(i < |val| && IsDigit(val[i])) {
      return false, 0;
    }
    while i < |val| && IsDigit(val[i])
      invariant ptr <= i <= |val| && (forall k :: ptr <= k < i ==> IsDigit(val[k]))
      invariant 0 <= exponent == Dec(val[ptr..i]) < LIMIT
    {
      ExpNext(val, ptr, i);
      if exponent > UPPER_BOUND / 10 {
        DecExtend(val[ptr..i + 1], val[i + 1..]);
        PowPositive(10, |val| - i - 1);
        MulLe(Dec(val[ptr..i + 1]), 1, Pow(10, |val| - i - 1));
        assert val[ptr..] == val[ptr..i + 1] + val[i + 1..];
        return false, 0;
      }
      exponent := exponent * 10 + (val[i] as int - '0' as int);
      i := i + 1;
    }
    if i != |val| {
      assert val[ptr..][i - ptr] == val[i];
      return false, 0;
    }
    assert val[ptr..i] == val[ptr..];
    ok := true;
  }

  lemma ExpNext(val: string, ptr: nat, i: nat)
    requires ptr <= i < |val|
    ensures Dec(val[ptr..i + 1]) == Dec(val[ptr..i]) * 10 + Digit(val[i])
  {
    assert val[ptr..i + 1] == val[ptr..i] + [val[i]];
    DecSnoc(val[ptr..i], val[i]);
  }

  /** Where the digits of an exponent begin. */
  lemma ExpStarts(val: string, ptr: nat, i: nat)
    requires ptr < |val| && i == ptr + 1 + |SignAt(val[ptr + 1..])|
    ensures i <= |val| && val[ptr..][1..] == val[ptr + 1..]
    ensures val[ptr..][1..][|SignAt(val[ptr..][1..])|..] == val[i..]
  {
    assert val[ptr..][1..] == val[ptr + 1..];
  }

  lemma ExpParts(t: string, digits: string)
    requires t != [] && (t[0] == 'e' || t[0] == 'E') && digits == t[1..][|SignAt(t[1..])|..]
    ensures ParseExp(t) == if digits != [] && AllDigits(digits)
                           then Some(Some(Exponent(t[0], SignAt(t[1..]), digits))) else None
  {
  }

  /** The sign of an exponent and where it ends. */
  method ReadExpSign(val: string, ptr: int32) returns (negative: bool, i: int32)
    requires 0 <= ptr <= |val| < 0x8000_0000
    ensures i == ptr + |SignAt(val[ptr..])| <= |val| && negative == (SignAt(val[ptr..]) == "-")
  {
    i, negative := ptr, false;
    if i < |val| && val[i] == '+' {
      i := i + 1;
    } else if i < |val| && val[i] == '-' {
      negative := true;
      i := i + 1;
    }
  }

  method ReadExponent(val: string, ptr: int32) returns (ok: bool, exponent: int64)
    requires 0 <= ptr <= |val| < 0x8000_0000
    ensures ok ==> ExponentRead(val[ptr..], exponent)
    ensures !ok ==> HugeExponent(val[ptr..])
  {
    if ptr < |val| && (val[ptr] == 'e' || val[ptr] == 'E') {
      var negative, i := ReadExpSign(val, ptr + 1);
      ExpStarts(val, ptr, i);
      ExpParts(val[ptr..], val[i..]);
      ok, exponent := ReadExpDigits(val, i);
      if !ok {
        return;
      }
      if negative {
        exponent := 0 - exponent;
      }
    } else {
      ok, exponent := ptr == |val|, 0;
    }
  }

  // ---- The result ----

  /** The scaled value of mantissa * 10^tz is mantissa * 10^(k + tz), an integer exactly when
      that exponent is not negative. */
  lemma ScaledIs(m: nat, tz: nat, k: int, a: nat)
    requires m % 10 != 0
    ensures k + tz < 0 ==> !Scaled(m * Pow(10, tz), k, a)
    ensures k + tz >= 0 ==> (Scaled(m * Pow(10, tz), k, a) <==> a == m * Pow(10, k + tz))
  {
    if k >= 0 {
      PowAdd(10, tz, k);
      MulAssoc(m, Pow(10, tz), Pow(10, k));
    } else if k + tz >= 0 {
      ScaledDown(m, tz, -k, a);
    } else {
      ScaledAway(m, tz, -(k + tz), a);
    }
  }

  lemma ScaledDown(m: nat, tz: nat, j: nat, a: nat)
    requires j <= tz
    ensures a * Pow(10, j) == m * Pow(10, tz) <==> a == m * Pow(10, tz - j)
  {
    PowAdd(10, tz - j, j);
    MulAssoc(m, Pow(10, tz - j), Pow(10, j));
    PowPositive(10, j);
    Cancels(a, m * Pow(10, tz - j), Pow(10, j));
  }

  lemma ScaledAway(m: nat, tz: nat, j: nat, a: nat)
    requires j > 0
    ensures a * Pow(10, j + tz) == m * Pow(10, tz) ==> m % 10 == 0
  {
    var r := Pow(10, j - 1);
    var p := Pow(10, tz);
    assert Pow(10, j + tz) == p * (10 * r) by { PowAdd(10, tz, j); }
    Regroup(a, p, r);
    PowPositive(10, tz);
    Cancels(10 * (a * r), m, p);
  }

  lemma Cancels(x: nat, y: nat, p: nat)
    requires p > 0
    ensures x * p == y * p <==> x == y
  {
    Mono(x, y, p);
    Mono(y, x, p);
  }

  lemma PowLimit()
    ensures Pow(10, 18) == LIMIT
  {
    assert Pow(10, 3) == 1000;
    PowAdd(10, 3, 3);
    PowAdd(10, 6, 3);
    PowAdd(10, 9, 9);
  }

  lemma Pow18(m: nat, x: nat)
    requires m > 0 && x >= 18
    ensures m * Pow(10, x) >= LIMIT
  {
    var p := Pow(10, x);
    assert p >= LIMIT by { PowLimit(); PowMonotone(10, 18, x); }
    MulLe(p, 1, m);
  }

  /** One more multiplication is still below the result. */
  lemma ScaleStep(start: nat, i: nat, x: nat, size: nat, goal: nat)
    requires i < x && size == start * Pow(10, i) && goal == start * Pow(10, x)
    ensures size * 10 == start * Pow(10, i + 1) && size * 10 <= goal
  {
    PowNext(start, i);
    PowSplit(start, i + 1, x);
  }

  /** The guard stops exactly those whose next multiple is too large. */
  lemma GuardStep(neg: bool, size: nat)
    ensures (Signed(neg, size) > UPPER_BOUND / 10 || Signed(neg, size) < 0 - UPPER_BOUND / 10) <==> size * 10 >= LIMIT
    ensures Signed(neg, size) * 10 == Signed(neg, size * 10)
  {
  }

  /** The loop of guarded multiplications at the end. */
  method ScaleUp(neg: bool, start: nat, exponent: int64, ghost goal: nat) returns (r: Option<int64>)
    requires start < LIMIT && 0 <= exponent < 18 && goal == start * Pow(10, exponent)
    ensures r == if goal < LIMIT then Some(Signed(neg, goal)) else None
  {
    var mantissa: int64 := Signed(neg, start);
    ghost var size: nat := start;
    assert start * Pow(10, 0) == start;
    var i := 0;
    while i < exponent
      invariant 0 <= i <= exponent && mantissa == Signed(neg, size) && size < LIMIT
      invariant size == start * Pow(10, i)
    {
      ScaleStep(start, i, exponent, size, goal);
      GuardStep(neg, size);
      if mantissa > UPPER_BOUND / 10 || mantissa < 0 - UPPER_BOUND / 10 {
        return None;
      }
      mantissa, size := mantissa * 10, size * 10;
      i := i + 1;
    }
    if mantissa > UPPER_BOUND || mantissa < 0 - UPPER_BOUND {
      return None;
    }
    r := Some(mantissa);
  }

  /** The answer owed for a number. */
  ghost predicate Answer(n: Number, decimals: int, r: Option<int>) {
    match r
    case None => forall a: nat :: !Accepted(n, decimals, a)
    case Some(v) => exists a: nat :: Accepted(n, decimals, a) && v == Signed(n.neg, a)
  }

  lemma AnswerIs(n: Number, decimals: int, m: nat, tz: nat, x: int, a: nat)
    requires Held(Mantissa(n), m, tz) && (Mantissa(n) == 0 ==> tz == |n.frac|)
    requires x == Scale(n, decimals) + tz && (x >= 0 ==> a == m * Pow(10, x))
    ensures x < 0 || x >= 18 || a >= LIMIT ==> Answer(n, decimals, None)
    ensures 0 <= x < 18 && a < LIMIT ==> Accepted(n, decimals, a)
  {
    PowPositive(10, tz);
    if m == 0 {
      assert x >= 0 ==> 0 * Pow(10, x) == 0;
    } else {
      assert Mantissa(n) != 0 by { MulLe(Pow(10, tz), 1, m); }
      forall b: nat ensures Accepted(n, decimals, b) <==> (x >= 0 && b == m * Pow(10, x) && b < LIMIT) {
        ScaledIs(m, tz, Scale(n, decimals), b);
      }
      if x >= 18 {
        Pow18(m, x);
      }
    }
  }

  /** From the parts to the result. */
  method Finalize(neg: bool, mantissa: int64, tzeros: int32, pointOfs: int32, exponent: int64, decimals: int32,
          ghost n: Number)
    returns (r: Option<int64>)
    requires Held(Mantissa(n), mantissa, tzeros) && (Mantissa(n) == 0 ==> tzeros == |n.frac|)
    requires pointOfs == |n.frac| && exponent == ExpValue(n) && 0 - LIMIT < exponent < LIMIT && n.neg == neg
    ensures Answer(n, decimals, r)
  {
    var scaled: int64 := exponent - pointOfs + tzeros;
    scaled := scaled + decimals;
    ScaleIs(n, decimals, tzeros, scaled);
    if scaled < 0 {
      OutOfScale(n, decimals, mantissa, tzeros, scaled);
      return None;
    }
    if scaled >= 18 {
      OutOfScale(n, decimals, mantissa, tzeros, scaled);
      return None;
    }
    r := ScaleUp(neg, mantissa, scaled, mantissa * Pow(10, scaled));
    InScale(n, decimals, mantissa, tzeros, scaled, mantissa * Pow(10, scaled), r);
  }

  lemma ScaleIs(n: Number, decimals: int, tz: nat, scaled: int)
    requires scaled == ExpValue(n) - |n.frac| + tz + decimals
    ensures scaled == Scale(n, decimals) + tz
  {
  }

  lemma OutOfScale(n: Number, decimals: int, m: nat, tz: nat, x: int)
    requires Held(Mantissa(n), m, tz) && (Mantissa(n) == 0 ==> tz == |n.frac|)
    requires x == Scale(n, decimals) + tz && !(0 <= x < 18)
    ensures Answer(n, decimals, None)
  {
    AnswerIs(n, decimals, m, tz, x, if x >= 0 then m * Pow(10, x) else 0);
  }

  lemma InScale(n: Number, decimals: int, m: nat, tz: nat, x: nat, a: nat, r: Option<int>)
    requires Held(Mantissa(n), m, tz) && (Mantissa(n) == 0 ==> tz == |n.frac|)
    requires x == Scale(n, decimals) + tz < 18 && a == m * Pow(10, x)
    requires r == if a < LIMIT then Some(Signed(n.neg, a)) else None
    ensures Answer(n, decimals, r)
  {
    AnswerIs(n, decimals, m, tz, x, a);
    if a < LIMIT {
      AnswerOf(n, decimals, a);
    }
  }

  lemma AnswerOf(n: Number, decimals: int, a: nat)
    requires Accepted(n, decimals, a)
    ensures Answer(n, decimals, Some(Signed(n.neg, a)))
  {
  }

  /** The answer owed for a text after the sign. */
  ghost predicate Owed(neg: bool, u: string, decimals: int, r: Option<int>) {
    match ParseUnsigned(neg, u)
    case None => r == None
    case Some(n) => Answer(n, decimals, r)
  }

  lemma RejectedOwed(neg: bool, u: string, decimals: int)
    requires Rejected(u)
    ensures Owed(neg, u, decimals, None)
  {
    var p := ParseUnsigned(neg, u);
    if p.Some? {
      assert Hopeless(p.value);
      assert Answer(p.value, decimals, None);
    }
  }

  /** The length of a string converted to int. */
  function ToInt32(n: nat): int32 {
    var m := n % 0x1_0000_0000;
    if m < 0x8000_0000 then m else m - 0x1_0000_0000
  }

  /** The characters the parser looks at: those before the converted length. */
  function Seen(val: string): (s: string)
    ensures s <= val && |s| < 0x8000_0000
  {
    if ToInt32(|val|) > 0 then val[..ToInt32(|val|)] else []
  }

  /** All of them if they are fewer than 2^31, and else never all of them. */
  lemma SeenAll(val: string)
    ensures Seen(val) == val <==> |val| < 0x8000_0000
  {
  }

  /** A text before 2^32 characters of any kind is parsed as if they were not there. */
  lemma SeenBefore(text: string, garbage: string)
    requires |text| < 0x8000_0000 && |garbage| == 0x1_0000_0000
    ensures Seen(text + garbage) == text
  {
    assert ToInt32(|text + garbage|) == |text|;
    assert (text + garbage)[..|text|] == text;
  }

  method ParseFixedPoint(val: string, decimals: int32) returns (r: Option<int64>)
    ensures match ParseNumber(Seen(val))
      case None => r == None
      case Some(n) => Answer(n, decimals, r)
  {
    var end := ToInt32(|val|);
    if end <= 0 {
      return None;
    }
    r := ParseSeen(val[..end], decimals);
  }

  method ParseSeen(val: string, decimals: int32) returns (r: Option<int64>)
    requires |val| < 0x8000_0000
    ensures match ParseNumber(val)
      case None => r == None
      case Some(n) => Answer(n, decimals, r)
  {
    var ptr: int32 := 0;
    var neg := false;
    if ptr < |val| && val[ptr] == '-' {
      neg := true;
      ptr := ptr + 1;
    }
    assert !neg ==> val[0..] == val;
    r := ParseFrom(val, ptr, neg, decimals);
  }

  /** After the sign. */
  method ParseFrom(val: string, ptr: int32, neg: bool, decimals: int32) returns (r: Option<int64>)
    requires 0 <= ptr <= |val| < 0x8000_0000
    ensures Owed(neg, val[ptr..], decimals, r)
  {
    ghost var u := val[ptr..];
    var ok, next, mantissa, tzeros;
    ghost var whole;
    ok, next, mantissa, tzeros, whole := ReadWhole(val, ptr);
    if !ok {
      RejectedOwed(neg, u, decimals);
      return None;
    }
    SplitAt(val, ptr, next);
    r := ParseAfterWhole(val, next, neg, mantissa, tzeros, decimals, u, whole);
  }

  lemma SplitAt(val: string, ptr: nat, next: nat)
    requires ptr <= next <= |val|
    ensures val[ptr..] == val[ptr..next] + val[next..]
  {
  }

  method ParseAfterWhole(val: string, ptr: int32, neg: bool, whole10: int64, zeros: int32, decimals: int32,
          ghost u: string, ghost whole: string)
    returns (r: Option<int64>)
    requires 0 <= ptr <= |val| < 0x8000_0000 && u == whole + val[ptr..] && ParseWhole(u) == Some(|whole|)
    requires Held(Dec(whole), whole10, zeros) && zeros <= ptr && (Dec(whole) == 0 ==> zeros == 0)
    ensures Owed(neg, u, decimals, r)
  {
    var ok, next, mantissa, tzeros, pointOfs;
    ghost var frac;
    ok, next, mantissa, tzeros, pointOfs, frac := ReadFrac(val, ptr, whole10, zeros, u, whole);
    if !ok {
      RejectedOwed(neg, u, decimals);
      return None;
    }
    r := ParseAfterMantissa(val, next, neg, mantissa, tzeros, pointOfs, decimals, u, whole, frac);
  }

  lemma PartsParse(neg: bool, u: string, t: string, whole: string, frac: string)
    requires ParseWhole(u) == Some(|whole|) && whole <= u && ParseFrac(u[|whole|..]) == Some((frac, t))
    ensures ParseUnsigned(neg, u) ==
      if ParseExp(t).Some? then Some(Number(neg, whole, frac, ParseExp(t).value)) else None
  {
    assert u[..|whole|] == whole;
    assert ParseRest(u[|whole|..]) == if ParseExp(t).Some? then Some((frac, ParseExp(t).value)) else None;
  }

  method ParseAfterMantissa(val: string, ptr: int32, neg: bool, mantissa: int64, tzeros: int32, pointOfs: int32,
          decimals: int32,
                            ghost u: string, ghost whole: string, ghost frac: string)
    returns (r: Option<int64>)
    requires 0 <= ptr <= |val| < 0x8000_0000 && MantissaRead(u, val[ptr..], whole, frac, mantissa, tzeros)
    requires pointOfs == |frac|
    ensures Owed(neg, u, decimals, r)
  {
    var ok, exponent := ReadExponent(val, ptr);
    if !ok {
      HugeRejects(neg, u, val[ptr..], whole, frac, mantissa, tzeros, pointOfs, decimals);
      return None;
    }
    ghost var n := Number(neg, whole, frac, ParseExp(val[ptr..]).value);
    PartsParse(neg, u, val[ptr..], whole, frac);
    r := Finalize(neg, mantissa, tzeros, pointOfs, exponent, decimals, n);
  }

  /** An exponent of 10^18 or more cannot be made up for by the other parts. */
  lemma HugeRejects(neg: bool, u: string, t: string, whole: string, frac: string, mantissa: nat, tzeros: nat,
          pointOfs: int, decimals: int32)
    requires MantissaRead(u, t, whole, frac, mantissa, tzeros) && HugeExponent(t)
    requires pointOfs == |frac| < 0x8000_0000 && tzeros < 0x8000_0000
    ensures Owed(neg, u, decimals, None)
  {
    PartsParse(neg, u, t, whole, frac);
    if ParseExp(t).Some? {
      var n := Number(neg, whole, frac, ParseExp(t).value);
      OutOfScale(n, decimals, mantissa, tzeros, Scale(n, decimals) + tzeros);
    }
  }

  /** Exactly the JSON numbers are accepted whose scaled value is an integer of magnitude
      below 10^18, for zero those whose exponent is in range; and the result is that value. */
  lemma ParseExact(val: string, decimals: int, r: Option<int>, v: int)
    requires match ParseNumber(val) { case None => r == None case Some(n) => Answer(n, decimals, r) }
    ensures r == Some(v) <==>
      exists n, a: nat :: Valid(n) && Text(n) == val && Accepted(n, decimals, a) && v == Signed(n.neg, a)
  {
    if r == Some(v) {
      var n := ParseNumber(val).value;
      ParseIff(val, n);
    }
    if n, a: nat :| Valid(n) && Text(n) == val && Accepted(n, decimals, a) && v == Signed(n.neg, a) {
      ParseIff(val, n);
      var b: nat :| Accepted(n, decimals, b) && r.value == Signed(n.neg, b);
      AcceptedOnce(n, decimals, a, b);
    }
  }

  lemma AcceptedOnce(n: Number, decimals: int, a: nat, b: nat)
    requires Accepted(n, decimals, a) && Accepted(n, decimals, b)
    ensures a == b
  {
    var k := Scale(n, decimals);
    if Mantissa(n) != 0 && k < 0 {
      PowPositive(10, -k);
      Cancels(a, b, Pow(10, -k));
    }
  }

  /** The number 0e18. */
  function LargeZero(): Number {
    Number(false, "0", "", Some(Exponent('e', "", "18")))
  }

  lemma LargeZeroWorth()
    ensures Mantissa(LargeZero()) == 0 && ExpValue(LargeZero()) == 18
  {
    DecSnoc("", '0');
    DecSnoc("", '1');
    DecSnoc("1", '8');
    assert "" + ['0'] == "0" && "" + ['1'] == "1" && "1" + ['8'] == "18";
    assert LargeZero().whole + LargeZero().frac == "0";
  }

  lemma LargeZeroParses()
    ensures Valid(LargeZero()) && Text(LargeZero()) == "0e18"
    ensures ParseNumber("0e18") == Some(LargeZero())
  {
    assert AllDigits("18");
    assert Text(LargeZero()) == "0e18";
    ParsesText(LargeZero());
  }

  lemma ZeroOutOfRange(n: Number, decimals: int, r: Option<int>)
    requires Mantissa(n) == 0 && ExpValue(n) + decimals >= 18 && Answer(n, decimals, r)
    ensures r == None
  {
  }

  /** A zero that is refused for its exponent. */
  lemma RefusedZero(r: Option<int>)
    requires match ParseNumber("0e18") { case None => r == None case Some(n) => Answer(n, 0, r) }
    ensures Valid(LargeZero()) && Text(LargeZero()) == "0e18" && Mantissa(LargeZero()) == 0
    ensures r == None
  {
    LargeZeroParses();
    LargeZeroWorth();
    ZeroOutOfRange(LargeZero(), 0, r);
  }
}
