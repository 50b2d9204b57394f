/**
 Base58. Both conversions multiply a big-endian digit buffer by the old radix and add the
 next digit, in place; the buffers of 138/100 and 733/1000 of the input length always
 suffice, so the two assertions on the carry never fail.
 */
module Base58 {
  import opened Wrappers
  import opened CStrings
  import opened Radix

  // ---- The buffer arithmetic ----

  /** One digit of the carry loop. */
  lemma CarryStep(mul: nat, d: nat, carry: nat, base: nat, p: nat, lo: nat, lo0: nat, ch: nat, q: nat, r: nat)
    requires lo + carry * p == mul * lo0 + ch && carry + mul * d == q * base + r
    ensures r * p + lo + q * (base * p) == mul * (d * p + lo0) + ch
  {
    Spread(q, base, r, p);
    Spread(1, carry, mul * d, p);
    Gather(mul, d, p, lo0);
  }

  lemma Spread(q: nat, base: nat, r: nat, p: nat)
    ensures (q * base + r) * p == q * (base * p) + r * p
  {
    MulAssoc(q, base, p);
    assert (q * base + r) * p == q * base * p + r * p;
  }

  lemma Gather(mul: nat, d: nat, p: nat, lo0: nat)
    ensures mul * (d * p + lo0) == mul * d * p + mul * lo0
  {
    MulAssoc(mul, d, p);
  }

  ghost predicate AllZero(ds: seq<nat>) {
    forall i :: 0 <= i < |ds| ==> ds[i] == 0
  }

  lemma ZeroPrefix(base: nat, ds: seq<nat>, k: nat)
    requires k <= |ds| && AllZero(ds[..k])
    ensures Value(base, ds) == Value(base, ds[k..])
  {
    ValueLeadingZeros(base, k, ds[k..]);
    assert ds == seq(k, _ => 0) + ds[k..];
  }

  /** The last i digits are rewritten, the rest is as before, and what does not fit yet is
      in the carry. */
  ghost predicate Carrying(base: nat, mul: nat, ch: nat, a0: seq<nat>, a1: seq<nat>, i: nat, carry: nat)
    requires i <= |a0| == |a1|
  {
    var k := |a0| - i;
    && Digits(base, a1) && a1[..k] == a0[..k]
    && Value(base, a1[k..]) + carry * Pow(base, i) == mul * Value(base, a0[k..]) + ch
  }

  lemma CarryNext(base: nat, mul: nat, ch: nat, a0: seq<nat>, a1: seq<nat>, i: nat, carry: nat, q: nat, r: nat)
    requires i < |a0| == |a1| && Carrying(base, mul, ch, a0, a1, i, carry)
    requires carry + mul * a1[|a0| - i - 1] == q * base + r && r < base
    ensures Carrying(base, mul, ch, a0, a1[|a0| - i - 1 := r], i + 1, q)
  {
    var k := |a0| - i - 1;
    var d := a1[k];
    assert a1[..k + 1][k] == d && a0[..k + 1][k] == d;
    var lo, lo0 := a1[k + 1..], a0[k + 1..];
    var a2 := a1[k := r];
    assert a2[..k] == a0[..k] by { assert a1[..k + 1][..k] == a1[..k] && a0[..k + 1][..k] == a0[..k]; }
    CarryStep(mul, d, carry, base, Pow(base, i), Value(base, lo), Value(base, lo0), ch, q, r);
    assert a2[k..] == [r] + lo;
    assert a0[k..] == [d] + lo0;
    ValueCons(base, r, lo);
    ValueCons(base, d, lo0);
  }

  lemma CarryStart(base: nat, mul: nat, ch: nat, a0: seq<nat>)
    requires Digits(base, a0)
    ensures Carrying(base, mul, ch, a0, a0, 0, ch)
  {
    assert a0[|a0|..] == [] && Pow(base, 0) == 1;
    assert ch * 1 == ch && mul * 0 == 0;
  }

  lemma DivMod(c: nat, base: nat)
    requires 1 < base
    ensures c % base < base && c == c / base * base + c % base
  {
  }

  /** One round of the carry loop: digit i from the right becomes the low digit of
      `carry + mul * digit`. */
  method CarryDigit(a: array<byte>, base: nat, mul: nat, carry: nat, i: nat, ghost ch: nat, ghost a0: seq<nat>)
    returns (next: nat)
    requires 1 < base <= 256 && i < a.Length == |a0| && Carrying(base, mul, ch, a0, a[..], i, carry)
    modifies a
    ensures Carrying(base, mul, ch, a0, a[..], i + 1, next)
  {
    var k: nat := a.Length - 1 - i;
    ghost var a1: seq<nat> := a[..];
    var sum: nat := carry + mul * a[k];
    DivMod(sum, base);
    next := sum / base;
    CarryNext(base, mul, ch, a0, a1, i, carry, next, sum % base);
    a[k] := sum % base;
    assert a[..] == a1[k := sum % base];
  }

  /** The carry loop of both conversions: `a = a * mul + ch` in radix `base`, in place;
      returns the number of digits in use. The assertion is the program's own. */
  method MulAdd(a: array<byte>, base: nat, mul: nat, ch: nat, length: nat) returns (i: nat)
    requires 1 < base <= 256
    requires length <= a.Length && Digits(base, a[..]) && AllZero(a[..a.Length - length])
    requires mul * Value(base, a[..]) + ch < Pow(base, a.Length)
    modifies a
    ensures i <= a.Length && Digits(base, a[..]) && AllZero(a[..a.Length - i])
    ensures Value(base, a[..]) == mul * old(Value(base, a[..])) + ch
  {
    ghost var a0: seq<nat> := a[..];
    var carry: nat := ch;
    i := 0;
    CarryStart(base, mul, ch, a0);
    while (carry != 0 || i < length) && i < a.Length
      invariant i <= a.Length && Carrying(base, mul, ch, a0, a[..], i, carry)
      decreases a.Length - i
    {
      carry := CarryDigit(a, base, mul, carry, i, ch, a0);
      i := i + 1;
    }
    Settle(base, mul, ch, a0, a[..], i, carry, length);
    assert carry == 0;
  }

  /** After the carry loop nothing is carried out and the whole buffer is up to date. */
  lemma Settle(base: nat, mul: nat, ch: nat, a0: seq<nat>, a1: seq<nat>, i: nat, carry: nat, length: nat)
    requires base > 1 && i <= |a0| == |a1| && length <= |a0|
    requires Carrying(base, mul, ch, a0, a1, i, carry) && AllZero(a0[..|a0| - length])
    requires (carry == 0 && i >= length) || i == |a0|
    requires mul * Value(base, a0) + ch < Pow(base, |a0|)
    ensures carry == 0 && AllZero(a1[..|a0| - i]) && Value(base, a1) == mul * Value(base, a0) + ch
  {
    if i == |a0| {
      assert a0[0..] == a0 && a1[0..] == a1;
      NoCarry(Value(base, a1), carry, Pow(base, i));
    } else {
      assert AllZero(a0[..|a0| - i]) by {
        assert forall j :: 0 <= j < |a0| - i ==> a0[j] == a0[..|a0| - length][j];
      }
      SettleEarly(base, mul, ch, a0, a1, i);
    }
  }

  lemma SettleEarly(base: nat, mul: nat, ch: nat, a0: seq<nat>, a1: seq<nat>, i: nat)
    requires i <= |a0| == |a1| && Carrying(base, mul, ch, a0, a1, i, 0) && AllZero(a0[..|a0| - i])
    ensures AllZero(a1[..|a0| - i]) && Value(base, a1) == mul * Value(base, a0) + ch
  {
    ZeroPrefix(base, a0, |a0| - i);
    ZeroPrefix(base, a1, |a0| - i);
    assert 0 * Pow(base, i) == 0;
  }

  lemma NoCarry(v: nat, carry: nat, p: nat)
    requires v + carry * p < p
    ensures carry == 0
  {
    if carry > 0 {
      MulLe(p, 1, carry);
    }
  }

  // ---- Buffer sizes ----

  /** n digits of radix 256 fit in n * 138 / 100 + 1 digits of radix 58. */
  lemma Fits138(n: nat)
    ensures Pow(256, n) <= Pow(58, n * 138 / 100 + 1)
  {
    assert Pow(256, 8) == 0x1_0000_0000_0000_0000 by { PowAdd(256, 4, 4); assert Pow(256, 4) == 0x1_0000_0000; }
    assert Pow(58, 11) > 0x1_0000_0000_0000_0000 by {
      PowAdd(58, 5, 6);
      assert Pow(58, 5) == 656356768 && Pow(58, 6) == 38068692544;
    }
    RadixFits(256, 8, 58, 11, n, n * 138 / 100 + 1);
  }

  /** n digits of radix 58 fit in n * 733 / 1000 + 1 digits of radix 256. */
  lemma Fits733(n: nat)
    ensures Pow(58, n) <= Pow(256, n * 733 / 1000 + 1)
  {
    Pow58();
    RadixFits(58, 71, 256, 52, n, n * 733 / 1000 + 1);
  }

  lemma Pow58()
    ensures Pow(58, 71) <= Pow(256, 52)
  {
    assert Pow(58, 4) == 11316496;
    PowIs(58, 4, 11316496, 4, 11316496);
    PowIs(58, 8, 128063081718016, 8, 128063081718016);
    PowIs(58, 16, 16400152899115243850138976256, 16, 16400152899115243850138976256);
    PowIs(58, 32,
          268965015114358137726910587140455987105619365599731777536,
          32, 268965015114358137726910587140455987105619365599731777536);
    PowIs(58, 64,
          72342179355466901471258927612150153907721848234316445933056526044582001260898145151856420451025374266490194231296,
          4, 11316496);
    assert Pow(58, 3) == 195112;
    PowIs(58, 68,
          818659983307423768631895769287186768096118664656249123135650444757408038940948816018402574608346843785239217057684258816,
          3, 195112);
    assert Pow(256, 4) == 4294967296;
    PowIs(256, 4, 4294967296, 4, 4294967296);
    PowIs(256, 8, 18446744073709551616, 8, 18446744073709551616);
    PowIs(256, 16, 340282366920938463463374607431768211456, 16, 340282366920938463463374607431768211456);
    PowIs(256, 32,
          115792089237316195423570985008687907853269984665640564039457584007913129639936,
          16, 340282366920938463463374607431768211456);
    PowIs(256, 48,
          39402006196394479212279040100143613805079739270465446667948293404245721771497210611414266254884915640806627990306816,
          4, 4294967296);
  }

  lemma PowIs(b: nat, m: nat, x: nat, n: nat, y: nat)
    requires Pow(b, m) == x && Pow(b, n) == y
    ensures Pow(b, m + n) == x * y
  {
    PowAdd(b, m, n);
  }

  // ---- The alphabet ----

  /** 123456789ABCDEFGHJKLMNPQRSTUVWXYZabcdefghijkmnopqrstuvwxyz */
  function Sym(v: nat): char {
    if v < 9 then '1' + v as char
    else if v < 17 then 'A' + (v - 9) as char
    else if v < 22 then 'J' + (v - 17) as char
    else if v < 33 then 'P' + (v - 22) as char
    else if v < 44 then 'a' + (v - 33) as char
    else if v < 58 then 'm' + (v - 44) as char
    else 'z'
  }

  /** mapBase58 */
  function Map58(c: char): (r: int)
    ensures -1 <= r < 58 && (r != -1 ==> Sym(r) == c && !IsSpace(c) && c != '\0')
  {
    if '1' <= c <= '9' then c as int - '1' as int
    else if 'A' <= c <= 'H' then c as int - 'A' as int + 9
    else if 'J' <= c <= 'N' then c as int - 'J' as int + 17
    else if 'P' <= c <= 'Z' then c as int - 'P' as int + 22
    else if 'a' <= c <= 'k' then c as int - 'a' as int + 33
    else if 'm' <= c <= 'z' then c as int - 'm' as int + 44
    else -1
  }

  /** The tables of the program, as functions. */
  datatype Alphabet = Alphabet(sym: nat -> char, val: char -> int, space: char -> bool)

  const BASE58 := Alphabet(Sym, Map58, IsSpace)

  /** All that the conversions need to know about the tables. */
  ghost predicate Lawful(al: Alphabet)
  {
    && (forall c :: -1 <= al.val(c) < 58 && (al.val(c) != -1 ==> al.sym(al.val(c)) == c && !al.space(c)))
    && (forall v :: 0 <= v < 58 ==> al.val(al.sym(v)) == v)
    && al.val('1') == 0
  }

  lemma Base58Lawful()
    ensures Lawful(BASE58)
  {
    forall v: nat | v < 58 ensures Map58(Sym(v)) == v {
      MapSym(v);
    }
  }

  lemma MapSym(v: nat)
    requires v < 58
    ensures Map58(Sym(v)) == v
  {
  }

  function Syms(al: Alphabet, ds: seq<nat>): (s: string)
    ensures |s| == |ds| && forall i :: 0 <= i < |ds| ==> s[i] == al.sym(ds[i])
  {
    if ds == [] then [] else Syms(al, ds[..|ds| - 1]) + [al.sym(ds[|ds| - 1])]
  }

  ghost predicate Coded(al: Alphabet, s: string) {
    forall i :: 0 <= i < |s| ==> al.val(s[i]) != -1
  }

  function Maps(al: Alphabet, s: string): (ds: seq<nat>)
    requires Lawful(al) && Coded(al, s)
    ensures |ds| == |s| && Digits(58, ds) && forall i :: 0 <= i < |s| ==> ds[i] == al.val(s[i])
  {
    if s == [] then [] else Maps(al, s[..|s| - 1]) + [al.val(s[|s| - 1])]
  }

  // ---- Encoding ----

  function Repeat<T>(x: T, n: nat): (s: seq<T>)
    ensures |s| == n && forall i :: 0 <= i < n ==> s[i] == x
  {
    if n == 0 then [] else [x] + Repeat(x, n - 1)
  }

  /** How many leading elements equal x. */
  function Leading<T(==)>(x: T, xs: seq<T>): (n: nat)
    ensures n <= |xs|
  {
    if xs == [] || xs[0] != x then 0 else 1 + Leading(x, xs[1..])
  }

  lemma {:induction false} LeadingStops<T>(x: T, xs: seq<T>)
    ensures var n := Leading(x, xs); n < |xs| ==> xs[n] != x
  {
    if xs != [] && xs[0] == x {
      LeadingStops(x, xs[1..]);
    }
  }

  lemma {:induction false} LeadingAll<T>(x: T, xs: seq<T>)
    ensures xs[..Leading(x, xs)] == Repeat(x, Leading(x, xs))
  {
    if xs != [] && xs[0] == x {
      LeadingAll(x, xs[1..]);
      assert xs[..Leading(x, xs)] == [x] + xs[1..][..Leading(x, xs[1..])];
    }
  }

  lemma TakeDrop<T>(xs: seq<T>, n: nat)
    requires n <= |xs|
    ensures xs == xs[..n] + xs[n..]
  {
  }

  lemma LeadingSplit<T>(x: T, xs: seq<T>)
    ensures var n := Leading(x, xs); xs == Repeat(x, n) + xs[n..] && (n < |xs| ==> xs[n] != x)
  {
    LeadingStops(x, xs);
    LeadingAll(x, xs);
    TakeDrop(xs, Leading(x, xs));
  }

  lemma {:induction false} LeadingOf<T>(x: T, n: nat, ys: seq<T>)
    requires ys == [] || ys[0] != x
    ensures Leading(x, Repeat(x, n) + ys) == n && (Repeat(x, n) + ys)[n..] == ys
  {
    if n == 0 {
      assert Repeat(x, 0) + ys == ys;
    } else {
      LeadingOf(x, n - 1, ys);
      assert (Repeat(x, n) + ys)[1..] == Repeat(x, n - 1) + ys;
    }
  }

  ghost function Encoded(al: Alphabet, b: seq<byte>): string {
    Repeat<char>('1', Leading<byte>(0, b)) + Syms(al, Minimal(58, Value(256, b)))
  }

  method CountLeading<T(==)>(x: T, xs: seq<T>) returns (n: nat)
    ensures n == Leading(x, xs)
  {
    n := 0;
    while n < |xs| && xs[n] == x
      invariant n <= |xs| && n + Leading(x, xs[n..]) == Leading(x, xs)
    {
      assert xs[n..][1..] == xs[n + 1..];
      n := n + 1;
    }
  }

  /** The digits in the last `length` places of the buffer, leading zeros skipped. */
  method Trim(a: array<byte>, ghost base: nat, length: nat) returns (ds: seq<byte>)
    requires base > 1 && length <= a.Length && Digits(base, a[..]) && AllZero(a[..a.Length - length])
    ensures ds == Minimal(base, Value(base, a[..]))
  {
    var it := a.Length - length;
    while it != a.Length && a[it] == 0
      invariant it <= a.Length && AllZero(a[..it])
    {
      it := it + 1;
    }
    ds := a[it..];
    ZeroPrefix(base, a[..], it);
    MinimalUnique(base, ds);
  }

  method ToBase58(rest: seq<byte>) returns (ds: seq<byte>)
    ensures ds == Minimal(58, Value(256, rest))
  {
    var b58 := new byte[|rest| * 138 / 100 + 1](_ => 0);
    var length: nat := 0;
    ZeroPrefix(58, b58[..], b58.Length);
    for p := 0 to |rest|
      invariant Written(rest, p, b58, length)
    {
      length := WriteByte(rest, p, b58, length);
    }
    assert rest[..|rest|] == rest;
    ds := Trim(b58, 58, length);
  }

  /** The buffer holds the number the first p bytes stand for. */
  ghost predicate Written(rest: seq<byte>, p: nat, b58: array<byte>, length: nat)
    reads b58
  {
    && p <= |rest| && b58.Length == |rest| * 138 / 100 + 1
    && length <= b58.Length && Digits(58, b58[..]) && AllZero(b58[..b58.Length - length])
    && Value(58, b58[..]) == Value(256, rest[..p])
  }

  method WriteByte(rest: seq<byte>, p: nat, b58: array<byte>, length: nat) returns (next: nat)
    requires p < |rest| && Written(rest, p, b58, length)
    modifies b58
    ensures Written(rest, p + 1, b58, next)
  {
    ValuePush(256, rest[..p], rest[p], |rest|);
    assert rest[..p + 1] == rest[..p] + [rest[p]];
    Fits138(|rest|);
    next := MulAdd(b58, 58, 256, rest[p], length);
  }

  method EncodeBase58(al: Alphabet, b: seq<byte>) returns (str: string)
    ensures str == Encoded(al, b)
  {
    var zeroes := CountLeading<byte>(0, b);
    var ds := ToBase58(b[zeroes..]);
    LeadingSplit<byte>(0, b);
    assert AllZero(b[..zeroes]) by { assert b[..zeroes] == Repeat<byte>(0, zeroes); }
    ZeroPrefix(256, b, zeroes);
    str := Spell(al, zeroes, ds);
  }

  method Spell(al: Alphabet, zeroes: nat, ds: seq<nat>) returns (str: string)
    ensures str == Repeat<char>('1', zeroes) + Syms(al, ds)
  {
    str := Repeat<char>('1', zeroes);
    for i := 0 to |ds|
      invariant str == Repeat<char>('1', zeroes) + Syms(al, ds[..i])
    {
      str := str + [al.sym(ds[i])];
    }
    assert ds[..|ds|] == ds;
  }

  // ---- Decoding ----

  function NotSpace(al: Alphabet): char -> bool {
    (c: char) => !al.space(c)
  }

  ghost function DecodedBody(al: Alphabet, body: string): seq<byte>
    requires Lawful(al) && Coded(al, body)
  {
    Repeat<byte>(0, Leading<char>('1', body)) + Minimal(256, Value(58, Maps(al, body)))
  }

  /** What a C string decodes to: one word of base58 digits between optional spaces. */
  ghost function Decoded(al: Alphabet, c: string): Option<seq<byte>>
    requires Lawful(al)
  {
    DecodedWord(al, c[Run(al.space, c)..])
  }

  ghost function DecodedWord(al: Alphabet, s: string): Option<seq<byte>>
    requires Lawful(al)
  {
    var k := Run(NotSpace(al), s);
    if Coded(al, s[..k]) && All(al.space, s[k..]) then Some(DecodedBody(al, s[..k])) else None
  }

  /** The digits of the word that starts the string, converted in a buffer sized by the
      whole rest of the string. */
  method FromBase58(al: Alphabet, rest: string) returns (r: Option<seq<byte>>, p: nat)
    requires Lawful(al)
    ensures p <= |rest|
    ensures r.Some? <==> Coded(al, rest[..Run(NotSpace(al), rest)])
    ensures r.Some? ==> p == Run(NotSpace(al), rest) && r.value == Minimal(256, Value(58, Maps(al, rest[..p])))
  {
    var b256 := new byte[|rest| * 733 / 1000 + 1](_ => 0);
    ZeroPrefix(256, b256[..], b256.Length);
    var ok, q, length := ReadDigits(al, rest, b256);
    if !ok {
      return None, q;
    }
    var ds := Trim(b256, 256, length);
    return Some(ds), q;
  }

  method ReadDigits(al: Alphabet, rest: string, b256: array<byte>) returns (ok: bool, p: nat, length: nat)
    requires Lawful(al) && Read(al, rest, 0, b256, 0)
    modifies b256
    ensures p <= |rest|
    ensures ok ==> p == Run(NotSpace(al), rest) && Read(al, rest, p, b256, length)
    ensures !ok ==> !Coded(al, rest[..Run(NotSpace(al), rest)])
  {
    p, length := 0, 0;
    while p < |rest| && !al.space(rest[p])
      invariant p <= |rest| && All(NotSpace(al), rest[..p]) && Read(al, rest, p, b256, length)
    {
      var carry := al.val(rest[p]);
      if carry == -1 {
        NotCoded(al, rest, p);
        return false, p, length;
      }
      AllPush(NotSpace(al), rest, p);
      length := ReadDigit(al, rest, p, b256, carry, length);
      p := p + 1;
    }
    WordEnds(NotSpace(al), rest, p);
    ok := true;
  }

  lemma AllPush(f: char -> bool, s: string, p: nat)
    requires p < |s| && All(f, s[..p]) && f(s[p])
    ensures All(f, s[..p + 1])
  {
  }

  lemma WordEnds(f: char -> bool, s: string, p: nat)
    requires p <= |s| && All(f, s[..p]) && (p < |s| ==> !f(s[p]))
    ensures p == Run(f, s)
  {
    assert forall i :: 0 <= i < p ==> s[i] == s[..p][i];
    RunIs(f, s, p);
  }

  /** The buffer holds the number the first p characters stand for. */
  ghost predicate Read(al: Alphabet, rest: string, p: nat, b256: array<byte>, length: nat)
    requires Lawful(al)
    reads b256
  {
    && p <= |rest| && b256.Length == |rest| * 733 / 1000 + 1
    && length <= b256.Length && AllZero(b256[..b256.Length - length])
    && Coded(al, rest[..p]) && Value(256, b256[..]) == Value(58, Maps(al, rest[..p]))
  }

  method ReadDigit(al: Alphabet, rest: string, p: nat, b256: array<byte>, carry: nat, length: nat) returns (next: nat)
    requires Lawful(al) && p < |rest| && Read(al, rest, p, b256, length) && carry == al.val(rest[p])
    modifies b256
    ensures Read(al, rest, p + 1, b256, next)
  {
    OneMore(al, rest, p, carry, b256.Length);
    next := MulAdd(b256, 256, 58, carry, length);
  }

  /** One more digit of radix 58 fits in a buffer sized for the whole string. */
  lemma OneMore(al: Alphabet, rest: string, p: nat, d: nat, size: nat)
    requires Lawful(al) && p < |rest| && Coded(al, rest[..p]) && d == al.val(rest[p])
    requires size == |rest| * 733 / 1000 + 1
    ensures Coded(al, rest[..p + 1])
    ensures Value(58, Maps(al, rest[..p + 1])) == 58 * Value(58, Maps(al, rest[..p])) + d < Pow(256, size)
  {
    MapsPush(al, rest, p);
    ValuePush(58, Maps(al, rest[..p]), d, |rest|);
    Fits733(|rest|);
  }

  lemma NotCoded(al: Alphabet, rest: string, p: nat)
    requires p < |rest| && All(NotSpace(al), rest[..p]) && !al.space(rest[p]) && al.val(rest[p]) == -1
    ensures !Coded(al, rest[..Run(NotSpace(al), rest)])
  {
    assert forall i :: 0 <= i < p ==> rest[i] == rest[..p][i];
    RunAtLeast(NotSpace(al), rest, p + 1);
    assert rest[..Run(NotSpace(al), rest)][p] == rest[p];
  }

  /** Reading one more digit, within the bound of a buffer for n digits. */
  lemma ValuePush(base: nat, ds: seq<nat>, d: nat, n: nat)
    requires base > 0 && Digits(base, ds) && d < base && |ds| < n
    ensures Value(base, ds + [d]) == base * Value(base, ds) + d && Value(base, ds + [d]) < Pow(base, n)
  {
    var v, p := Value(base, ds), Pow(base, |ds|);
    assert v < p by { ValueBound(base, ds); }
    assert Value(base, ds + [d]) == v * base + d by { ValueSnoc(base, ds, d); }
    assert base * p <= Pow(base, n) by { PowMonotone(base, |ds| + 1, n); }
    PushBound(base, v, d, p);
  }

  lemma PushBound(base: nat, v: nat, d: nat, p: nat)
    requires v < p && d < base
    ensures v * base + d == base * v + d < base * p
  {
    MulLe(base, v + 1, p);
  }

  lemma MapsPush(al: Alphabet, s: string, p: nat)
    requires Lawful(al) && p < |s| && Coded(al, s[..p]) && al.val(s[p]) != -1
    ensures Coded(al, s[..p + 1]) && Maps(al, s[..p + 1]) == Maps(al, s[..p]) + [al.val(s[p])]
  {
    assert s[..p + 1] == s[..p] + [s[p]];
  }

  lemma RunAfterOnes(al: Alphabet, s: string)
    requires Lawful(al)
    ensures var z := Leading<char>('1', s); Run(NotSpace(al), s) == z + Run(NotSpace(al), s[z..])
  {
    var z := Leading<char>('1', s);
    LeadingSplit<char>('1', s);
    RunJoins(NotSpace(al), s[..z], s[z..]);
    assert s == s[..z] + s[z..];
  }

  lemma RunJoins(f: char -> bool, a: string, b: string)
    requires forall i :: 0 <= i < |a| ==> f(a[i])
    ensures Run(f, a + b) == |a| + Run(f, b)
  {
    var k := Run(f, b);
    RunSpec(f, b);
    assert forall i :: |a| <= i < |a| + k ==> (a + b)[i] == b[i - |a|];
    RunIs(f, a + b, |a| + k);
  }

  lemma OnesValue(al: Alphabet, z: nat, body: string)
    requires Lawful(al) && Coded(al, body)
    ensures Coded(al, Repeat<char>('1', z) + body)
    ensures Value(58, Maps(al, Repeat<char>('1', z) + body)) == Value(58, Maps(al, body))
  {
    var ds := Maps(al, Repeat<char>('1', z) + body);
    assert ds[z..] == Maps(al, body);
    ZeroPrefix(58, ds, z);
  }

  /** The leading '1's of the word stand for the leading zero bytes and nothing else. */
  lemma WordAfterOnes(al: Alphabet, z: nat, word: string)
    requires Lawful(al) && (word == [] || word[0] != '1')
    ensures Coded(al, Repeat<char>('1', z) + word) <==> Coded(al, word)
    ensures Coded(al, word) ==>
      DecodedBody(al, Repeat<char>('1', z) + word) == Repeat<byte>(0, z) + Minimal(256, Value(58, Maps(al, word)))
  {
    var body := Repeat<char>('1', z) + word;
    assert forall i :: 0 <= i < |word| ==> word[i] == body[z + i];
    if Coded(al, word) {
      OnesValue(al, z, word);
      LeadingOf<char>('1', z, word);
    }
  }

  ghost function DecodedRest(al: Alphabet, z: nat, rest: string, k: nat): Option<seq<byte>>
    requires Lawful(al) && k <= |rest|
  {
    if Coded(al, rest[..k]) && k + Run(al.space, rest[k..]) == |rest|
    then Some(Repeat<byte>(0, z) + Minimal(256, Value(58, Maps(al, rest[..k])))) else None
  }

  lemma WordSplit(al: Alphabet, s: string)
    requires Lawful(al)
    ensures var z := Leading<char>('1', s);
      var rest := s[z..];
      var k := Run(NotSpace(al), rest);
      && Run(NotSpace(al), s) == z + k && s[..z + k] == Repeat<char>('1', z) + rest[..k]
      && s[z + k..] == rest[k..] && (k > 0 ==> rest[0] != '1')
  {
    var z := Leading<char>('1', s);
    RunAfterOnes(al, s);
    LeadingStops<char>('1', s);
    LeadingAll<char>('1', s);
    SliceSlice(s, z, Run(NotSpace(al), s[z..]));
  }

  lemma SliceSlice(s: string, z: nat, k: nat)
    requires z + k <= |s|
    ensures s[..z + k] == s[..z] + s[z..][..k] && s[z + k..] == s[z..][k..]
  {
  }

  lemma DecodeWord(al: Alphabet, s: string)
    requires Lawful(al)
    ensures var z := Leading<char>('1', s);
      DecodedWord(al, s) == DecodedRest(al, z, s[z..], Run(NotSpace(al), s[z..]))
  {
    var z := Leading<char>('1', s);
    var k := Run(NotSpace(al), s[z..]);
    WordSplit(al, s);
    DecodeParts(al, s, z, s[z..][..k], s[z..][k..]);
  }

  lemma WordIs(al: Alphabet, s: string, body: string, tail: string)
    requires Lawful(al) && Run(NotSpace(al), s) == |body| && s[..|body|] == body && s[|body|..] == tail
    ensures DecodedWord(al, s) == if Coded(al, body) && All(al.space, tail) then Some(DecodedBody(al, body)) else None
  {
  }

  lemma DecodeParts(al: Alphabet, s: string, z: nat, word: string, tail: string)
    requires Lawful(al) && (word == [] || word[0] != '1') && Run(NotSpace(al), s) == z + |word|
    requires s[..z + |word|] == Repeat<char>('1', z) + word && s[z + |word|..] == tail
    ensures DecodedWord(al, s) ==
      if Coded(al, word) && Run(al.space, tail) == |tail|
      then Some(Repeat<byte>(0, z) + Minimal(256, Value(58, Maps(al, word)))) else None
  {
    WordIs(al, s, Repeat<char>('1', z) + word, tail);
    WordAfterOnes(al, z, word);
    AllRun(al.space, tail);
  }

  method DecodeBase58(al: Alphabet, c: string) returns (r: Option<seq<byte>>)
    requires Lawful(al)
    ensures r == Decoded(al, c)
  {
    assert c[0..] == c;
    var start := Skip(al.space, c, 0);
    r := DecodeFrom(al, c[start..]);
  }

  /** After the leading spaces. */
  method DecodeFrom(al: Alphabet, s: string) returns (r: Option<seq<byte>>)
    requires Lawful(al)
    ensures r == DecodedWord(al, s)
  {
    var zeroes := CountLeading<char>('1', s);
    DecodeWord(al, s);
    r := DecodeDigits(al, zeroes, s[zeroes..]);
  }

  /** After the leading '1's: the digits, then only spaces. */
  method DecodeDigits(al: Alphabet, zeroes: nat, rest: string) returns (r: Option<seq<byte>>)
    requires Lawful(al)
    ensures r == DecodedRest(al, zeroes, rest, Run(NotSpace(al), rest))
  {
    var ds, length := FromBase58(al, rest);
    if ds.None? {
      return None;
    }
    var end := Skip(al.space, rest, length);
    if end != |rest| {
      return None;
    }
    r := Some(Repeat<byte>(0, zeroes) + ds.value);
  }

  // ---- Encoding and decoding are exact inverses ----

  lemma CodedSyms(al: Alphabet, ds: seq<nat>)
    requires Lawful(al) && Digits(58, ds)
    ensures Coded(al, Syms(al, ds)) && Maps(al, Syms(al, ds)) == ds
  {
  }

  /** Bytes are their leading zeros and the minimal digits of their number. */
  lemma ZerosAndMinimal(b: seq<byte>)
    ensures b == Repeat<byte>(0, Leading<byte>(0, b)) + Minimal(256, Value(256, b))
  {
    var z := Leading<byte>(0, b);
    LeadingSplit<byte>(0, b);
    assert AllZero(b[..z]) by { assert b[..z] == Repeat<byte>(0, z); }
    ZeroPrefix(256, b, z);
    MinimalUnique(256, b[z..]);
  }

  /** No minimal digit string is spelled with a leading '1'. */
  lemma NoLeadingOne(al: Alphabet, v: nat)
    requires Lawful(al)
    ensures var s := Syms(al, Minimal(58, v)); s != [] ==> s[0] != '1'
  {
    var ds := Minimal(58, v);
    MinimalValue(58, v);
    assert ds != [] ==> al.val(al.sym(ds[0])) == ds[0] != 0;
  }

  lemma DecodeOfEncoded(al: Alphabet, b: seq<byte>)
    requires Lawful(al)
    ensures Coded(al, Encoded(al, b)) && DecodedBody(al, Encoded(al, b)) == b
  {
    var z := Leading<byte>(0, b);
    var v := Value(256, b);
    var word := Syms(al, Minimal(58, v));
    CodedSyms(al, Minimal(58, v));
    OnesValue(al, z, word);
    assert Value(58, Maps(al, word)) == v by { MinimalValue(58, v); }
    NoLeadingOne(al, v);
    LeadingOf<char>('1', z, word);
    ZerosAndMinimal(b);
  }

  /** A word without leading '1' is the minimal spelling of its number. */
  lemma MinimalSpelling(al: Alphabet, word: string)
    requires Lawful(al) && Coded(al, word) && (word != [] ==> word[0] != '1')
    ensures Syms(al, Minimal(58, Value(58, Maps(al, word)))) == word
  {
    MinimalUnique(58, Maps(al, word));
    assert Syms(al, Maps(al, word)) == word;
  }

  lemma EncodeOfDecoded(al: Alphabet, body: string)
    requires Lawful(al) && Coded(al, body)
    ensures Encoded(al, DecodedBody(al, body)) == body
  {
    var z := Leading<char>('1', body);
    var v := Value(58, Maps(al, body));
    assert body == Repeat<char>('1', z) + Syms(al, Minimal(58, v)) by {
      LeadingSplit<char>('1', body);
      OnesValue(al, z, body[z..]);
      MinimalSpelling(al, body[z..]);
    }
    assert Leading<byte>(0, DecodedBody(al, body)) == z && Value(256, DecodedBody(al, body)) == v by {
      BytesOf(z, v);
    }
  }

  lemma BytesOf(z: nat, v: nat)
    ensures var b: seq<byte> := Repeat<byte>(0, z) + Minimal(256, v); Leading<byte>(0, b) == z && Value(256, b) == v
  {
    var b: seq<byte> := Repeat<byte>(0, z) + Minimal(256, v);
    MinimalValue(256, v);
    LeadingOf<byte>(0, z, Minimal(256, v));
    assert b[..z] == Repeat<byte>(0, z);
    ZeroPrefix(256, b, z);
  }

  /** c is e between optional spaces. */
  ghost predicate Spaced(al: Alphabet, c: string, e: string) {
    exists pre, post :: All(al.space, pre) && All(al.space, post) && c == pre + e + post
  }

  /** A string decodes to b exactly when it is the encoding of b between spaces. */
  lemma DecodesIff(al: Alphabet, c: string, b: seq<byte>)
    requires Lawful(al)
    ensures Decoded(al, c) == Some(b) <==> Spaced(al, c, Encoded(al, b))
  {
    if Decoded(al, c) == Some(b) {
      DecodedSpaced(al, c, b);
    }
    if Spaced(al, c, Encoded(al, b)) {
      var pre, post :| All(al.space, pre) && All(al.space, post) && c == pre + Encoded(al, b) + post;
      SpacedDecodes(al, pre, b, post);
    }
  }

  lemma SpacedBy(al: Alphabet, c: string, pre: string, e: string, post: string)
    requires All(al.space, pre) && All(al.space, post) && c == pre + e + post
    ensures Spaced(al, c, e)
  {
  }

  lemma ThreeParts(c: string, n: nat, k: nat)
    requires n + k <= |c|
    ensures c == c[..n] + c[n..][..k] + c[n..][k..]
  {
  }

  lemma DecodedSpaced(al: Alphabet, c: string, b: seq<byte>)
    requires Lawful(al) && Decoded(al, c) == Some(b)
    ensures Spaced(al, c, Encoded(al, b))
  {
    var n := Run(al.space, c);
    var s := c[n..];
    var k := Run(NotSpace(al), s);
    assert Encoded(al, b) == s[..k] by { EncodeOfDecoded(al, s[..k]); }
    assert All(al.space, c[..n]) by { RunSpec(al.space, c); }
    ThreeParts(c, n, k);
    SpacedBy(al, c, c[..n], s[..k], s[k..]);
  }

  lemma WordDecodes(al: Alphabet, e: string, post: string, s: string)
    requires Lawful(al) && Coded(al, e) && All(al.space, post) && s == e + post
    ensures DecodedWord(al, s) == Some(DecodedBody(al, e))
  {
    assert forall i :: 0 <= i < |e| ==> s[i] == e[i];
    assert forall i :: 0 <= i < |post| ==> s[|e| + i] == post[i];
    RunIs(NotSpace(al), s, |e|);
    assert s[..|e|] == e && s[|e|..] == post;
  }

  lemma SpacesDecode(al: Alphabet, c: string)
    requires Lawful(al) && All(al.space, c)
    ensures Decoded(al, c) == DecodedWord(al, "")
  {
    RunIs(al.space, c, |c|);
    assert c[|c|..] == "";
  }

  lemma RunBefore(f: char -> bool, pre: string, e: string, post: string)
    requires All(f, pre) && e != [] && !f(e[0])
    ensures var c := pre + e + post; Run(f, c) == |pre| && c[|pre|..] == e + post
  {
    var c := pre + e + post;
    assert forall i :: 0 <= i < |pre| ==> c[i] == pre[i];
    RunIs(f, c, |pre|);
  }

  lemma SpacedDecodes(al: Alphabet, pre: string, b: seq<byte>, post: string)
    requires Lawful(al) && All(al.space, pre) && All(al.space, post)
    ensures Decoded(al, pre + Encoded(al, b) + post) == Some(b)
  {
    var e := Encoded(al, b);
    var c := pre + e + post;
    DecodeOfEncoded(al, b);
    if e == [] {
      SpacesDecode(al, c);
      WordDecodes(al, e, "", "");
    } else {
      RunBefore(al.space, pre, e, post);
      WordDecodes(al, e, post, e + post);
    }
  }

  lemma NoTerminator(str: string, pre: string, e: string, post: string)
    requires str == pre + e + post && All(IsSpace, pre) && All(IsSpace, post) && Coded(BASE58, e)
    ensures '\0' !in str
  {
  }

  /** A string object that is decoded may go on behind a terminator: it is the encoding of
      the bytes between spaces exactly when it holds none. */
  lemma ObjectDecodesIff(str: string, b: seq<byte>)
    ensures Lawful(BASE58)
    ensures Decoded(BASE58, CStr(str)) == Some(b) ==> (Spaced(BASE58, str, Encoded(BASE58, b)) <==> '\0' !in str)
  {
    Base58Lawful();
    CStrIs(str);
    DecodesIff(BASE58, CStr(str), b);
    if pre, post :| All(IsSpace, pre) && All(IsSpace, post) && str == pre + Encoded(BASE58, b) + post {
      DecodeOfEncoded(BASE58, b);
      NoTerminator(str, pre, Encoded(BASE58, b), post);
    }
  }

  // ---- With a check sum ----

  /** The first four bytes of the double SHA-256, which is not part of this model. */
  type Check = w: seq<byte> | |w| == 4 witness [0, 0, 0, 0]

  ghost function CheckEncoded(al: Alphabet, hash: seq<byte> -> Check, b: seq<byte>): string {
    Encoded(al, b + hash(b))
  }

  ghost function Checked(hash: seq<byte> -> Check, d: Option<seq<byte>>): Option<seq<byte>> {
    match d
    case None => None
    case Some(v) =>
      if |v| >= 4 && hash(v[..|v| - 4]) == v[|v| - 4..] then Some(v[..|v| - 4]) else None
  }

  ghost function CheckDecoded(al: Alphabet, hash: seq<byte> -> Check, c: string): Option<seq<byte>>
    requires Lawful(al)
  {
    Checked(hash, Decoded(al, c))
  }

  method EncodeBase58Check(al: Alphabet, hash: seq<byte> -> Check, b: seq<byte>) returns (str: string)
    ensures str == CheckEncoded(al, hash, b)
  {
    str := EncodeBase58(al, b + hash(b));
  }

  method DecodeBase58Check(al: Alphabet, hash: seq<byte> -> Check, c: string) returns (r: Option<seq<byte>>)
    requires Lawful(al)
    ensures r == CheckDecoded(al, hash, c)
  {
    r := DecodeBase58(al, c);
    if r.None? || |r.value| < 4 {
      return None;
    }
    var n := |r.value| - 4;
    if hash(r.value[..n]) != r.value[n..] {
      return None;
    }
    r := Some(r.value[..n]);
  }

  lemma CheckDecodesIff(al: Alphabet, hash: seq<byte> -> Check, c: string, b: seq<byte>)
    requires Lawful(al)
    ensures CheckDecoded(al, hash, c) == Some(b) <==> Spaced(al, c, CheckEncoded(al, hash, b))
  {
    CheckSplits(hash, Decoded(al, c), b);
    DecodesIff(al, c, b + hash(b));
  }

  lemma CheckSplits(hash: seq<byte> -> Check, d: Option<seq<byte>>, b: seq<byte>)
    ensures Checked(hash, d) == Some(b) <==> d == Some(b + hash(b))
  {
    var v := b + hash(b);
    assert v[..|v| - 4] == b && v[|v| - 4..] == hash(b);
    if Checked(hash, d) == Some(b) {
      var w := d.value;
      assert w == w[..|w| - 4] + w[|w| - 4..];
    }
  }
}
