/**
 Base64 and Base32 written out group by group (RFC 4648, sections 4 and 6): which characters
 every three or five bytes become, and how the last group is padded.
 */
module Base64Texts {
  import opened Wrappers
  import opened Radix
  import opened BitOps
  import opened ConvertBits
  import opened Base64
  import opened CStrings

  const ALPHABET64: string := CAPITALS + SMALL + TEN + "+/"
  const ALPHABET32: string := SMALL + "234567"

  lemma TenAt(v: nat)
    requires v < 10
    ensures |TEN| == 10 && TEN[v] == '0' + v as char
  {
  }

  lemma Alphabet64(v: nat)
    requires v < 64
    ensures |ALPHABET64| == 64 && Enc64(v) == ALPHABET64[v]
  {
    LettersAt(if v < 26 then v else if v < 52 then v - 26 else 0);
    TenAt(if 52 <= v < 62 then v - 52 else 0);
  }

  lemma Alphabet32(v: nat)
    requires v < 32
    ensures |ALPHABET32| == 32 && Enc32(v) == ALPHABET32[v]
  {
    LettersAt(if v < 26 then v else 0);
  }

  // ---- Numbers of groups ----

  lemma Value1(base: nat, a: nat)
    ensures Value(base, [a]) == a
  {
    ValueSnoc(base, [], a);
    assert [] + [a] == [a];
  }

  lemma Value2(base: nat, a: nat, b: nat)
    ensures Value(base, [a, b]) == a * base + b
  {
    Value1(base, a);
    ValueSnoc(base, [a], b);
    assert [a] + [b] == [a, b];
  }

  lemma Value3(base: nat, a: nat, b: nat, c: nat)
    ensures Value(base, [a, b, c]) == (a * base + b) * base + c
  {
    Value2(base, a, b);
    ValueSnoc(base, [a, b], c);
    assert [a, b] + [c] == [a, b, c];
  }

  lemma Value4(base: nat, a: nat, b: nat, c: nat, d: nat)
    ensures Value(base, [a, b, c, d]) == ((a * base + b) * base + c) * base + d
  {
    Value3(base, a, b, c);
    ValueSnoc(base, [a, b, c], d);
    assert [a, b, c] + [d] == [a, b, c, d];
  }

  lemma Value5(base: nat, a: nat, b: nat, c: nat, d: nat, e: nat)
    ensures Value(base, [a, b, c, d, e]) == (((a * base + b) * base + c) * base + d) * base + e
  {
    Value4(base, a, b, c, d);
    ValueSnoc(base, [a, b, c, d], e);
    assert [a, b, c, d] + [e] == [a, b, c, d, e];
  }

  lemma Value6(base: nat, a: nat, b: nat, c: nat, d: nat, e: nat, f: nat)
    ensures Value(base, [a, b, c, d, e, f]) == ((((a * base + b) * base + c) * base + d) * base + e) * base + f
  {
    Value5(base, a, b, c, d, e);
    ValueSnoc(base, [a, b, c, d, e], f);
    assert [a, b, c, d, e] + [f] == [a, b, c, d, e, f];
  }

  lemma Value7(base: nat, a: nat, b: nat, c: nat, d: nat, e: nat, f: nat, g: nat)
    ensures Value(base, [a, b, c, d, e, f, g]) ==
      (((((a * base + b) * base + c) * base + d) * base + e) * base + f) * base + g
  {
    Value6(base, a, b, c, d, e, f);
    ValueSnoc(base, [a, b, c, d, e, f], g);
    assert [a, b, c, d, e, f] + [g] == [a, b, c, d, e, f, g];
  }

  lemma Value8(base: nat, a: nat, b: nat, c: nat, d: nat, e: nat, f: nat, g: nat, h: nat)
    ensures Value(base, [a, b, c, d, e, f, g, h]) ==
      ((((((a * base + b) * base + c) * base + d) * base + e) * base + f) * base + g) * base + h
  {
    Value7(base, a, b, c, d, e, f, g);
    ValueSnoc(base, [a, b, c, d, e, f, g], h);
    assert [a, b, c, d, e, f, g] + [h] == [a, b, c, d, e, f, g, h];
  }

  lemma {:induction false} NumberFlat(w: nat, ds: seq<nat>)
    requires Groups(w, ds)
    ensures Number(Flat(w, ds)) == Value(Pow2(w), ds)
  {
    if ds != [] {
      var n := |ds| - 1;
      NumberFlat(w, ds[..n]);
      NumberFlatSnoc(w, ds[..n], ds[n]);
      assert ds[..n] + [ds[n]] == ds;
    }
  }

  /** Digits of w bits that are worth the bytes, shifted by k zeros, hold the bits of the bytes
      and the zeros. */
  lemma GroupBits(w: nat, b: seq<nat>, vs: seq<nat>, k: nat)
    requires Groups(8, b) && Groups(w, vs) && |vs| * w == |b| * 8 + k
    requires Value(Pow2(w), vs) == Value(Pow2(8), b) * Pow2(k)
    ensures Flat(w, vs) == Flat(8, b) + Zeros(k)
  {
    NumberFlat(w, vs);
    NumberFlat(8, b);
    FlatLength(w, vs);
    FlatLength(8, b);
    NumberAppend(Flat(8, b), Zeros(k));
    NumberZeros(k);
    SameBits(Flat(w, vs), Flat(8, b) + Zeros(k));
  }

  lemma PowersOfTwo()
    ensures Pow2(8) == 256 && Pow2(6) == 64 && Pow2(5) == 32
    ensures Pow2(4) == 16 && Pow2(3) == 8 && Pow2(2) == 4 && Pow2(1) == 2 && Pow2(0) == 1
  {
    Powers();
    assert Pow2(4) == 16;
  }


  /** The characters of values, then '='. */
  function Spell(alphabet: string, vs: seq<nat>, ends: nat): (text: string)
    requires forall i :: 0 <= i < |vs| ==> vs[i] < |alphabet|
    ensures |text| == |vs| + ends
  {
    seq(|vs|, i requires 0 <= i < |vs| => alphabet[vs[i]]) + seq(ends, _ => '=')
  }

  lemma SpellIs(s: Scheme, alphabet: string, vs: seq<nat>, ends: nat)
    requires forall i :: 0 <= i < |vs| ==> vs[i] < |alphabet| && s.enc(vs[i]) == alphabet[vs[i]]
    ensures Chars(s, vs) + Equals(ends) == Spell(alphabet, vs, ends)
  {
  }

  lemma FlatFront(w: nat, front: seq<nat>, rest: seq<nat>, b: seq<nat>, more: seq<nat>, k: nat)
    requires Flat(w, front) == Flat(8, b) + Zeros(0) && Flat(w, rest) == Flat(8, more) + Zeros(k)
    ensures Flat(w, front + rest) == Flat(8, b + more) + Zeros(k)
  {
    FlatAppend(w, front, rest);
    FlatAppend(8, b, more);
    assert Flat(8, b) + Zeros(0) == Flat(8, b);
    assert Flat(8, b) + (Flat(8, more) + Zeros(k)) == Flat(8, b) + Flat(8, more) + Zeros(k);
  }

  lemma GroupsFront(w: nat, front: seq<nat>, rest: seq<nat>)
    requires Groups(w, front) && Groups(w, rest)
    ensures Groups(w, front + rest)
  {
  }

  /** A byte in the parts the groups cut it into. */
  lemma Parts4(b: byte)
    ensures b == 4 * (b / 4) + b % 4 && b / 4 < 64
  {
  }

  lemma Parts16(b: byte)
    ensures b == 16 * (b / 16) + b % 16 && b / 16 < 16
  {
  }

  lemma Parts64(b: byte)
    ensures b == 64 * (b / 64) + b % 64 && b / 64 < 4
  {
  }

  lemma Parts8(b: byte)
    ensures b == 8 * (b / 8) + b % 8 && b / 8 < 32
  {
  }

  lemma Parts64And2(b: byte)
    ensures b == 64 * (b / 64) + 2 * (b / 2 % 32) + b % 2 && b / 64 < 4
  {
  }

  lemma Parts128And4(b: byte)
    ensures b == 128 * (b / 128) + 4 * (b / 4 % 32) + b % 4 && b / 128 < 2
  {
  }

  lemma Parts32(b: byte)
    ensures b == 32 * (b / 32) + b % 32 && b / 32 < 8
  {
  }

  /** The encoding from its values, its padding and the alphabet. */
  lemma TextOf(s: Scheme, alphabet: string, b: seq<byte>, vs: seq<nat>, ends: nat)
    requires Sound(s) && Padded(8, s.bits, b) == vs && PadBits(|vs|, s.group) == ends
    requires forall i :: 0 <= i < |vs| ==> vs[i] < |alphabet| && s.enc(vs[i]) == alphabet[vs[i]]
    ensures Encoded(s, b) == Spell(alphabet, vs, ends)
  {
    SpellIs(s, alphabet, vs, ends);
  }

  // ---- Base64 ----

  lemma Sextet1(b: seq<byte>, vs: seq<nat>, h0: nat, l0: nat)
    requires |b| == 1 && b[0] == 4 * h0 + l0
    requires h0 < 64 && l0 < 4
    requires vs == [h0, l0 * 16]
    ensures Groups(6, vs) && Flat(6, vs) == Flat(8, b) + Zeros(4)
  {
    PowersOfTwo();
    Value1(256, b[0]);
    Value2(64, vs[0], vs[1]);
    assert b == [b[0]];
    GroupBits(6, b, vs, 4);
  }

  lemma Sextet2(b: seq<byte>, vs: seq<nat>, h0: nat, l0: nat, h1: nat, l1: nat)
    requires |b| == 2 && b[0] == 4 * h0 + l0 && b[1] == 16 * h1 + l1
    requires h0 < 64 && l0 < 4 && h1 < 16 && l1 < 16
    requires vs == [h0, l0 * 16 + h1, l1 * 4]
    ensures Groups(6, vs) && Flat(6, vs) == Flat(8, b) + Zeros(2)
  {
    PowersOfTwo();
    Value2(256, b[0], b[1]);
    Value3(64, vs[0], vs[1], vs[2]);
    assert b == [b[0], b[1]];
    GroupBits(6, b, vs, 2);
  }

  lemma Sextet3(b: seq<byte>, vs: seq<nat>, h0: nat, l0: nat, h1: nat, l1: nat, h2: nat, l2: nat)
    requires |b| == 3 && b[0] == 4 * h0 + l0 && b[1] == 16 * h1 + l1 && b[2] == 64 * h2 + l2
    requires h0 < 64 && l0 < 4 && h1 < 16 && l1 < 16 && h2 < 4 && l2 < 64
    requires vs == [h0, l0 * 16 + h1, l1 * 4 + h2, l2]
    ensures Groups(6, vs) && Flat(6, vs) == Flat(8, b) + Zeros(0)
  {
    PowersOfTwo();
    Value3(256, b[0], b[1], b[2]);
    Value4(64, vs[0], vs[1], vs[2], vs[3]);
    assert b == [b[0], b[1], b[2]];
    GroupBits(6, b, vs, 0);
  }

  /** The 6-bit values of up to 3 bytes, the last one filled with zeros. */
  function Sextets3(b: seq<byte>): (vs: seq<nat>)
    requires |b| <= 3
    ensures |vs| == (|b| * 8 + 5) / 6
  {
    if |b| == 0 then []
    else if |b| == 1 then
      [b[0] / 4, b[0] % 4 * 16]
    else if |b| == 2 then
      [b[0] / 4, b[0] % 4 * 16 + b[1] / 16, b[1] % 16 * 4]
    else
      [b[0] / 4, b[0] % 4 * 16 + b[1] / 16, b[1] % 16 * 4 + b[2] / 64, b[2] % 64]
  }

  function Sextets(b: seq<byte>): (vs: seq<nat>)
    ensures |vs| == (|b| * 8 + 5) / 6
  {
    if |b| <= 3 then Sextets3(b) else Sextets3(b[..3]) + Sextets(b[3..])
  }

  /** Zero bits that complete the last value, and '=' that complete the text. */
  function Fill64(n: nat): nat {
    match n % 3
    case 0 => 0
    case 1 => 4
    case _ => 2
  }

  function Ends64(n: nat): nat {
    match n % 3
    case 0 => 0
    case 1 => 2
    case _ => 1
  }

  lemma SextetCase1(b: seq<byte>, vs: seq<nat>)
    requires |b| == 1 && vs == Sextets3(b)
    ensures Groups(6, vs) && Flat(6, vs) == Flat(8, b) + Zeros(4)
  {
    var h0, l0 := b[0] / 4, b[0] % 4;
    Parts4(b[0]);
    Sextet1(b, vs, h0, l0);
  }

  lemma SextetCase2(b: seq<byte>, vs: seq<nat>)
    requires |b| == 2 && vs == Sextets3(b)
    ensures Groups(6, vs) && Flat(6, vs) == Flat(8, b) + Zeros(2)
  {
    var h0, l0 := b[0] / 4, b[0] % 4;
    var h1, l1 := b[1] / 16, b[1] % 16;
    Parts4(b[0]);
    Parts16(b[1]);
    Sextet2(b, vs, h0, l0, h1, l1);
  }

  lemma SextetCase3(b: seq<byte>, vs: seq<nat>)
    requires |b| == 3 && vs == Sextets3(b)
    ensures Groups(6, vs) && Flat(6, vs) == Flat(8, b) + Zeros(0)
  {
    var h0, l0 := b[0] / 4, b[0] % 4;
    var h1, l1 := b[1] / 16, b[1] % 16;
    var h2, l2 := b[2] / 64, b[2] % 64;
    Parts4(b[0]);
    Parts16(b[1]);
    Parts64(b[2]);
    Sextet3(b, vs, h0, l0, h1, l1, h2, l2);
  }

  lemma SextetGroup(b: seq<byte>)
    requires |b| <= 3
    ensures Groups(6, Sextets3(b)) && Flat(6, Sextets3(b)) == Flat(8, b) + Zeros(Fill64(|b|))
  {
    match |b|
    case 0 => assert Flat(8, b) + Zeros(0) == [];
    case 1 => SextetCase1(b, Sextets3(b));
    case 2 => SextetCase2(b, Sextets3(b));
    case _ => SextetCase3(b, Sextets3(b));
  }

  lemma {:induction false} SextetsFlat(b: seq<byte>)
    ensures Groups(6, Sextets(b)) && Flat(6, Sextets(b)) == Flat(8, b) + Zeros(Fill64(|b|))
  {
    if |b| <= 3 {
      SextetGroup(b);
    } else {
      SextetGroup(b[..3]);
      SextetsFlat(b[3..]);
      GroupsFront(6, Sextets3(b[..3]), Sextets(b[3..]));
      FlatFront(6, Sextets3(b[..3]), Sextets(b[3..]), b[..3], b[3..], Fill64(|b| - 3));
      assert b[..3] + b[3..] == b;
    }
  }

  lemma {:induction false} Padding64(n: nat)
    ensures PadBits((n * 8 + 5) / 6, 4) == Ends64(n) && (n * 8 + 5) / 6 + Ends64(n) == (n + 2) / 3 * 4
  {
    if n >= 3 {
      Padding64(n - 3);
      assert (n * 8 + 5) / 6 == ((n - 3) * 8 + 5) / 6 + 4;
      assert Ends64(n) == Ends64(n - 3);
    }
  }

  lemma Spells64(vs: seq<nat>)
    requires forall i :: 0 <= i < |vs| ==> vs[i] < 64
    ensures forall i :: 0 <= i < |vs| ==> vs[i] < |ALPHABET64| && BASE64.enc(vs[i]) == ALPHABET64[vs[i]]
  {
    forall i | 0 <= i < |vs| ensures vs[i] < |ALPHABET64| && BASE64.enc(vs[i]) == ALPHABET64[vs[i]] {
      Alphabet64(vs[i]);
    }
  }

  lemma SextetsPadded(b: seq<byte>)
    ensures Padded(8, 6, b) == Sextets(b) && forall i :: 0 <= i < |Sextets(b)| ==> Sextets(b)[i] < 64
  {
    PowersOfTwo();
    SextetsFlat(b);
    PaddedIs(8, 6, b, Sextets(b), Fill64(|b|));
  }

  /** The text of values that hold the bits of the bytes. */
  lemma Base64Of(b: seq<byte>, vs: seq<nat>, ends: nat)
    requires Padded(8, 6, b) == vs && forall i :: 0 <= i < |vs| ==> vs[i] < 64
    requires PadBits(|vs|, 4) == ends
    ensures Sound(BASE64) && (forall i :: 0 <= i < |vs| ==> vs[i] < |ALPHABET64|)
    ensures Encoded(BASE64, b) == Spell(ALPHABET64, vs, ends)
  {
    Base64Sound();
    Spells64(vs);
    TextOf(BASE64, ALPHABET64, b, vs, ends);
  }

  /** The Base64 encoding, 3 bytes to 4 characters. */
  lemma Base64Text(b: seq<byte>)
    ensures Sound(BASE64) && (forall i :: 0 <= i < |Sextets(b)| ==> Sextets(b)[i] < |ALPHABET64|)
    ensures Encoded(BASE64, b) == Spell(ALPHABET64, Sextets(b), Ends64(|b|))
    ensures |Encoded(BASE64, b)| == (|b| + 2) / 3 * 4
  {
    SextetsPadded(b);
    Padding64(|b|);
    Base64Of(b, Sextets(b), Ends64(|b|));
  }

  // ---- Base32 ----

  lemma Quintet1(b: seq<byte>, vs: seq<nat>, h0: nat, l0: nat)
    requires |b| == 1 && b[0] == 8 * h0 + l0
    requires h0 < 32 && l0 < 8
    requires vs == [h0, l0 * 4]
    ensures Groups(5, vs) && Flat(5, vs) == Flat(8, b) + Zeros(2)
  {
    PowersOfTwo();
    Value1(256, b[0]);
    Value2(32, vs[0], vs[1]);
    assert b == [b[0]];
    GroupBits(5, b, vs, 2);
  }

  lemma Quintet2(b: seq<byte>, vs: seq<nat>, h0: nat, l0: nat, h1: nat, m1: nat, l1: nat)
    requires |b| == 2 && b[0] == 8 * h0 + l0 && b[1] == 64 * h1 + 2 * m1 + l1
    requires h0 < 32 && l0 < 8 && h1 < 4 && m1 < 32 && l1 < 2
    requires vs == [h0, l0 * 4 + h1, m1, l1 * 16]
    ensures Groups(5, vs) && Flat(5, vs) == Flat(8, b) + Zeros(4)
  {
    PowersOfTwo();
    Value2(256, b[0], b[1]);
    Value4(32, vs[0], vs[1], vs[2], vs[3]);
    assert b == [b[0], b[1]];
    GroupBits(5, b, vs, 4);
  }

  lemma Quintet3(b: seq<byte>, vs: seq<nat>, h0: nat, l0: nat, h1: nat, m1: nat, l1: nat, h2: nat, l2: nat)
    requires |b| == 3 && b[0] == 8 * h0 + l0 && b[1] == 64 * h1 + 2 * m1 + l1 && b[2] == 16 * h2 + l2
    requires h0 < 32 && l0 < 8 && h1 < 4 && m1 < 32 && l1 < 2 && h2 < 16 && l2 < 16
    requires vs == [h0, l0 * 4 + h1, m1, l1 * 16 + h2, l2 * 2]
    ensures Groups(5, vs) && Flat(5, vs) == Flat(8, b) + Zeros(1)
  {
    PowersOfTwo();
    Value3(256, b[0], b[1], b[2]);
    Value5(32, vs[0], vs[1], vs[2], vs[3], vs[4]);
    assert b == [b[0], b[1], b[2]];
    GroupBits(5, b, vs, 1);
  }

  lemma Quintet4(b: seq<byte>, vs: seq<nat>, h0: nat, l0: nat, h1: nat, m1: nat, l1: nat, h2: nat, l2: nat, h3: nat,
          m3: nat, l3: nat)
    requires |b| == 4 && b[0] == 8 * h0 + l0 && b[1] == 64 * h1 + 2 * m1 + l1 && b[2] == 16 * h2 + l2 &&
      b[3] == 128 * h3 + 4 * m3 + l3
    requires h0 < 32 && l0 < 8 && h1 < 4 && m1 < 32 && l1 < 2 && h2 < 16 && l2 < 16 && h3 < 2 && m3 < 32 && l3 < 4
    requires vs == [h0, l0 * 4 + h1, m1, l1 * 16 + h2, l2 * 2 + h3, m3, l3 * 8]
    ensures Groups(5, vs) && Flat(5, vs) == Flat(8, b) + Zeros(3)
  {
    PowersOfTwo();
    Value4(256, b[0], b[1], b[2], b[3]);
    Value7(32, vs[0], vs[1], vs[2], vs[3], vs[4], vs[5], vs[6]);
    assert b == [b[0], b[1], b[2], b[3]];
    GroupBits(5, b, vs, 3);
  }

  lemma Quintet5(b: seq<byte>, vs: seq<nat>, h0: nat, l0: nat, h1: nat, m1: nat, l1: nat, h2: nat, l2: nat, h3: nat,
          m3: nat, l3: nat, h4: nat, l4: nat)
    requires |b| == 5 && b[0] == 8 * h0 + l0 && b[1] == 64 * h1 + 2 * m1 + l1 && b[2] == 16 * h2 + l2 &&
      b[3] == 128 * h3 + 4 * m3 + l3 && b[4] == 32 * h4 + l4
    requires h0 < 32 && l0 < 8 && h1 < 4 && m1 < 32 && l1 < 2 && h2 < 16 && l2 < 16 && h3 < 2 && m3 < 32 && l3 < 4 &&
      h4 < 8 && l4 < 32
    requires vs == [h0, l0 * 4 + h1, m1, l1 * 16 + h2, l2 * 2 + h3, m3, l3 * 8 + h4, l4]
    ensures Groups(5, vs) && Flat(5, vs) == Flat(8, b) + Zeros(0)
  {
    PowersOfTwo();
    Value5(256, b[0], b[1], b[2], b[3], b[4]);
    Value8(32, vs[0], vs[1], vs[2], vs[3], vs[4], vs[5], vs[6], vs[7]);
    assert b == [b[0], b[1], b[2], b[3], b[4]];
    GroupBits(5, b, vs, 0);
  }

  /** The 5-bit values of up to 5 bytes, the last one filled with zeros. */
  function Quintets5(b: seq<byte>): (vs: seq<nat>)
    requires |b| <= 5
    ensures |vs| == (|b| * 8 + 4) / 5
  {
    if |b| == 0 then []
    else if |b| == 1 then
      [b[0] / 8, b[0] % 8 * 4]
    else if |b| == 2 then
      [b[0] / 8, b[0] % 8 * 4 + b[1] / 64, b[1] / 2 % 32, b[1] % 2 * 16]
    else if |b| == 3 then
      [b[0] / 8, b[0] % 8 * 4 + b[1] / 64, b[1] / 2 % 32, b[1] % 2 * 16 + b[2] / 16, b[2] % 16 * 2]
    else if |b| == 4 then
      [b[0] / 8, b[0] % 8 * 4 + b[1] / 64, b[1] / 2 % 32, b[1] % 2 * 16 + b[2] / 16,
       b[2] % 16 * 2 + b[3] / 128, b[3] / 4 % 32, b[3] % 4 * 8]
    else
      [b[0] / 8, b[0] % 8 * 4 + b[1] / 64, b[1] / 2 % 32, b[1] % 2 * 16 + b[2] / 16,
       b[2] % 16 * 2 + b[3] / 128, b[3] / 4 % 32, b[3] % 4 * 8 + b[4] / 32, b[4] % 32]
  }

  function Quintets(b: seq<byte>): (vs: seq<nat>)
    ensures |vs| == (|b| * 8 + 4) / 5
  {
    if |b| <= 5 then Quintets5(b) else Quintets5(b[..5]) + Quintets(b[5..])
  }

  /** Zero bits that complete the last value, and '=' that complete the text. */
  function Fill32(n: nat): nat {
    match n % 5
    case 0 => 0
    case 1 => 2
    case 2 => 4
    case 3 => 1
    case _ => 3
  }

  function Ends32(n: nat): nat {
    match n % 5
    case 0 => 0
    case 1 => 6
    case 2 => 4
    case 3 => 3
    case _ => 1
  }

  lemma QuintetCase1(b: seq<byte>, vs: seq<nat>)
    requires |b| == 1 && vs == Quintets5(b)
    ensures Groups(5, vs) && Flat(5, vs) == Flat(8, b) + Zeros(2)
  {
    var h0, l0 := b[0] / 8, b[0] % 8;
    Parts8(b[0]);
    Quintet1(b, vs, h0, l0);
  }

  lemma QuintetCase2(b: seq<byte>, vs: seq<nat>)
    requires |b| == 2 && vs == Quintets5(b)
    ensures Groups(5, vs) && Flat(5, vs) == Flat(8, b) + Zeros(4)
  {
    var h0, l0 := b[0] / 8, b[0] % 8;
    var h1, m1, l1 := b[1] / 64, b[1] / 2 % 32, b[1] % 2;
    Parts8(b[0]);
    Parts64And2(b[1]);
    Quintet2(b, vs, h0, l0, h1, m1, l1);
  }

  lemma QuintetCase3(b: seq<byte>, vs: seq<nat>)
    requires |b| == 3 && vs == Quintets5(b)
    ensures Groups(5, vs) && Flat(5, vs) == Flat(8, b) + Zeros(1)
  {
    var h0, l0 := b[0] / 8, b[0] % 8;
    var h1, m1, l1 := b[1] / 64, b[1] / 2 % 32, b[1] % 2;
    var h2, l2 := b[2] / 16, b[2] % 16;
    Parts8(b[0]);
    Parts64And2(b[1]);
    Parts16(b[2]);
    Quintet3(b, vs, h0, l0, h1, m1, l1, h2, l2);
  }

  lemma QuintetCase4(b: seq<byte>, vs: seq<nat>)
    requires |b| == 4 && vs == Quintets5(b)
    ensures Groups(5, vs) && Flat(5, vs) == Flat(8, b) + Zeros(3)
  {
    var h0, l0 := b[0] / 8, b[0] % 8;
    var h1, m1, l1 := b[1] / 64, b[1] / 2 % 32, b[1] % 2;
    var h2, l2 := b[2] / 16, b[2] % 16;
    var h3, m3, l3 := b[3] / 128, b[3] / 4 % 32, b[3] % 4;
    Parts8(b[0]);
    Parts64And2(b[1]);
    Parts16(b[2]);
    Parts128And4(b[3]);
    Quintet4(b, vs, h0, l0, h1, m1, l1, h2, l2, h3, m3, l3);
  }

  lemma QuintetCase5(b: seq<byte>, vs: seq<nat>)
    requires |b| == 5 && vs == Quintets5(b)
    ensures Groups(5, vs) && Flat(5, vs) == Flat(8, b) + Zeros(0)
  {
    var h0, l0 := b[0] / 8, b[0] % 8;
    var h1, m1, l1 := b[1] / 64, b[1] / 2 % 32, b[1] % 2;
    var h2, l2 := b[2] / 16, b[2] % 16;
    var h3, m3, l3 := b[3] / 128, b[3] / 4 % 32, b[3] % 4;
    var h4, l4 := b[4] / 32, b[4] % 32;
    Parts8(b[0]);
    Parts64And2(b[1]);
    Parts16(b[2]);
    Parts128And4(b[3]);
    Parts32(b[4]);
    Quintet5(b, vs, h0, l0, h1, m1, l1, h2, l2, h3, m3, l3, h4, l4);
  }

  lemma QuintetGroup(b: seq<byte>)
    requires |b| <= 5
    ensures Groups(5, Quintets5(b)) && Flat(5, Quintets5(b)) == Flat(8, b) + Zeros(Fill32(|b|))
  {
    match |b|
    case 0 => assert Flat(8, b) + Zeros(0) == [];
    case 1 => QuintetCase1(b, Quintets5(b));
    case 2 => QuintetCase2(b, Quintets5(b));
    case 3 => QuintetCase3(b, Quintets5(b));
    case 4 => QuintetCase4(b, Quintets5(b));
    case _ => QuintetCase5(b, Quintets5(b));
  }

  lemma {:induction false} QuintetsFlat(b: seq<byte>)
    ensures Groups(5, Quintets(b)) && Flat(5, Quintets(b)) == Flat(8, b) + Zeros(Fill32(|b|))
  {
    if |b| <= 5 {
      QuintetGroup(b);
    } else {
      QuintetGroup(b[..5]);
      QuintetsFlat(b[5..]);
      GroupsFront(5, Quintets5(b[..5]), Quintets(b[5..]));
      FlatFront(5, Quintets5(b[..5]), Quintets(b[5..]), b[..5], b[5..], Fill32(|b| - 5));
      assert b[..5] + b[5..] == b;
    }
  }

  lemma {:induction false} Padding32(n: nat)
    ensures PadBits((n * 8 + 4) / 5, 8) == Ends32(n) && (n * 8 + 4) / 5 + Ends32(n) == (n + 4) / 5 * 8
  {
    if n >= 5 {
      Padding32(n - 5);
      assert (n * 8 + 4) / 5 == ((n - 5) * 8 + 4) / 5 + 8;
      assert Ends32(n) == Ends32(n - 5);
    }
  }

  lemma Spells32(vs: seq<nat>)
    requires forall i :: 0 <= i < |vs| ==> vs[i] < 32
    ensures forall i :: 0 <= i < |vs| ==> vs[i] < |ALPHABET32| && BASE32.enc(vs[i]) == ALPHABET32[vs[i]]
  {
    forall i | 0 <= i < |vs| ensures vs[i] < |ALPHABET32| && BASE32.enc(vs[i]) == ALPHABET32[vs[i]] {
      Alphabet32(vs[i]);
    }
  }

  lemma QuintetsPadded(b: seq<byte>)
    ensures Padded(8, 5, b) == Quintets(b) && forall i :: 0 <= i < |Quintets(b)| ==> Quintets(b)[i] < 32
  {
    PowersOfTwo();
    QuintetsFlat(b);
    PaddedIs(8, 5, b, Quintets(b), Fill32(|b|));
  }

  /** The text of values that hold the bits of the bytes. */
  lemma Base32Of(b: seq<byte>, vs: seq<nat>, ends: nat)
    requires Padded(8, 5, b) == vs && forall i :: 0 <= i < |vs| ==> vs[i] < 32
    requires PadBits(|vs|, 8) == ends
    ensures Sound(BASE32) && (forall i :: 0 <= i < |vs| ==> vs[i] < |ALPHABET32|)
    ensures Encoded(BASE32, b) == Spell(ALPHABET32, vs, ends)
  {
    Base32Sound();
    Spells32(vs);
    TextOf(BASE32, ALPHABET32, b, vs, ends);
  }

  /** The Base32 encoding, 5 bytes to 8 characters. */
  lemma Base32Text(b: seq<byte>)
    ensures Sound(BASE32) && (forall i :: 0 <= i < |Quintets(b)| ==> Quintets(b)[i] < |ALPHABET32|)
    ensures Encoded(BASE32, b) == Spell(ALPHABET32, Quintets(b), Ends32(|b|))
    ensures |Encoded(BASE32, b)| == (|b| + 4) / 5 * 8
  {
    QuintetsPadded(b);
    Padding32(|b|);
    Base32Of(b, Quintets(b), Ends32(|b|));
  }
}
