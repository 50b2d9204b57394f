/**
 PolyMod of bech32.cpp: the checksum of Bech32 as arithmetic on 30-bit states. Its step is
 XOR-linear, injective on states, and packs six symbols without reduction (BechLaws).
 */
module PolyMods {
  import opened Wrappers
  import opened Checksums
  import opened Radix

  /** What bit b of the top symbol adds: a multiple of x^6 reduced. */
  function Term(c: bv32, b: bv32, k: bv32): bv32 {
    if TopBit(c, b) then k else 0
  }

  predicate TopBit(c: bv32, b: bv32) {
    (c >> 25) & b != 0
  }

  /** One iteration of PolyMod: shift in v and reduce. */
  function Step(c: bv32, v: bv32): bv32 {
    Sum(Sum(Sum(Sum(Sum(Sum(Up(c), v), Term(c, 1, 0x3b6a57b2)), Term(c, 2, 0x26508e6d)), Term(c, 4, 0x1ea119fa)),
            Term(c, 8, 0x3d4233dd)), Term(c, 16, 0x2a1462b3))
  }

  /** Addition in GF(32)^6. */
  function Sum(a: bv32, b: bv32): bv32 {
    a ^ b
  }

  function Up(c: bv32): bv32 {
    (c & 0x1ffffff) << 5
  }

  /** The first k symbols fill 5k bits. */
  predicate Below(c: bv32, k: int) {
    match k
    case 0 => c == 0
    case 1 => c < 0x20
    case 2 => c < 0x400
    case 3 => c < 0x8000
    case 4 => c < 0x100000
    case 5 => c < 0x2000000
    case _ => c < 0x40000000
  }

  const BECH: Code<bv32> := Code(0, Sum, Step, c => c < 0x40000000, v => v < 32, Below, m => m & 31, m => m >> 5)

  /** uint8_t to uint32_t */
  function Wide(b: byte): bv32 {
    (b as bv8) as bv32
  }

  function Widen(v: seq<byte>): (w: seq<bv32>)
    ensures |w| == |v|
  {
    seq(|v|, i requires 0 <= i < |v| => Wide(v[i]))
  }

  /** The loop body of PolyMod. */
  method Advance(c: bv32, v: bv32) returns (r: bv32)
    ensures r == Step(c, v)
  {
    var c0 := c >> 25;
    r := ((c & 0x1ffffff) << 5) ^ v;
    assert r == Sum(Up(c), v);
    r := AddIf(r, c, c0, 1, 0x3b6a57b2);
    r := AddIf(r, c, c0, 2, 0x26508e6d);
    r := AddIf(r, c, c0, 4, 0x1ea119fa);
    r := AddIf(r, c, c0, 8, 0x3d4233dd);
    r := AddIf(r, c, c0, 16, 0x2a1462b3);
  }

  /** `if (c0 & b) c ^= k;` */
  method AddIf(r: bv32, ghost c: bv32, c0: bv32, b: bv32, k: bv32) returns (r': bv32)
    requires c0 == c >> 25
    ensures r' == Sum(r, Term(c, b, k))
  {
    r' := r;
    SumZero(r);
    if c0 & b != 0 {
      r' := r' ^ k;
      SumIs(r, k, r');
    }
  }

  lemma SumIs(a: bv32, b: bv32, c: bv32)
    requires c == a ^ b
    ensures c == Sum(a, b)
  {
  }

  lemma SumZero(a: bv32)
    ensures Sum(a, 0) == a && Sum(0, a) == a
  {
  }

  method PolyMod(v: seq<byte>) returns (c: bv32)
    ensures c == Fold(BECH, 1, Widen(v))
  {
    c := 1;
    for i := 0 to |v|
      invariant c == Fold(BECH, 1, Widen(v)[..i])
    {
      FoldNext(BECH, 1, Widen(v), i);
      c := Advance(c, Wide(v[i]));
    }
    assert Widen(v)[..|v|] == Widen(v);
  }

  // ---- The algebra of PolyMod ----

  lemma TermLinear(c: bv32, d: bv32, b: bv32, k: bv32)
    requires b == 1 || b == 2 || b == 4 || b == 8 || b == 16
    ensures Term(Sum(c, d), b, k) == Sum(Term(c, b, k), Term(d, b, k))
  {
    TopBitLinear(c, d, b);
    SumZero(k);
    SumZero(0);
    assert Sum(k, k) == 0;
  }

  lemma TopBitLinear(c: bv32, d: bv32, b: bv32)
    requires b == 1 || b == 2 || b == 4 || b == 8 || b == 16
    ensures TopBit(Sum(c, d), b) == (TopBit(c, b) != TopBit(d, b))
  {
  }

  lemma UpLinear(c: bv32, d: bv32)
    ensures Up(Sum(c, d)) == Sum(Up(c), Up(d))
  {
  }

  lemma SumPairs(a: bv32, b: bv32, x: bv32, y: bv32)
    ensures Sum(Sum(a, b), Sum(x, y)) == Sum(Sum(a, x), Sum(b, y))
  {
    SumAssoc(a, b, Sum(x, y));
    SumAssoc(b, x, y);
    SumComm(b, x);
    SumAssoc(x, b, y);
    SumAssoc(a, x, Sum(b, y));
  }

  lemma SumAssoc(a: bv32, b: bv32, c: bv32)
    ensures Sum(Sum(a, b), c) == Sum(a, Sum(b, c))
  {
  }

  lemma SumComm(a: bv32, b: bv32)
    ensures Sum(a, b) == Sum(b, a)
  {
  }

  lemma StepLinear(c: bv32, d: bv32, v: bv32, w: bv32)
    ensures Step(Sum(c, d), Sum(v, w)) == Sum(Step(c, v), Step(d, w))
  {
    var (c1, d1) := (Sum(Up(c), v), Sum(Up(d), w));
    var (c2, d2) := (Sum(c1, Term(c, 1, 0x3b6a57b2)), Sum(d1, Term(d, 1, 0x3b6a57b2)));
    var (c3, d3) := (Sum(c2, Term(c, 2, 0x26508e6d)), Sum(d2, Term(d, 2, 0x26508e6d)));
    var (c4, d4) := (Sum(c3, Term(c, 4, 0x1ea119fa)), Sum(d3, Term(d, 4, 0x1ea119fa)));
    var (c5, d5) := (Sum(c4, Term(c, 8, 0x3d4233dd)), Sum(d4, Term(d, 8, 0x3d4233dd)));
    UpLinear(c, d);
    SumPairs(Up(c), Up(d), v, w);
    TermLinear(c, d, 1, 0x3b6a57b2);
    SumPairs(c1, d1, Term(c, 1, 0x3b6a57b2), Term(d, 1, 0x3b6a57b2));
    TermLinear(c, d, 2, 0x26508e6d);
    SumPairs(c2, d2, Term(c, 2, 0x26508e6d), Term(d, 2, 0x26508e6d));
    TermLinear(c, d, 4, 0x1ea119fa);
    SumPairs(c3, d3, Term(c, 4, 0x1ea119fa), Term(d, 4, 0x1ea119fa));
    TermLinear(c, d, 8, 0x3d4233dd);
    SumPairs(c4, d4, Term(c, 8, 0x3d4233dd), Term(d, 8, 0x3d4233dd));
    TermLinear(c, d, 16, 0x2a1462b3);
    SumPairs(c5, d5, Term(c, 16, 0x2a1462b3), Term(d, 16, 0x2a1462b3));
  }

  lemma StepBound(c: bv32, v: bv32)
    requires v < 32
    ensures Step(c, v) < 0x40000000
  {
  }

  /** The step is injective on 30-bit states. */
  lemma StepKernel(c: bv32)
    requires c < 0x40000000 && Step(c, 0) == 0
    ensures c == 0
  {
  }

  lemma NoTerm(c: bv32, b: bv32, k: bv32)
    requires c >> 25 == 0
    ensures Term(c, b, k) == 0
  {
  }

  lemma Below25(c: bv32)
    requires c < 0x2000000
    ensures c >> 25 == 0 && c & 0x1ffffff == c
  {
  }

  lemma UpBelow(c: bv32, u: bv32)
    requires c & 0x1ffffff == c && u == c << 5
    ensures Up(c) == u
  {
  }

  lemma UpSum(c: bv32, v: bv32, r: bv32)
    requires c & 0x1ffffff == c && r == (c << 5) ^ v
    ensures Sum(Up(c), v) == r
  {
    UpBelow(c, c << 5);
    SumIs(c << 5, v, r);
  }

  /** Below 25 bits the step only shifts. */
  lemma StepShifts(c: bv32, v: bv32, r: bv32)
    requires c < 0x2000000 && r == (c << 5) ^ v
    ensures Step(c, v) == r
  {
    Below25(c);
    NoTerm(c, 1, 0x3b6a57b2);
    NoTerm(c, 2, 0x26508e6d);
    NoTerm(c, 4, 0x1ea119fa);
    NoTerm(c, 8, 0x3d4233dd);
    NoTerm(c, 16, 0x2a1462b3);
    UpSum(c, v, r);
    SumZero(r);
  }

  lemma StepRestores(m: bv32)
    requires m < 0x40000000
    ensures m >> 5 < 0x2000000 && Step(m >> 5, m & 31) == m
  {
    Below30(m);
    StepShifts(m >> 5, m & 31, m);
  }

  lemma Below30(m: bv32)
    requires m < 0x40000000
    ensures m >> 5 < 0x2000000 && ((m >> 5) << 5) ^ (m & 31) == m
  {
  }

  lemma StepPacks(c: bv32, v: bv32, k: int)
    requires 0 <= k < 6 && Below(c, k) && v < 32
    ensures Below(Step(c, v), k + 1)
    ensures Step(c, v) == 0 ==> c == 0 && v == 0
  {
    StepShifts(c, v, (c << 5) ^ v);
  }

  lemma SixShifts(m: bv32)
    requires m < 0x40000000
    ensures ((((((m >> 5) >> 5) >> 5) >> 5) >> 5) >> 5) == 0
  {
  }

  lemma SumSelf(a: bv32)
    ensures Sum(a, a) == 0
  {
  }

  lemma SumSame(a: bv32, b: bv32)
    ensures Sum(a, b) == 0 <==> a == b
  {
    SumSelf(a);
    SumAssoc(a, a, b);
    SumZero(a);
    SumZero(b);
  }

  lemma SumCancel(a: bv32, b: bv32)
    ensures Sum(a, Sum(a, b)) == b
  {
    SumAssoc(a, a, b);
    SumSelf(a);
    SumZero(b);
  }

  lemma SumBounds(a: bv32, b: bv32)
    ensures a < 32 && b < 32 ==> Sum(a, b) < 32
    ensures a < 0x40000000 && b < 0x40000000 ==> Sum(a, b) < 0x40000000
  {
  }

  /** PolyMod's states obey the laws of a checksum. */
  lemma BechLaws()
    ensures Laws(BECH)
  {
    BechGroup();
    BechLinear();
    BechInjective();
    BechRestoring();
    BechPacking();
  }

  lemma BechGroup()
    ensures Group(BECH)
  {
    forall a ensures BECH.add(a, 0) == a && BECH.add(0, a) == a { SumZero(a); }
    forall a, b
      ensures BECH.add(a, b) == 0 <==> a == b
      ensures BECH.add(a, BECH.add(a, b)) == b
      ensures BECH.isSymbol(a) && BECH.isSymbol(b) ==> BECH.isSymbol(BECH.add(a, b))
      ensures BECH.isState(a) && BECH.isState(b) ==> BECH.isState(BECH.add(a, b))
    {
      SumSame(a, b);
      SumCancel(a, b);
      SumBounds(a, b);
    }
  }

  lemma BechLinear()
    ensures Linear(BECH)
  {
    forall c, d, v, w ensures BECH.step(BECH.add(c, d), BECH.add(v, w)) == BECH.add(BECH.step(c, v), BECH.step(d, w)) {
      StepLinear(c, d, v, w);
    }
  }

  lemma BechInjective()
    ensures Injective(BECH)
  {
    forall c, v | v < 32 ensures BECH.isState(BECH.step(c, v)) { StepBound(c, v); }
    forall c | c < 0x40000000 && BECH.step(c, 0) == 0 ensures c == 0 { StepKernel(c); }
  }

  lemma BechRestoring()
    ensures Restoring(BECH)
  {
    forall m | m < 0x40000000
      ensures BECH.step(BECH.high(m), BECH.low(m)) == m && BECH.isState(BECH.high(m)) && BECH.isSymbol(BECH.low(m))
      ensures BECH.high(BECH.high(BECH.high(BECH.high(BECH.high(BECH.high(m)))))) == 0
    {
      StepRestores(m);
      SixShifts(m);
    }
  }

  lemma BechPacking()
    ensures Packing(BECH)
  {
    forall c, v, k | 0 <= k < 6 && BECH.below(c, k) && v < 32
      ensures BECH.below(BECH.step(c, v), k + 1) && (BECH.step(c, v) == 0 ==> c == 0 && v == 0)
    {
      StepPacks(c, v, k);
    }
  }

  /** `(m >> (5 * (5 - i))) & 31`: symbol i of a state, the first in the top bits. */
  function Symbol(m: bv32, i: nat): bv32
    requires i < 6
  {
    match i
    case 0 => (m >> 25) & 31
    case 1 => (m >> 20) & 31
    case 2 => (m >> 15) & 31
    case 3 => (m >> 10) & 31
    case 4 => (m >> 5) & 31
    case _ => m & 31
  }

  lemma SymbolSix(m: bv32)
    ensures Six(BECH, m) == [Symbol(m, 0), Symbol(m, 1), Symbol(m, 2), Symbol(m, 3), Symbol(m, 4), Symbol(m, 5)]
  {
    ShiftChain(m);
  }

  lemma SymbolBound(m: bv32, i: nat)
    requires i < 6
    ensures Symbol(m, i) < 32
  {
  }

  lemma ShiftChain(m: bv32)
    ensures (m >> 5) >> 5 == m >> 10 && (m >> 10) >> 5 == m >> 15 && (m >> 15) >> 5 == m >> 20
    ensures (m >> 20) >> 5 == m >> 25
  {
  }

  lemma NarrowSymbol(m: bv32)
    requires m < 32
    ensures m as int < 32 && Wide(m as int) == m
  {
  }

  /** Bytes widen without loss, and symbols to symbols. */
  lemma WidenSymbol(b: byte)
    requires b < 32
    ensures Wide(b) < 32
  {
  }

  lemma WidenByte(b: byte)
    requires b < 32
    ensures (b as bv8) as int == b
  {
  }

  lemma WideInjective(a: byte, b: byte)
    requires a < 32 && b < 32 && Wide(a) == Wide(b)
    ensures a == b
  {
    WidenByte(a);
    WidenByte(b);
  }

  /** A character as the `unsigned char` the code reads. */
  function Byte(c: char): byte {
    c as int % 256
  }

  predicate FiveBit(values: seq<byte>) {
    forall i :: 0 <= i < |values| ==> values[i] < 32
  }

  function Expand(hrp: string): (r: seq<byte>)
    ensures |r| == 2 * |hrp| + 1
  {
    var n := |hrp|;
    seq(2 * n + 1, i requires 0 <= i < 2 * n + 1 =>
      if i < n then Byte(hrp[i]) / 32 else if i == n then 0 else Byte(hrp[i - n - 1]) % 32)
  }

  /** A prefix of n characters as 2n + 1 values below 32: the high bits of its bytes, a zero
      and the low bits. */
  ghost predicate IsExpansion(hrp: string, e: seq<byte>) {
    && |e| == 2 * |hrp| + 1 && FiveBit(e) && e[|hrp|] == 0
    && forall i :: 0 <= i < |hrp| ==> 32 * e[i] as int + e[|hrp| + 1 + i] as int == hrp[i] as int % 256
  }

  /** High and low bits of a byte. */
  lemma BitsOfByte(c: byte, hi: byte, lo: byte)
    requires lo < 32
    ensures 32 * hi as int + lo as int == c as int <==> hi == c / 32 && lo == c % 32
  {
    if 32 * hi as int + lo as int == c as int {
      DivModUnique(c, 32, hi, lo);
    }
  }

  lemma ExpandAt(hrp: string, i: nat)
    requires i < |hrp|
    ensures Expand(hrp)[i] == Byte(hrp[i]) / 32 && Expand(hrp)[|hrp| + 1 + i] == Byte(hrp[i]) % 32
    ensures Expand(hrp)[|hrp|] == 0
  {
  }

  lemma ExpandIs(hrp: string)
    ensures IsExpansion(hrp, Expand(hrp))
  {
    var e := Expand(hrp);
    ExpandFiveBit(hrp);
    forall i | 0 <= i < |hrp| ensures 32 * e[i] as int + e[|hrp| + 1 + i] as int == hrp[i] as int % 256 {
      ExpandAt(hrp, i);
      BitsOfByte(Byte(hrp[i]), e[i], e[|hrp| + 1 + i]);
    }
  }

  lemma ExpansionAt(hrp: string, e: seq<byte>, i: nat)
    requires IsExpansion(hrp, e) && i < |hrp|
    ensures e[i] == Expand(hrp)[i] && e[|hrp| + 1 + i] == Expand(hrp)[|hrp| + 1 + i]
  {
    ExpandAt(hrp, i);
    BitsOfByte(Byte(hrp[i]), e[i], e[|hrp| + 1 + i]);
  }

  /** There is one such expansion of every prefix. */
  lemma ExpansionIff(hrp: string, e: seq<byte>)
    ensures IsExpansion(hrp, e) <==> e == Expand(hrp)
  {
    ExpandIs(hrp);
    if IsExpansion(hrp, e) {
      forall i | 0 <= i < 2 * |hrp| + 1 ensures e[i] == Expand(hrp)[i] {
        if i < |hrp| {
          ExpansionAt(hrp, e, i);
        } else if i > |hrp| {
          ExpansionAt(hrp, e, i - |hrp| - 1);
        }
      }
    }
  }

  /** Two prefixes share their expansion exactly when their bytes agree. */
  lemma ExpansionOfBytes(hrp: string, other: string, e: seq<byte>)
    requires IsExpansion(hrp, e)
    ensures IsExpansion(other, e) <==>
      |other| == |hrp| && forall i :: 0 <= i < |hrp| ==> other[i] as int % 256 == hrp[i] as int % 256
  {
    var n := |hrp|;
    if IsExpansion(other, e) {
      forall i | 0 <= i < n ensures other[i] as int % 256 == hrp[i] as int % 256 {
        assert 32 * e[i] as int + e[n + 1 + i] as int == hrp[i] as int % 256;
        assert 32 * e[i] as int + e[|other| + 1 + i] as int == other[i] as int % 256;
      }
    }
    if |other| == n && forall i :: 0 <= i < n ==> other[i] as int % 256 == hrp[i] as int % 256 {
      forall i | 0 <= i < n ensures 32 * e[i] as int + e[|other| + 1 + i] as int == other[i] as int % 256 {
        assert 32 * e[i] as int + e[n + 1 + i] as int == hrp[i] as int % 256;
      }
    }
  }

  method ExpandHRP(hrp: string) returns (ret: array<byte>)
    ensures fresh(ret) && ret[..] == Expand(hrp) && IsExpansion(hrp, ret[..])
  {
    ret := SplitBytes(hrp);
    ExpandIs(hrp);
  }

  /** The loop over the characters. */
  method SplitBytes(hrp: string) returns (ret: array<byte>)
    ensures fresh(ret) && ret[..] == Expand(hrp)
  {
    var n := |hrp|;
    ret := new byte[2 * n + 1](_ => 0);
    for i := 0 to n
      invariant forall j :: 0 <= j < i ==> ret[j] == Byte(hrp[j]) / 32
      invariant forall j :: n + 1 <= j < n + 1 + i ==> ret[j] == Byte(hrp[j - n - 1]) % 32
    {
      var c := Byte(hrp[i]);
      ret[i] := c / 32;
      ret[i + n + 1] := c % 32;
    }
    ret[n] := 0;
  }

  lemma ExpandFiveBit(hrp: string)
    ensures FiveBit(Expand(hrp))
  {
  }

  /** The checksum condition over any code; the program's code is BECH. */
  predicate VerifiesIn(C: Code<bv32>, e: seq<byte>) {
    Fold(C, 1, Widen(e)) == 1
  }

  predicate Verifies(e: seq<byte>) {
    VerifiesIn(BECH, e)
  }

  method VerifyChecksum(hrp: string, values: seq<byte>) returns (ok: bool)
    ensures ok == Verifies(Expand(hrp) + values)
  {
    var e := ExpandHRP(hrp);
    var m := PolyMod(e[..] + values);
    ok := m == 1;
  }

  const SIX_ZEROS: seq<byte> := [0, 0, 0, 0, 0, 0]

  /** The six values that bring the checksum to 1. */
  predicate IsChecksumIn(C: Code<bv32>, e: seq<byte>, cs: seq<byte>) {
    |cs| == 6 && FiveBit(cs) && Widen(cs) == Six(C, C.add(Fold(C, 1, Widen(e + SIX_ZEROS)), 1))
  }

  predicate IsChecksum(e: seq<byte>, cs: seq<byte>) {
    IsChecksumIn(BECH, e, cs)
  }

  method CutSymbol(m: bv32, i: nat) returns (b: byte)
    requires i < 6
    ensures b < 32 && Wide(b) == Symbol(m, i)
  {
    SymbolBound(m, i);
    NarrowSymbol(Symbol(m, i));
    b := Symbol(m, i) as int;
  }

  /** Cuts a state into symbols. */
  method CutSymbols(m: bv32) returns (ret: seq<byte>)
    ensures |ret| == 6 && FiveBit(ret) && Widen(ret) == Six(BECH, m)
  {
    ret := SIX_ZEROS;
    for i := 0 to 6
      invariant |ret| == 6 && FiveBit(ret)
      invariant forall j :: 0 <= j < i ==> Wide(ret[j]) == Symbol(m, j)
    {
      var b := CutSymbol(m, i);
      ret := ret[i := b];
    }
    SymbolsWiden(m, ret);
  }

  lemma SymbolsWiden(m: bv32, v: seq<byte>)
    requires |v| == 6 && forall j :: 0 <= j < 6 ==> Wide(v[j]) == Symbol(m, j)
    ensures Widen(v) == Six(BECH, m)
  {
    SymbolSix(m);
  }

  method CreateChecksum(hrp: string, values: seq<byte>) returns (ret: seq<byte>)
    ensures IsChecksum(Expand(hrp) + values, ret)
  {
    var e := ExpandHRP(hrp);
    var m := PolyMod(e[..] + values + SIX_ZEROS);
    ret := CutSymbols(m ^ 1);
  }

  /** A code whose symbols include the values below 32. */
  ghost predicate ByteCode(C: Code<bv32>) {
    Laws(C) && C.zero == 0 && C.isState(1) && forall b: byte :: b < 32 ==> C.isSymbol(Wide(b))
  }

  lemma BechByteCode()
    ensures ByteCode(BECH)
  {
    BechLaws();
    forall b: byte | b < 32 ensures BECH.isSymbol(Wide(b)) { WidenSymbol(b); }
  }

  lemma WidenSymbols(C: Code<bv32>, v: seq<byte>)
    requires ByteCode(C) && FiveBit(v)
    ensures Symbols(C, Widen(v))
  {
  }

  lemma WidenZeros(C: Code<bv32>, n: nat)
    requires n == 6 && C.zero == 0
    ensures Widen(SIX_ZEROS) == Zeros(C, n)
  {
    assert Wide(0) == 0;
  }

  /** Six values computed over six zeros verify in their place. */
  lemma ChecksumVerifiesIn(C: Code<bv32>, e: seq<byte>, cs: seq<byte>)
    requires ByteCode(C) && FiveBit(e) && IsChecksumIn(C, e, cs)
    ensures VerifiesIn(C, e + cs)
  {
    WidenAppend(e, SIX_ZEROS);
    WidenAppend(e, cs);
    assert Widen(SIX_ZEROS) == Zeros(C, 6) by { WidenZeros(C, 6); }
    assert Symbols(C, Widen(e)) by { WidenSymbols(C, e); }
    ChecksumMakesOne(C, 1, Widen(e));
  }

  /** The checksum verifies. */
  lemma ChecksumVerifies(e: seq<byte>, cs: seq<byte>)
    requires FiveBit(e) && IsChecksum(e, cs)
    ensures Verifies(e + cs)
  {
    BechByteCode();
    ChecksumVerifiesIn(BECH, e, cs);
  }

  lemma WidenAppend(a: seq<byte>, b: seq<byte>)
    ensures Widen(a + b) == Widen(a) + Widen(b)
  {
  }

  lemma WidenSame(e: seq<byte>, v: seq<byte>, w: seq<byte>)
    requires FiveBit(v) && FiveBit(w) && Widen(e + v) == Widen(e + w)
    ensures v == w
  {
    assert |e + v| == |e + w|;
    forall i | 0 <= i < |v| ensures v[i] == w[i] {
      assert Widen(e + v)[|e| + i] == Wide(v[i]) && Widen(e + w)[|e| + i] == Wide(w[i]);
      WideInjective(v[i], w[i]);
    }
  }

  lemma BurstIn(C: Code<bv32>, e: seq<byte>, v: seq<byte>, w: seq<byte>, k: int)
    requires ByteCode(C) && FiveBit(e) && FiveBit(v) && FiveBit(w)
    requires Fold(C, 1, Widen(e + v)) == Fold(C, 1, Widen(e + w))
    requires |v| == |w| && forall i :: 0 <= i < |v| && !(k <= i < k + 6) ==> v[i] == w[i]
    ensures v == w
  {
    var x, y := e + v, e + w;
    WidenSymbols(C, x);
    WidenSymbols(C, y);
    NoBurst(C, 1, Widen(x), Widen(y), |e| + k);
    WidenSame(e, v, w);
  }

  /** Values that verify under one prefix never differ only inside six consecutive places. */
  lemma ValuesBurst(e: seq<byte>, v: seq<byte>, w: seq<byte>, k: int)
    requires FiveBit(e) && FiveBit(v) && FiveBit(w) && Verifies(e + v) && Verifies(e + w)
    requires |v| == |w| && forall i :: 0 <= i < |v| && !(k <= i < k + 6) ==> v[i] == w[i]
    ensures v == w
  {
    BechByteCode();
    BurstIn(BECH, e, v, w, k);
  }

  // ---- A test vector of BIP 173 ----

  /** The values of A12UEL5L, prefix included, and the states they lead through. */
  const VALUES: seq<byte> := [3, 0, 1, 10, 28, 25, 31, 20, 31]
  const STATES: seq<bv32> := [0x1, 0x23, 0x460, 0x8c01, 0x11802a, 0x230055c, 0x3d6afc2b, 0x2f84386, 0x24622766, 0x1]

  lemma Step0()
    ensures Step(0x1, Wide(3)) == 0x23
  {
  }

  lemma Step1()
    ensures Step(0x23, Wide(0)) == 0x460
  {
  }

  lemma Step2()
    ensures Step(0x460, Wide(1)) == 0x8c01
  {
  }

  lemma Step3()
    ensures Step(0x8c01, Wide(10)) == 0x11802a
  {
  }

  lemma Step4()
    ensures Step(0x11802a, Wide(28)) == 0x230055c
  {
  }

  lemma Step5()
    ensures Step(0x230055c, Wide(25)) == 0x3d6afc2b
  {
  }

  lemma Step6()
    ensures Step(0x3d6afc2b, Wide(31)) == 0x2f84386
  {
  }

  lemma Step7()
    ensures Step(0x2f84386, Wide(20)) == 0x24622766
  {
  }

  lemma Step8()
    ensures Step(0x24622766, Wide(31)) == 0x1
  {
  }

  lemma VectorStep(k: nat)
    requires k < 9
    ensures Step(STATES[k], Wide(VALUES[k])) == STATES[k + 1]
  {
    match k
    case 0 => Step0();
    case 1 => Step1();
    case 2 => Step2();
    case 3 => Step3();
    case 4 => Step4();
    case 5 => Step5();
    case 6 => Step6();
    case 7 => Step7();
    case 8 => Step8();
  }

  lemma VectorRun(C: Code<bv32>, e: seq<byte>, states: seq<bv32>)
    requires |states| == |e| + 1 && states[0] == 1
    requires forall k {:trigger e[k]} :: 0 <= k < |e| ==> C.step(states[k], Wide(e[k])) == states[k + 1]
    ensures Fold(C, 1, Widen(e)) == states[|e|]
  {
    FoldStates(C, 1, Widen(e), states);
  }

  /** The checksum of the test vector A12UEL5L is one. */
  lemma VectorVerifies()
    ensures Fold(BECH, 1, Widen(VALUES)) == 1
  {
    forall k | 0 <= k < 9 ensures Step(STATES[k], Wide(VALUES[k])) == STATES[k + 1] {
      VectorStep(k);
    }
    VectorRun(BECH, VALUES, STATES);
  }
}
