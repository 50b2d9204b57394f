/**
 The roots of the generator of bech32.cpp's PolyMod: the 24th, 25th and 26th power of a
 root of x^10 + x^8 + x^5 + x + 1, whose powers are all of GF(1024) but zero. An element is
 held as the coefficients of a polynomial in the root.
 */
module BechRoots {
  import opened Wrappers
  import opened Checksums
  import opened PolyMods
  import opened Syndromes
  import opened Generators

  function Add(a: bv10, b: bv10): bv10 {
    a ^ b
  }

  /** Multiplication by the root. */
  function ByRoot(w: bv10): bv10 {
    Add(Shift(w), Carry(w))
  }

  function Shift(w: bv10): bv10 {
    w << 1
  }

  function Carry(w: bv10): bv10 {
    if w & 0x200 != 0 then 0x123 else 0
  }

  const FIELD: Space<bv10> := Space(0, Add, ByRoot)

  function Pick(b: bool, g: bv10): bv10 {
    if b then g else 0
  }

  /** The product of g and the first k coefficients of w. */
  function Horner(g: bv10, w: bv10, k: nat): bv10
    decreases k
  {
    if k == 0 then 0 else Add(Pick(w & 1 != 0, g), ByRoot(Horner(g, w >> 1, k - 1)))
  }

  /** Multiplication in GF(1024). */
  function Mul(g: bv10, w: bv10): bv10 {
    Horner(g, w, 10)
  }

  // ---- The vector space ----

  lemma AddCommutes(a: bv10, b: bv10)
    ensures Add(a, 0) == a && Add(a, b) == Add(b, a) && (Add(a, b) == 0 <==> a == b)
  {
  }

  lemma AddAssociates(a: bv10, b: bv10, c: bv10)
    ensures Add(Add(a, b), c) == Add(a, Add(b, c))
  {
  }

  lemma AddVectors()
    ensures Vectors(FIELD)
  {
    forall a: bv10 ensures FIELD.add(a, FIELD.zero) == a { AddCommutes(a, 0); }
    forall a: bv10, b: bv10 ensures Commutes(FIELD, a, b) { AddCommutes(a, b); }
    forall a: bv10, b: bv10, c: bv10 ensures Associates(FIELD, a, b, c) { AddAssociates(a, b, c); }
  }

  lemma AddPairs(a: bv10, b: bv10, c: bv10, d: bv10)
    ensures Add(Add(a, b), Add(c, d)) == Add(Add(a, c), Add(b, d))
  {
    AddVectors();
    Pairs(FIELD, a, b, c, d);
  }

  lemma ShiftAdds(a: bv10, b: bv10)
    ensures Shift(Add(a, b)) == Add(Shift(a), Shift(b))
  {
  }

  lemma CarryAdds(a: bv10, b: bv10)
    ensures Carry(Add(a, b)) == Add(Carry(a), Carry(b))
  {
    assert (Add(a, b) & 0x200 != 0) == ((a & 0x200 != 0) != (b & 0x200 != 0));
  }

  lemma ByRootAdds(a: bv10, b: bv10)
    ensures ByRoot(Add(a, b)) == Add(ByRoot(a), ByRoot(b))
  {
    ShiftAdds(a, b);
    CarryAdds(a, b);
    AddPairs(Shift(a), Shift(b), Carry(a), Carry(b));
  }

  lemma ByRootKernel(a: bv10)
    requires ByRoot(a) == 0
    ensures a == 0
  {
  }

  lemma RootTurns()
    ensures Turns(FIELD)
  {
    forall a: bv10, b: bv10 ensures FIELD.turn(FIELD.add(a, b)) == FIELD.add(FIELD.turn(a), FIELD.turn(b)) {
      ByRootAdds(a, b);
    }
    forall a: bv10 | FIELD.turn(a) == FIELD.zero ensures a == FIELD.zero { ByRootKernel(a); }
  }

  // ---- Turns are products ----

  /** w has no more than k coefficients. */
  predicate Fits(w: bv10, k: nat)
    decreases k
  {
    if k == 0 then w == 0 else Fits(w >> 1, k - 1)
  }

  lemma FitsTen(w: bv10)
    ensures Fits(w, 10)
  {
    var a := w >> 1 >> 1 >> 1 >> 1 >> 1;
    assert a >> 1 >> 1 >> 1 >> 1 >> 1 == 0;
    assert Fits(a, 5);
  }

  lemma FirstCoefficient(w: bv10)
    ensures Add(Pick(w & 1 != 0, 1), ByRoot(w >> 1)) == w
  {
  }

  /** Every element is a polynomial in the root. */
  lemma {:induction false} Polynomial(w: bv10, k: nat)
    requires Fits(w, k)
    ensures Horner(1, w, k) == w
  {
    if k > 0 {
      Polynomial(w >> 1, k - 1);
      FirstCoefficient(w);
    }
  }

  lemma TurnPick(n: nat, b: bool, r: bv10)
    ensures Turn(FIELD, n, Add(Pick(b, 1), ByRoot(r))) == Add(Pick(b, Turn(FIELD, n, 1)), ByRoot(Turn(FIELD, n, r)))
  {
    assert Turn(FIELD, n, Add(Pick(b, 1), ByRoot(r))) == Add(Turn(FIELD, n, Pick(b, 1)), Turn(FIELD, n, ByRoot(r))) by {
      RootTurns();
      TurnSum(FIELD, n, Pick(b, 1), ByRoot(r));
    }
    TurnNone(n);
    TurnByRoot(n, r);
  }

  lemma TurnNone(n: nat)
    ensures Turn(FIELD, n, 0) == 0
  {
    AddVectors();
    RootTurns();
    TurnZero(FIELD, n);
  }

  lemma TurnByRoot(n: nat, r: bv10)
    ensures Turn(FIELD, n, ByRoot(r)) == ByRoot(Turn(FIELD, n, r))
  {
    TurnAdd(FIELD, n, 1, r);
    TurnAdd(FIELD, 1, n, r);
  }

  lemma {:induction false} TurnHorner(n: nat, g: bv10, w: bv10, k: nat)
    requires Power(n, g)
    ensures Turn(FIELD, n, Horner(1, w, k)) == Horner(g, w, k)
  {
    if k == 0 {
      TurnNone(n);
    } else {
      TurnHorner(n, g, w >> 1, k - 1);
      TurnPick(n, w & 1 != 0, Horner(1, w >> 1, k - 1));
    }
  }

  /** n turns are the multiplication by the n-th power of the root. */
  lemma TurnMul(n: nat, g: bv10, w: bv10)
    requires Power(n, g)
    ensures Turn(FIELD, n, w) == Mul(g, w)
  {
    FitsTen(w);
    Polynomial(w, 10);
    TurnHorner(n, g, w, 10);
  }

  ghost predicate Power(n: nat, g: bv10) {
    Turn(FIELD, n, 1) == g
  }

  lemma PowerSum(m: nat, n: nat, g: bv10, h: bv10)
    requires Power(m, g) && Power(n, h)
    ensures Power(m + n, Mul(g, h))
  {
    TurnAdd(FIELD, m, n, 1);
    TurnMul(m, g, h);
  }

  lemma PickSum(b: bool, g: bv10, h: bv10)
    ensures Pick(b, Add(g, h)) == Add(Pick(b, g), Pick(b, h))
  {
    AddCommutes(0, 0);
  }

  lemma RoundAdds(x: bv10, y: bv10, r: bv10, s: bv10)
    ensures Add(Add(x, y), ByRoot(Add(r, s))) == Add(Add(x, ByRoot(r)), Add(y, ByRoot(s)))
  {
    ByRootAdds(r, s);
    AddPairs(x, y, ByRoot(r), ByRoot(s));
  }

  lemma {:induction false} HornerAdds(g: bv10, h: bv10, w: bv10, k: nat)
    ensures Horner(Add(g, h), w, k) == Add(Horner(g, w, k), Horner(h, w, k))
  {
    if k == 0 {
      AddCommutes(0, 0);
    } else {
      var b := w & 1 != 0;
      HornerAdds(g, h, w >> 1, k - 1);
      PickSum(b, g, h);
      RoundAdds(Pick(b, g), Pick(b, h), Horner(g, w >> 1, k - 1), Horner(h, w >> 1, k - 1));
    }
  }

  // ---- Powers of the root ----

  /** The product, written out. */
  function Five(g: bv10, w: bv10, r: bv10): bv10 {
    Add(Pick(w & 1 != 0, g), ByRoot(Add(Pick(w & 2 != 0, g), ByRoot(Add(Pick(w & 4 != 0, g),
      ByRoot(Add(Pick(w & 8 != 0, g), ByRoot(Add(Pick(w & 16 != 0, g), ByRoot(r))))))))))
  }

  lemma MulFive(g: bv10, w: bv10)
    ensures Mul(g, w) == Five(g, w, Five(g, w >> 5, 0))
  {
    HornerFive(g, w, 5);
    HornerFive(g, w >> 5, 0);
  }

  lemma HornerFive(g: bv10, w: bv10, k: nat)
    ensures Horner(g, w, k + 5) == Five(g, w, Horner(g, w >> 5, k))
  {
    var w1, w2, w3, w4 := w >> 1, w >> 2, w >> 3, w >> 4;
    Shifts(w);
    assert Horner(g, w4, k + 1) == Add(Pick(w4 & 1 != 0, g), ByRoot(Horner(g, w >> 5, k)));
    assert Horner(g, w3, k + 2) == Add(Pick(w3 & 1 != 0, g), ByRoot(Horner(g, w4, k + 1)));
    assert Horner(g, w2, k + 3) == Add(Pick(w2 & 1 != 0, g), ByRoot(Horner(g, w3, k + 2)));
    assert Horner(g, w1, k + 4) == Add(Pick(w1 & 1 != 0, g), ByRoot(Horner(g, w2, k + 3)));
  }

  lemma Shifts(w: bv10)
    ensures (w >> 1) >> 1 == w >> 2 && (w >> 2) >> 1 == w >> 3 && (w >> 3) >> 1 == w >> 4 && (w >> 4) >> 1 == w >> 5
    ensures ((w >> 1) & 1 != 0) == (w & 2 != 0) && ((w >> 2) & 1 != 0) == (w & 4 != 0)
    ensures ((w >> 3) & 1 != 0) == (w & 8 != 0) && ((w >> 4) & 1 != 0) == (w & 16 != 0)
  {
  }

  lemma Product(m: nat, n: nat, g: bv10, h: bv10, f: bv10)
    requires Power(m, g) && Power(n, h) && Five(g, h, Five(g, h >> 5, 0)) == f
    ensures Power(m + n, f)
  {
    PowerSum(m, n, g, h);
    MulFive(g, h);
  }

  lemma {:induction false} HornerNone(g: bv10, k: nat)
    ensures Horner(g, 0, k) == 0
  {
    if k > 0 {
      HornerNone(g, k - 1);
      AddCommutes(0, 0);
    }
  }

  /** A product with five coefficients. */
  lemma MulShort(g: bv10, w: bv10)
    requires w < 32
    ensures Mul(g, w) == Five(g, w, 0)
  {
    assert w >> 5 == 0;
    HornerFive(g, w, 5);
    HornerNone(g, 5);
  }

  lemma ShortProduct(m: nat, n: nat, g: bv10, h: bv10, f: bv10)
    requires Power(m, g) && Power(n, h) && h < 32 && Five(g, h, 0) == f
    ensures Power(m + n, f)
  {
    PowerSum(m, n, g, h);
    MulShort(g, h);
  }

  lemma FirstPower(n: nat)
    requires n == 1
    ensures Power(n, 2)
  {
    assert Turn(FIELD, n, 1) == ByRoot(Turn(FIELD, n - 1, 1));
  }

  lemma PowersTo4()
    requires Power(1, 0x002)
    ensures Power(2, 0x004) && Power(4, 0x010)
  {
    ShortProduct(1, 1, 0x002, 0x002, 0x004);
    ShortProduct(2, 2, 0x004, 0x004, 0x010);
  }

  lemma PowersTo16()
    requires Power(4, 0x010)
    ensures Power(8, 0x100) && Power(16, 0x119)
  {
    ShortProduct(4, 4, 0x010, 0x010, 0x100);
    Product(8, 8, 0x100, 0x100, 0x119);
  }

  lemma PowersTo64()
    requires Power(16, 0x119)
    ensures Power(32, 0x058) && Power(64, 0x0ef)
  {
    Product(16, 16, 0x119, 0x119, 0x058);
    Product(32, 32, 0x058, 0x058, 0x0ef);
  }

  lemma PowersTo256()
    requires Power(64, 0x0ef)
    ensures Power(128, 0x346) && Power(256, 0x1e5)
  {
    Product(64, 64, 0x0ef, 0x0ef, 0x346);
    Product(128, 128, 0x346, 0x346, 0x1e5);
  }

  lemma PowersTo1024()
    requires Power(256, 0x1e5)
    ensures Power(512, 0x21b) && Power(1024, 0x002)
  {
    Product(256, 256, 0x1e5, 0x1e5, 0x21b);
    Product(512, 512, 0x21b, 0x21b, 0x002);
  }

  /** Squares of squares of the root, which has order 1023: its 1024th power is itself. */
  lemma Squares()
    ensures Power(1, 0x002) && Power(2, 0x004) && Power(4, 0x010) && Power(8, 0x100)
    ensures Power(16, 0x119) && Power(32, 0x058) && Power(64, 0x0ef) && Power(128, 0x346)
    ensures Power(256, 0x1e5) && Power(512, 0x21b) && Power(1024, 0x002)
  {
    FirstPower(1);
    PowersTo4();
    PowersTo16();
    PowersTo64();
    PowersTo256();
    PowersTo1024();
  }

  lemma Powers33()
    requires Power(32, 0x058) && Power(1, 0x002) && Power(4, 0x010)
    ensures Power(33, 0x0b0) && Power(5, 0x020)
  {
    ShortProduct(32, 1, 0x058, 0x002, 0x0b0);
    ShortProduct(4, 1, 0x010, 0x002, 0x020);
  }

  lemma Powers93()
    requires Power(64, 0x0ef) && Power(16, 0x119) && Power(8, 0x100)
    ensures Power(80, 0x198) && Power(88, 0x0ed)
  {
    Product(64, 16, 0x0ef, 0x119, 0x198);
    Product(80, 8, 0x198, 0x100, 0x0ed);
  }

  lemma MorePowers93()
    requires Power(88, 0x0ed) && Power(5, 0x020)
    ensures Power(93, 0x36a)
  {
    Product(88, 5, 0x0ed, 0x020, 0x36a);
  }

  lemma Powers341()
    requires Power(80, 0x198) && Power(5, 0x020) && Power(256, 0x1e5)
    ensures Power(85, 0x1f1) && Power(341, 0x036)
  {
    Product(80, 5, 0x198, 0x020, 0x1f1);
    Product(256, 85, 0x1e5, 0x1f1, 0x036);
  }

  lemma Powers682()
    requires Power(341, 0x036)
    ensures Power(682, 0x037)
  {
    Product(341, 341, 0x036, 0x036, 0x037);
  }

  lemma Powers424()
    requires Power(32, 0x058) && Power(8, 0x100) && Power(256, 0x1e5) && Power(128, 0x346)
    ensures Power(40, 0x076) && Power(384, 0x21c)
  {
    Product(32, 8, 0x058, 0x100, 0x076);
    Product(256, 128, 0x1e5, 0x346, 0x21c);
  }

  lemma MorePowers424()
    requires Power(384, 0x21c) && Power(40, 0x076)
    ensures Power(424, 0x192)
  {
    Product(384, 40, 0x21c, 0x076, 0x192);
  }

  lemma Powers429()
    requires Power(424, 0x192) && Power(2, 0x004) && Power(5, 0x020)
    ensures Power(426, 0x36b) && Power(429, 0x0b1)
  {
    ShortProduct(424, 2, 0x192, 0x004, 0x36b);
    Product(424, 5, 0x192, 0x020, 0x0b1);
  }

  /** A third, an eleventh and a 31st of the order, and the powers next to them. */
  lemma OddPowers()
    ensures Power(33, 0x0b0) && Power(429, 0x0b1) && Power(93, 0x36a) && Power(426, 0x36b)
    ensures Power(341, 0x036) && Power(682, 0x037)
  {
    Squares();
    Powers33();
    Powers93();
    MorePowers93();
    Powers341();
    Powers682();
    Powers424();
    MorePowers424();
    Powers429();
  }

  lemma Powers24()
    requires Power(16, 0x119) && Power(8, 0x100) && Power(1, 0x002)
    ensures Power(24, 0x3f0) && Power(25, 0x2c3)
  {
    Product(16, 8, 0x119, 0x100, 0x3f0);
    ShortProduct(24, 1, 0x3f0, 0x002, 0x2c3);
  }

  lemma Powers26()
    requires Power(25, 0x2c3) && Power(1, 0x002)
    ensures Power(26, 0x0a5)
  {
    ShortProduct(25, 1, 0x2c3, 0x002, 0x0a5);
  }

  /** The roots of the generator. */
  lemma RootPowers()
    ensures Power(24, 0x3f0) && Power(25, 0x2c3) && Power(26, 0x0a5)
  {
    Squares();
    Powers24();
    Powers26();
  }

  lemma Whole(w: bv10)
    ensures Fixed(FIELD, 1023, w)
  {
    Squares();
    TurnMul(1024, 2, w);
    TurnMul(1, 2, w);
    TurnAdd(FIELD, 1, 1023, w);
    AddVectors();
    RootTurns();
    TurnInjective(FIELD, 1, Turn(FIELD, 1023, w), w);
  }

  /** If a power plus one is a power, multiplication by it changes all but zero. */
  lemma Changes(n: nat, g: bv10, j: nat, w: bv10)
    requires Power(n, g) && Power(j, Add(g, 1)) && Fixed(FIELD, n, w)
    ensures w == 0
  {
    TurnMul(n, g, w);
    TurnMul(j, Add(g, 1), w);
    HornerAdds(g, 1, w, 10);
    FitsTen(w);
    Polynomial(w, 10);
    AddCommutes(w, w);
    RootTurns();
    TurnKernel(FIELD, j, w);
  }

  lemma FieldCyclic()
    ensures Cyclic(FIELD)
  {
    OddPowers();
    assert Add(0x0b0, 1) == 0x0b1 && Add(0x36a, 1) == 0x36b && Add(0x036, 1) == 0x037;
    forall w: bv10 ensures Fixed(FIELD, 1023, w) { Whole(w); }
    forall w: bv10 | Fixed(FIELD, 33, w) ensures w == 0 { Changes(33, 0x0b0, 429, w); }
    forall w: bv10 | Fixed(FIELD, 93, w) ensures w == 0 { Changes(93, 0x36a, 426, w); }
    forall w: bv10 | Fixed(FIELD, 341, w) ensures w == 0 { Changes(341, 0x036, 682, w); }
  }

  lemma FieldRotates()
    ensures Rotates(FIELD)
  {
    AddVectors();
    RootTurns();
    FieldCyclic();
  }

  // ---- Symbols in the field ----

  /** A symbol of GF(32) in GF(1024). */
  function Place(v: bv32): bv10 {
    Add(Add(Add(Add(Pick(v & 1 != 0, 1), Pick(v & 2 != 0, 0x00e)), Pick(v & 4 != 0, 0x054)), Pick(v & 8 != 0, 0x358)),
        Pick(v & 16 != 0, 0x0bf))
  }

  lemma PickAdds(a: bool, b: bool, g: bv10)
    ensures Pick(a != b, g) == Add(Pick(a, g), Pick(b, g))
  {
  }

  lemma BitAdds(v: bv32, w: bv32, b: bv32)
    requires b == 1 || b == 2 || b == 4 || b == 8 || b == 16
    ensures (Sum(v, w) & b != 0) == ((v & b != 0) != (w & b != 0))
  {
  }

  lemma PlaceBitAdds(v: bv32, w: bv32, b: bv32, g: bv10)
    requires b == 1 || b == 2 || b == 4 || b == 8 || b == 16
    ensures Pick(Sum(v, w) & b != 0, g) == Add(Pick(v & b != 0, g), Pick(w & b != 0, g))
  {
    BitAdds(v, w, b);
    PickAdds(v & b != 0, w & b != 0, g);
  }

  lemma PlaceAdds(v: bv32, w: bv32)
    ensures Place(Sum(v, w)) == Add(Place(v), Place(w))
  {
    var a1, b1 := Pick(v & 1 != 0, 1), Pick(w & 1 != 0, 1);
    var a2, b2 := Pick(v & 2 != 0, 0x00e), Pick(w & 2 != 0, 0x00e);
    var a3, b3 := Pick(v & 4 != 0, 0x054), Pick(w & 4 != 0, 0x054);
    var a4, b4 := Pick(v & 8 != 0, 0x358), Pick(w & 8 != 0, 0x358);
    var a5, b5 := Pick(v & 16 != 0, 0x0bf), Pick(w & 16 != 0, 0x0bf);
    PlaceBitAdds(v, w, 1, 1);
    PlaceBitAdds(v, w, 2, 0x00e);
    PlaceBitAdds(v, w, 4, 0x054);
    PlaceBitAdds(v, w, 8, 0x358);
    PlaceBitAdds(v, w, 16, 0x0bf);
    AddPairs(a1, b1, a2, b2);
    AddPairs(Add(a1, a2), Add(b1, b2), a3, b3);
    AddPairs(Add(Add(a1, a2), a3), Add(Add(b1, b2), b3), a4, b4);
    AddPairs(Add(Add(Add(a1, a2), a3), a4), Add(Add(Add(b1, b2), b3), b4), a5, b5);
  }

  lemma PlaceKernel(v: bv32)
    requires v < 32 && Place(v) == 0
    ensures v == 0
  {
  }

  // ---- The steps of PolyMod ----

  /** A state moved up by a symbol. */
  function Moved(c: bv32, v: bv32): bv32 {
    Sum(Up(c), v)
  }

  function Multiple(s: bv32, b: bv32, k: bv32): bv32 {
    if s & b != 0 then k else 0
  }

  /** What x^6 times a symbol is reduced to. */
  function Reduced(s: bv32): bv32 {
    Sum(Sum(Sum(Sum(Multiple(s, 1, 0x3b6a57b2), Multiple(s, 2, 0x26508e6d)), Multiple(s, 4, 0x1ea119fa)),
            Multiple(s, 8, 0x3d4233dd)), Multiple(s, 16, 0x2a1462b3))
  }

  const GENERATOR: Generator<bv32, bv10> := Generator(FIELD, 24, Place, Moved, Reduced)

  lemma TopMultiple(c: bv32, b: bv32, k: bv32)
    requires b == 1 || b == 2 || b == 4 || b == 8 || b == 16
    ensures Multiple((c >> 25) & 31, b, k) == Term(c, b, k)
  {
  }

  lemma SumFive(m: bv32, a: bv32, b: bv32, c: bv32, d: bv32, e: bv32)
    ensures Sum(Sum(Sum(Sum(Sum(m, a), b), c), d), e) == Sum(m, Sum(Sum(Sum(Sum(a, b), c), d), e))
  {
    SumAssoc(m, a, b);
    SumAssoc(m, Sum(a, b), c);
    SumAssoc(m, Sum(Sum(a, b), c), d);
    SumAssoc(m, Sum(Sum(Sum(a, b), c), d), e);
  }

  lemma StepIs(c: bv32, v: bv32)
    ensures Step(c, v) == Sum(Moved(c, v), Reduced((c >> 25) & 31))
  {
    TopMultiple(c, 1, 0x3b6a57b2);
    TopMultiple(c, 2, 0x26508e6d);
    TopMultiple(c, 4, 0x1ea119fa);
    TopMultiple(c, 8, 0x3d4233dd);
    TopMultiple(c, 16, 0x2a1462b3);
    SumFive(Moved(c, v), Term(c, 1, 0x3b6a57b2), Term(c, 2, 0x26508e6d), Term(c, 4, 0x1ea119fa),
            Term(c, 8, 0x3d4233dd), Term(c, 16, 0x2a1462b3));
  }

  lemma MovedSymbol(c: bv32, v: bv32, j: nat)
    requires c < 0x40000000 && v < 32 && j < 6
    ensures Symbol(Moved(c, v), j) == if j < 5 then Symbol(c, j + 1) else v
  {
  }

  lemma MovedSix(c: bv32, v: bv32)
    requires c < 0x40000000 && v < 32
    ensures Six(BECH, Moved(c, v)) == Six(BECH, c)[1..] + [v]
  {
    SymbolSix(c);
    SymbolSix(Moved(c, v));
    MovedSymbol(c, v, 0);
    MovedSymbol(c, v, 1);
    MovedSymbol(c, v, 2);
    MovedSymbol(c, v, 3);
    MovedSymbol(c, v, 4);
    MovedSymbol(c, v, 5);
  }

  lemma BechMoves()
    ensures Moves(BECH, GENERATOR)
  {
    forall c, v | BECH.isState(c) && BECH.isSymbol(v) ensures StepMoves(BECH, GENERATOR, c, v) {
      SymbolSix(c);
      StepIs(c, v);
      MovedSix(c, v);
    }
  }

  lemma HighXor(c: bv32, d: bv32, x: bv32, y: bv32, z: bv32)
    requires x == c >> 5 && y == d >> 5 && z == c ^ d
    ensures z >> 5 == x ^ y
  {
  }

  lemma LowXor(c: bv32, d: bv32, x: bv32, y: bv32, z: bv32)
    requires x == c & 31 && y == d & 31 && z == c ^ d
    ensures z & 31 == x ^ y
  {
  }

  lemma BechLowAdds(c: bv32, d: bv32)
    ensures BECH.low(BECH.add(c, d)) == BECH.add(BECH.low(c), BECH.low(d))
  {
    LowXor(c, d, c & 31, d & 31, Sum(c, d));
  }

  lemma BechHighAdds(c: bv32, d: bv32)
    ensures BECH.high(BECH.add(c, d)) == BECH.add(BECH.high(c), BECH.high(d))
  {
    HighXor(c, d, c >> 5, d >> 5, Sum(c, d));
  }

  lemma BechPlaceAdds(v: bv32, w: bv32)
    ensures GENERATOR.place(BECH.add(v, w)) == GENERATOR.space.add(GENERATOR.place(v), GENERATOR.place(w))
  {
    PlaceAdds(v, w);
  }

  lemma BechCutsAdd(c: bv32, d: bv32)
    ensures CutsAdd(BECH, c, d)
  {
    BechLowAdds(c, d);
    BechHighAdds(c, d);
  }

  lemma BechAdditive()
    ensures Additive(BECH, GENERATOR)
  {
    forall c: bv32, d: bv32 ensures CutsAdd(BECH, c, d) { BechCutsAdd(c, d); }
    forall v: bv32, w: bv32 ensures PlacesAdd(BECH, GENERATOR, v, w) { BechPlaceAdds(v, w); }
  }

  lemma BechFaithful()
    ensures Faithful(BECH, GENERATOR)
  {
    forall v: bv32 | BECH.isSymbol(v) && GENERATOR.place(v) == GENERATOR.space.zero ensures v == BECH.zero {
      PlaceKernel(v);
    }
  }

  // ---- The generator at its roots ----

  lemma PowerTurns(n: nat, g: bv10, w: bv10, x: bv10)
    requires Power(n, g) && Five(g, w, Five(g, w >> 5, 0)) == x
    ensures Turn(FIELD, n, w) == x
  {
    TurnMul(n, g, w);
    MulFive(g, w);
  }

  lemma ShortTurns(n: nat, g: bv10, w: bv10, x: bv10)
    requires Power(n, g) && w < 32 && Five(g, w, 0) == x
    ensures Turn(FIELD, n, w) == x
  {
    TurnMul(n, g, w);
    MulShort(g, w);
  }

  /** k(x) */
  const K1: seq<bv10> := [0x3b2, 0x0e5, 0x0eb, 0x0ea, 0x3b2, 0x0b1]
  /** {2}k(x) */
  const K2: seq<bv10> := [0x0b0, 0x055, 0x001, 0x00f, 0x0b0, 0x30d]
  /** {4}k(x) */
  const K4: seq<bv10> := [0x303, 0x356, 0x00e, 0x05a, 0x303, 0x3e9]
  /** {8}k(x) */
  const K8: seq<bv10> := [0x3bd, 0x0eb, 0x054, 0x30c, 0x3bd, 0x3b2]
  /** {16}k(x) */
  const K16: seq<bv10> := [0x0ea, 0x001, 0x358, 0x3e7, 0x0ea, 0x0b0]

  lemma PlacesK1()
    ensures Places(BECH, GENERATOR, 0x3b6a57b2) == K1
  {
    SymbolSix(0x3b6a57b2);
    assert Six(BECH, 0x3b6a57b2) == [29, 22, 20, 21, 29, 18];
    assert Place(29) == 0x3b2;
    assert Place(22) == 0x0e5;
    assert Place(20) == 0x0eb;
    assert Place(21) == 0x0ea;
    assert Place(18) == 0x0b1;
  }

  lemma PlacesK2()
    ensures Places(BECH, GENERATOR, 0x26508e6d) == K2
  {
    SymbolSix(0x26508e6d);
    assert Six(BECH, 0x26508e6d) == [19, 5, 1, 3, 19, 13];
    assert Place(19) == 0x0b0;
    assert Place(5) == 0x055;
    assert Place(1) == 0x001;
    assert Place(3) == 0x00f;
    assert Place(13) == 0x30d;
  }

  lemma PlacesK4()
    ensures Places(BECH, GENERATOR, 0x1ea119fa) == K4
  {
    SymbolSix(0x1ea119fa);
    assert Six(BECH, 0x1ea119fa) == [15, 10, 2, 6, 15, 26];
    assert Place(15) == 0x303;
    assert Place(10) == 0x356;
    assert Place(2) == 0x00e;
    assert Place(6) == 0x05a;
    assert Place(26) == 0x3e9;
  }

  lemma PlacesK8()
    ensures Places(BECH, GENERATOR, 0x3d4233dd) == K8
  {
    SymbolSix(0x3d4233dd);
    assert Six(BECH, 0x3d4233dd) == [30, 20, 4, 12, 30, 29];
    assert Place(30) == 0x3bd;
    assert Place(20) == 0x0eb;
    assert Place(4) == 0x054;
    assert Place(12) == 0x30c;
    assert Place(29) == 0x3b2;
  }

  lemma PlacesK16()
    ensures Places(BECH, GENERATOR, 0x2a1462b3) == K16
  {
    SymbolSix(0x2a1462b3);
    assert Six(BECH, 0x2a1462b3) == [21, 1, 8, 24, 21, 19];
    assert Place(21) == 0x0ea;
    assert Place(1) == 0x001;
    assert Place(8) == 0x358;
    assert Place(24) == 0x3e7;
    assert Place(19) == 0x0b0;
  }

  lemma Powers144()
    requires Power(4, 0x010) && Power(2, 0x004) && Power(128, 0x346) && Power(16, 0x119)
    ensures Power(6, 0x040) && Power(144, 0x2ba)
  {
    ShortProduct(4, 2, 0x010, 0x004, 0x040);
    Product(128, 16, 0x346, 0x119, 0x2ba);
  }

  lemma Powers156()
    requires Power(144, 0x2ba) && Power(6, 0x040)
    ensures Power(150, 0x0a6) && Power(156, 0x098)
  {
    Product(144, 6, 0x2ba, 0x040, 0x0a6);
    Product(150, 6, 0x0a6, 0x040, 0x098);
  }

  lemma Powers412()
    requires Power(256, 0x1e5) && Power(128, 0x346) && Power(24, 0x3f0)
    ensures Power(384, 0x21c) && Power(408, 0x3cb)
  {
    Product(256, 128, 0x1e5, 0x346, 0x21c);
    Product(384, 24, 0x21c, 0x3f0, 0x3cb);
  }

  lemma Powers924()
    requires Power(408, 0x3cb) && Power(4, 0x010) && Power(512, 0x21b)
    ensures Power(412, 0x124) && Power(924, 0x00e)
  {
    ShortProduct(408, 4, 0x3cb, 0x010, 0x124);
    Product(512, 412, 0x21b, 0x124, 0x00e);
  }

  /** The powers for the primitive element of GF(32) and for x^6 at the roots. */
  lemma SymbolPowers()
    ensures Power(924, 0x00e) && Power(144, 0x2ba) && Power(150, 0x0a6) && Power(156, 0x098)
  {
    Squares();
    RootPowers();
    Powers144();
    Powers156();
    Powers412();
    Powers924();
  }

  lemma FirstTwice1(m: nat)
    requires Power(m, 0x00e)
    ensures |K1| == |K2| == 6 && forall i :: 0 <= i < 3 ==> K2[i] == Turn(FIELD, m, K1[i])
  {
    PowerTurns(m, 0x00e, 0x3b2, 0x0b0);
    PowerTurns(m, 0x00e, 0x0e5, 0x055);
    PowerTurns(m, 0x00e, 0x0eb, 0x001);
  }

  lemma LastTwice1(m: nat)
    requires Power(m, 0x00e)
    ensures |K1| == |K2| == 6 && forall i :: 3 <= i < 6 ==> K2[i] == Turn(FIELD, m, K1[i])
  {
    PowerTurns(m, 0x00e, 0x0ea, 0x00f);
    PowerTurns(m, 0x00e, 0x3b2, 0x0b0);
    PowerTurns(m, 0x00e, 0x0b1, 0x30d);
  }

  lemma TimesTwo1(m: nat)
    requires Power(m, 0x00e)
    ensures |K1| == |K2| == 6 && forall i :: 0 <= i < 6 ==> K2[i] == Turn(FIELD, m, K1[i])
    ensures Turn(FIELD, m, 0x001) == 0x00e
  {
    FirstTwice1(m);
    LastTwice1(m);
    ShortTurns(m, 0x00e, 0x001, 0x00e);
  }

  lemma FirstTwice2(m: nat)
    requires Power(m, 0x00e)
    ensures |K2| == |K4| == 6 && forall i :: 0 <= i < 3 ==> K4[i] == Turn(FIELD, m, K2[i])
  {
    PowerTurns(m, 0x00e, 0x0b0, 0x303);
    PowerTurns(m, 0x00e, 0x055, 0x356);
    ShortTurns(m, 0x00e, 0x001, 0x00e);
  }

  lemma LastTwice2(m: nat)
    requires Power(m, 0x00e)
    ensures |K2| == |K4| == 6 && forall i :: 3 <= i < 6 ==> K4[i] == Turn(FIELD, m, K2[i])
  {
    ShortTurns(m, 0x00e, 0x00f, 0x05a);
    PowerTurns(m, 0x00e, 0x0b0, 0x303);
    PowerTurns(m, 0x00e, 0x30d, 0x3e9);
  }

  lemma TimesTwo2(m: nat)
    requires Power(m, 0x00e)
    ensures |K2| == |K4| == 6 && forall i :: 0 <= i < 6 ==> K4[i] == Turn(FIELD, m, K2[i])
    ensures Turn(FIELD, m, 0x00e) == 0x054
  {
    FirstTwice2(m);
    LastTwice2(m);
    ShortTurns(m, 0x00e, 0x00e, 0x054);
  }

  lemma FirstTwice4(m: nat)
    requires Power(m, 0x00e)
    ensures |K4| == |K8| == 6 && forall i :: 0 <= i < 3 ==> K8[i] == Turn(FIELD, m, K4[i])
  {
    PowerTurns(m, 0x00e, 0x303, 0x3bd);
    PowerTurns(m, 0x00e, 0x356, 0x0eb);
    ShortTurns(m, 0x00e, 0x00e, 0x054);
  }

  lemma LastTwice4(m: nat)
    requires Power(m, 0x00e)
    ensures |K4| == |K8| == 6 && forall i :: 3 <= i < 6 ==> K8[i] == Turn(FIELD, m, K4[i])
  {
    PowerTurns(m, 0x00e, 0x05a, 0x30c);
    PowerTurns(m, 0x00e, 0x303, 0x3bd);
    PowerTurns(m, 0x00e, 0x3e9, 0x3b2);
  }

  lemma TimesTwo4(m: nat)
    requires Power(m, 0x00e)
    ensures |K4| == |K8| == 6 && forall i :: 0 <= i < 6 ==> K8[i] == Turn(FIELD, m, K4[i])
    ensures Turn(FIELD, m, 0x054) == 0x358
  {
    FirstTwice4(m);
    LastTwice4(m);
    PowerTurns(m, 0x00e, 0x054, 0x358);
  }

  lemma FirstTwice8(m: nat)
    requires Power(m, 0x00e)
    ensures |K8| == |K16| == 6 && forall i :: 0 <= i < 3 ==> K16[i] == Turn(FIELD, m, K8[i])
  {
    PowerTurns(m, 0x00e, 0x3bd, 0x0ea);
    PowerTurns(m, 0x00e, 0x0eb, 0x001);
    PowerTurns(m, 0x00e, 0x054, 0x358);
  }

  lemma LastTwice8(m: nat)
    requires Power(m, 0x00e)
    ensures |K8| == |K16| == 6 && forall i :: 3 <= i < 6 ==> K16[i] == Turn(FIELD, m, K8[i])
  {
    PowerTurns(m, 0x00e, 0x30c, 0x3e7);
    PowerTurns(m, 0x00e, 0x3bd, 0x0ea);
    PowerTurns(m, 0x00e, 0x3b2, 0x0b0);
  }

  lemma TimesTwo8(m: nat)
    requires Power(m, 0x00e)
    ensures |K8| == |K16| == 6 && forall i :: 0 <= i < 6 ==> K16[i] == Turn(FIELD, m, K8[i])
    ensures Turn(FIELD, m, 0x358) == 0x0bf
  {
    FirstTwice8(m);
    LastTwice8(m);
    PowerTurns(m, 0x00e, 0x358, 0x0bf);
  }

  lemma FieldValueSix(n: nat, ps: seq<bv10>, t1: bv10, t2: bv10, t3: bv10, t4: bv10, t5: bv10)
    requires |ps| == 6
    requires Turn(FIELD, n, ps[0]) == t1 && Turn(FIELD, n, Add(t1, ps[1])) == t2 && Turn(FIELD, n, Add(t2, ps[2])) == t3
    requires Turn(FIELD, n, Add(t3, ps[3])) == t4 && Turn(FIELD, n, Add(t4, ps[4])) == t5
    ensures Value(FIELD, n, ps) == Add(t5, ps[5])
  {
    AddVectors();
    RootTurns();
    ValueSix(FIELD, n, ps, t1, t2, t3, t4, t5);
  }

  lemma FirstValues24()
    requires Power(24, 0x3f0)
    ensures Turn(FIELD, 24, 0x3b2) == 0x098
    ensures Turn(FIELD, 24, 0x07d) == 0x096
  {
    PowerTurns(24, 0x3f0, 0x3b2, 0x098);
    PowerTurns(24, 0x3f0, 0x07d, 0x096);
  }

  lemma LastValues24()
    requires Power(24, 0x3f0)
    ensures Turn(FIELD, 24, 0x07c) == 0x366
    ensures Turn(FIELD, 24, 0x0d4) == 0x20b
  {
    PowerTurns(24, 0x3f0, 0x07c, 0x366);
    PowerTurns(24, 0x3f0, 0x0d4, 0x20b);
  }

  lemma ValueK24()
    requires Power(24, 0x3f0)
    ensures Value(FIELD, 24, K1) == 0x2ba
  {
    FirstValues24();
    LastValues24();
    FieldValueSix(24, K1, 0x098, 0x096, 0x096, 0x366, 0x20b);
  }

  lemma FirstValues25()
    requires Power(25, 0x2c3)
    ensures Turn(FIELD, 25, 0x3b2) == 0x130
    ensures Turn(FIELD, 25, 0x1d5) == 0x346
    ensures Turn(FIELD, 25, 0x3ad) == 0x083
  {
    PowerTurns(25, 0x2c3, 0x3b2, 0x130);
    PowerTurns(25, 0x2c3, 0x1d5, 0x346);
    PowerTurns(25, 0x2c3, 0x3ad, 0x083);
  }

  lemma LastValues25()
    requires Power(25, 0x2c3)
    ensures Turn(FIELD, 25, 0x069) == 0x06d
    ensures Turn(FIELD, 25, 0x3df) == 0x017
  {
    PowerTurns(25, 0x2c3, 0x069, 0x06d);
    PowerTurns(25, 0x2c3, 0x3df, 0x017);
  }

  lemma ValueK25()
    requires Power(25, 0x2c3)
    ensures Value(FIELD, 25, K1) == 0x0a6
  {
    FirstValues25();
    LastValues25();
    FieldValueSix(25, K1, 0x130, 0x346, 0x083, 0x06d, 0x017);
  }

  lemma FirstValues26()
    requires Power(26, 0x0a5)
    ensures Turn(FIELD, 26, 0x3b2) == 0x260
    ensures Turn(FIELD, 26, 0x285) == 0x041
    ensures Turn(FIELD, 26, 0x0aa) == 0x1dd
  {
    PowerTurns(26, 0x0a5, 0x3b2, 0x260);
    PowerTurns(26, 0x0a5, 0x285, 0x041);
    PowerTurns(26, 0x0a5, 0x0aa, 0x1dd);
  }

  lemma LastValues26()
    requires Power(26, 0x0a5)
    ensures Turn(FIELD, 26, 0x137) == 0x221
    ensures Turn(FIELD, 26, 0x193) == 0x029
  {
    PowerTurns(26, 0x0a5, 0x137, 0x221);
    PowerTurns(26, 0x0a5, 0x193, 0x029);
  }

  lemma ValueK26()
    requires Power(26, 0x0a5)
    ensures Value(FIELD, 26, K1) == 0x098
  {
    FirstValues26();
    LastValues26();
    FieldValueSix(26, K1, 0x260, 0x041, 0x1dd, 0x221, 0x029);
  }

  /** x^6 times a symbol is worth w, and its remainder c has the same value. */
  ghost predicate Reduces(n: nat, c: bv32, w: bv10) {
    At(BECH, GENERATOR, n, c) == Turn(FIELD, Angle(n, 6), w)
  }

  lemma ReducesNext(n: nat, m: nat, ps: seq<bv10>, qs: seq<bv10>, w: bv10)
    requires Value(FIELD, n, ps) == Turn(FIELD, Angle(n, 6), w)
    requires |ps| == |qs| && forall i :: 0 <= i < |ps| ==> qs[i] == Turn(FIELD, m, ps[i])
    ensures Value(FIELD, n, qs) == Turn(FIELD, Angle(n, 6), Turn(FIELD, m, w))
  {
    AddVectors();
    RootTurns();
    TurnedReduced(FIELD, n, m, ps, qs, w);
  }

  lemma ReducesAll(n: nat, m: nat)
    requires Power(m, 0x00e) && Value(FIELD, n, K1) == Turn(FIELD, Angle(n, 6), 1)
    ensures Reduces(n, 0x3b6a57b2, 1) && Reduces(n, 0x26508e6d, 0x00e) && Reduces(n, 0x1ea119fa, 0x054)
    ensures Reduces(n, 0x3d4233dd, 0x358) && Reduces(n, 0x2a1462b3, 0x0bf)
  {
    TimesTwo1(m);
    ReducesNext(n, m, K1, K2, 0x001);
    TimesTwo2(m);
    ReducesNext(n, m, K2, K4, 0x00e);
    TimesTwo4(m);
    ReducesNext(n, m, K4, K8, 0x054);
    TimesTwo8(m);
    ReducesNext(n, m, K8, K16, 0x358);
    PlacesK1();
    PlacesK2();
    PlacesK4();
    PlacesK8();
    PlacesK16();
  }

  ghost predicate AtAdd(at: bv32 -> bv10, c: bv32, d: bv32) {
    at(Sum(c, d)) == Add(at(c), at(d))
  }

  ghost predicate TurnedAdd(turned: bv10 -> bv10, a: bv10, b: bv10) {
    turned(Add(a, b)) == Add(turned(a), turned(b))
  }

  ghost predicate Agree(at: bv32 -> bv10, turned: bv10 -> bv10, c: bv32, w: bv10) {
    at(c) == turned(w)
  }

  lemma AgreeBit(at: bv32 -> bv10, turned: bv10 -> bv10, s: bv32, b: bv32, k: bv32, w: bv10)
    requires Agree(at, turned, 0, 0) && Agree(at, turned, k, w)
    ensures Agree(at, turned, Multiple(s, b, k), Pick(s & b != 0, w))
  {
  }

  lemma AgreeSum(at: bv32 -> bv10, turned: bv10 -> bv10, c: bv32, d: bv32, w: bv10, x: bv10)
    requires AtAdd(at, c, d) && TurnedAdd(turned, w, x) && Agree(at, turned, c, w) && Agree(at, turned, d, x)
    ensures Agree(at, turned, Sum(c, d), Add(w, x))
  {
  }

  /** What adds up and agrees for each bit agrees for every symbol. */
  lemma BitByBit(at: bv32 -> bv10, turned: bv10 -> bv10, s: bv32)
    requires forall c, d {:trigger AtAdd(at, c, d)} :: AtAdd(at, c, d)
    requires forall a, b {:trigger TurnedAdd(turned, a, b)} :: TurnedAdd(turned, a, b)
    requires Agree(at, turned, 0, 0)
    requires Agree(at, turned, 0x3b6a57b2, 1) && Agree(at, turned, 0x26508e6d, 0x00e)
    requires Agree(at, turned, 0x1ea119fa, 0x054) && Agree(at, turned, 0x3d4233dd, 0x358)
    requires Agree(at, turned, 0x2a1462b3, 0x0bf)
    ensures Agree(at, turned, Reduced(s), Place(s))
  {
    var c1, w1 := Multiple(s, 1, 0x3b6a57b2), Pick(s & 1 != 0, 1);
    var c2, w2 := Multiple(s, 2, 0x26508e6d), Pick(s & 2 != 0, 0x00e);
    var c3, w3 := Multiple(s, 4, 0x1ea119fa), Pick(s & 4 != 0, 0x054);
    var c4, w4 := Multiple(s, 8, 0x3d4233dd), Pick(s & 8 != 0, 0x358);
    var c5, w5 := Multiple(s, 16, 0x2a1462b3), Pick(s & 16 != 0, 0x0bf);
    AgreeBit(at, turned, s, 1, 0x3b6a57b2, 1);
    AgreeBit(at, turned, s, 2, 0x26508e6d, 0x00e);
    AgreeBit(at, turned, s, 4, 0x1ea119fa, 0x054);
    AgreeBit(at, turned, s, 8, 0x3d4233dd, 0x358);
    AgreeBit(at, turned, s, 16, 0x2a1462b3, 0x0bf);
    AgreeSum(at, turned, c1, c2, w1, w2);
    AgreeSum(at, turned, Sum(c1, c2), c3, Add(w1, w2), w3);
    AgreeSum(at, turned, Sum(Sum(c1, c2), c3), c4, Add(Add(w1, w2), w3), w4);
    AgreeSum(at, turned, Sum(Sum(Sum(c1, c2), c3), c4), c5, Add(Add(Add(w1, w2), w3), w4), w5);
  }

  lemma FieldAtAdds(n: nat, c: bv32, d: bv32)
    ensures At(BECH, GENERATOR, n, Sum(c, d)) == Add(At(BECH, GENERATOR, n, c), At(BECH, GENERATOR, n, d))
  {
    AddVectors();
    RootTurns();
    BechAdditive();
    AtAdds(BECH, GENERATOR, n, c, d);
  }

  lemma FieldAtZero(n: nat)
    ensures At(BECH, GENERATOR, n, 0) == 0
  {
    FieldRotates();
    BechAdditive();
    AddNothing();
    AtZero(BECH, GENERATOR, n);
  }

  lemma AddNothing()
    ensures BECH.add(BECH.zero, BECH.zero) == BECH.zero
  {
  }

  lemma TurnAdds(n: nat, a: bv10, b: bv10)
    ensures Turn(FIELD, n, Add(a, b)) == Add(Turn(FIELD, n, a), Turn(FIELD, n, b))
  {
    RootTurns();
    TurnSum(FIELD, n, a, b);
  }

  function Evaluated(n: nat): bv32 -> bv10 {
    (c: bv32) => At(BECH, GENERATOR, n, c)
  }

  function Turned(n: nat): bv10 -> bv10 {
    (w: bv10) => Turn(FIELD, Angle(n, 6), w)
  }

  lemma ReducesAgree(n: nat, c: bv32, w: bv10)
    ensures Agree(Evaluated(n), Turned(n), c, w) == Reduces(n, c, w)
  {
  }

  lemma FieldAgree(n: nat, m: nat, at: bv32 -> bv10, turned: bv10 -> bv10)
    requires Power(m, 0x00e) && Value(FIELD, n, K1) == Turn(FIELD, Angle(n, 6), 1)
    requires at == Evaluated(n) && turned == Turned(n)
    ensures Agree(at, turned, 0, 0)
    ensures Agree(at, turned, 0x3b6a57b2, 1) && Agree(at, turned, 0x26508e6d, 0x00e)
    ensures Agree(at, turned, 0x1ea119fa, 0x054) && Agree(at, turned, 0x3d4233dd, 0x358)
    ensures Agree(at, turned, 0x2a1462b3, 0x0bf)
  {
    ReducesAll(n, m);
    FieldAtZero(n);
    TurnNone(Angle(n, 6));
    ReducesAgree(n, 0, 0);
    ReducesAgree(n, 0x3b6a57b2, 1);
    ReducesAgree(n, 0x26508e6d, 0x00e);
    ReducesAgree(n, 0x1ea119fa, 0x054);
    ReducesAgree(n, 0x3d4233dd, 0x358);
    ReducesAgree(n, 0x2a1462b3, 0x0bf);
  }

  lemma RootAtSymbol(n: nat, m: nat, s: bv32)
    requires Power(m, 0x00e) && Value(FIELD, n, K1) == Turn(FIELD, Angle(n, 6), 1)
    ensures Reduces(n, Reduced(s), Place(s))
  {
    var at, turned := Evaluated(n), Turned(n);
    FieldAgree(n, m, at, turned);
    forall c: bv32, d: bv32 ensures AtAdd(at, c, d) { FieldAtAdds(n, c, d); }
    forall a: bv10, b: bv10 ensures TurnedAdd(turned, a, b) { TurnAdds(Angle(n, 6), a, b); }
    BitByBit(at, turned, s);
    ReducesAgree(n, Reduced(s), Place(s));
  }

  lemma RootAt(n: nat, m: nat)
    requires Power(m, 0x00e) && Value(FIELD, n, K1) == Turn(FIELD, Angle(n, 6), 1)
    ensures Root(BECH, GENERATOR, n)
  {
    forall s: bv32 | BECH.isSymbol(s)
      ensures At(BECH, GENERATOR, n, GENERATOR.reduced(s)) == Turn(GENERATOR.space, Angle(n, 6), GENERATOR.place(s))
    {
      RootAtSymbol(n, m, s);
    }
  }

  lemma RootsAt()
    ensures Root(BECH, GENERATOR, 24) && Root(BECH, GENERATOR, 25) && Root(BECH, GENERATOR, 26)
  {
    RootPowers();
    SymbolPowers();
    ValueK24();
    ValueK25();
    ValueK26();
    RootAt(24, 924);
    RootAt(25, 924);
    RootAt(26, 924);
  }

  /** The generator of PolyMod has three consecutive roots. */
  lemma BechGenerated()
    ensures Generates(BECH, GENERATOR)
  {
    FieldRotates();
    BechAdditive();
    BechMoves();
    BechFaithful();
    RootsAt();
  }

  // ---- Verified values ----

  /** v and w are equal at all places but these. */
  ghost predicate SameBut(v: seq<byte>, w: seq<byte>, p: nat, q: nat, r: nat) {
    |v| == |w| && forall i :: 0 <= i < |v| && i != p && i != q && i != r ==> v[i] == w[i]
  }

  lemma ThreeIn(C: Code<bv32>, R: Roots<bv32, bv10>, e: seq<byte>, v: seq<byte>, w: seq<byte>, p: nat, q: nat, r: nat)
    requires ByteCode(C) && Designed(C, R) && FiveBit(e) && FiveBit(v) && FiveBit(w)
    requires Fold(C, 1, Widen(e + v)) == Fold(C, 1, Widen(e + w))
    requires SameBut(v, w, p, q, r) && p < q < r < |v| && r - p < 1023
    ensures v == w
  {
    var x, y := e + v, e + w;
    WidenSymbols(C, x);
    WidenSymbols(C, y);
    NoThree(C, R, 1, Widen(x), Widen(y), |e| + p, |e| + q, |e| + r);
    WidenSame(e, v, w);
  }

  /** Values that verify under one prefix never differ at three places or fewer within 1023. */
  lemma ValuesThree(e: seq<byte>, v: seq<byte>, w: seq<byte>, p: nat, q: nat, r: nat)
    requires FiveBit(e) && FiveBit(v) && FiveBit(w) && Verifies(e + v) && Verifies(e + w)
    requires SameBut(v, w, p, q, r) && p < q < r < |v| && r - p < 1023
    ensures v == w
  {
    BechByteCode();
    BechGenerated();
    GeneratedDesigned(BECH, GENERATOR);
    ThreeIn(BECH, RootsOf(BECH, GENERATOR), e, v, w, p, q, r);
  }
}
