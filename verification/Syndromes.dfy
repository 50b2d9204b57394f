/**
 Why a checksum of Checksums whose generator has three consecutive roots detects three
 errors: the states are evaluated at the roots, where a step is a turn, the multiplication
 by a power of a root of order 1023. The arithmetic is a parameter here, too.
 */
module Syndromes {
  import opened Checksums

  /** A vector space of characteristic two, and multiplication by the root. */
  datatype Space<!W(!new)> = Space(zero: W, add: (W, W) -> W, turn: W -> W)

  /** A sum does not depend on the order, and is zero for equal vectors only. */
  ghost predicate Commutes<W(!new)>(F: Space<W>, a: W, b: W) {
    F.add(a, b) == F.add(b, a) && (F.add(a, b) == F.zero <==> a == b)
  }

  ghost predicate Associates<W(!new)>(F: Space<W>, a: W, b: W, c: W) {
    F.add(F.add(a, b), c) == F.add(a, F.add(b, c))
  }

  ghost predicate Vectors<W(!new)>(F: Space<W>) {
    && (forall a {:trigger F.add(a, F.zero)} :: F.add(a, F.zero) == a)
    && (forall a, b {:trigger Commutes(F, a, b)} :: Commutes(F, a, b))
    && (forall a, b, c {:trigger Associates(F, a, b, c)} :: Associates(F, a, b, c))
  }

  ghost predicate Turns<W(!new)>(F: Space<W>) {
    && (forall a, b {:trigger F.turn(F.add(a, b))} :: F.turn(F.add(a, b)) == F.add(F.turn(a), F.turn(b)))
    && (forall a {:trigger F.turn(a)} :: F.turn(a) == F.zero ==> a == F.zero)
  }

  /** n turns. */
  function Turn<W(!new)>(F: Space<W>, n: nat, w: W): W {
    if n == 0 then w else F.turn(Turn(F, n - 1, w))
  }

  ghost predicate Fixed<W(!new)>(F: Space<W>, n: nat, w: W) {
    Turn(F, n, w) == w
  }

  /** 1023 turns change nothing; a third, an eleventh or a 31st of them changes all but zero. */
  ghost predicate Cyclic<W(!new)>(F: Space<W>) {
    forall w {:trigger Fixed(F, 1023, w)} ::
      Fixed(F, 1023, w) && (Fixed(F, 341, w) || Fixed(F, 93, w) || Fixed(F, 33, w) ==> w == F.zero)
  }

  ghost predicate Rotates<W(!new)>(F: Space<W>) {
    Vectors(F) && Turns(F) && Cyclic(F)
  }

  lemma {:induction false} TurnAdd<W(!new)>(F: Space<W>, m: nat, n: nat, w: W)
    ensures Turn(F, m + n, w) == Turn(F, m, Turn(F, n, w))
  {
    if m > 0 {
      TurnAdd(F, m - 1, n, w);
    }
  }

  lemma {:induction false} TurnSum<W(!new)>(F: Space<W>, n: nat, a: W, b: W)
    requires Turns(F)
    ensures Turn(F, n, F.add(a, b)) == F.add(Turn(F, n, a), Turn(F, n, b))
  {
    if n > 0 {
      TurnSum(F, n - 1, a, b);
    }
  }

  lemma {:induction false} TurnKernel<W(!new)>(F: Space<W>, n: nat, w: W)
    requires Turns(F) && Turn(F, n, w) == F.zero
    ensures w == F.zero
  {
    if n > 0 {
      TurnKernel(F, n - 1, w);
    }
  }

  lemma TurnZero<W(!new)>(F: Space<W>, n: nat)
    requires Vectors(F) && Turns(F)
    ensures Turn(F, n, F.zero) == F.zero
  {
    var t := Turn(F, n, F.zero);
    TurnSum(F, n, F.zero, F.zero);
    assert Commutes(F, F.zero, F.zero) && Commutes(F, t, t);
  }

  lemma TurnInjective<W(!new)>(F: Space<W>, n: nat, a: W, b: W)
    requires Vectors(F) && Turns(F) && Turn(F, n, a) == Turn(F, n, b)
    ensures a == b
  {
    TurnSum(F, n, a, b);
    assert Commutes(F, Turn(F, n, a), Turn(F, n, b)) && Commutes(F, a, b);
    TurnKernel(F, n, F.add(a, b));
  }

  // ---- The order of the root ----

  lemma {:induction false} FixedTimes<W(!new)>(F: Space<W>, n: nat, k: nat, w: W)
    requires Fixed(F, n, w)
    ensures Fixed(F, n * k, w)
  {
    if k > 0 {
      FixedTimes(F, n, k - 1, w);
      TurnAdd(F, n, n * (k - 1), w);
      assert n + n * (k - 1) == n * k;
    }
  }

  /** If d turns change nothing and d has an inverse k modulo p, then 1023 / p turns do not. */
  lemma FixedPart<W(!new)>(F: Space<W>, d: nat, k: nat, p: nat, c: nat, m: nat, w: W)
    requires Cyclic(F) && Fixed(F, d, w) && p * c == 1023 && d * k == p * m + 1
    ensures Fixed(F, c, w)
  {
    assert Fixed(F, 1023, w);
    assert Fixed(F, 1023 * m, w) by { FixedTimes(F, 1023, m, w); }
    assert Fixed(F, d * k * c, w) by { FixedTimes(F, d, k, w); FixedTimes(F, d * k, c, w); }
    assert d * k * c == c + 1023 * m by { Parts(d * k, p, c, m); }
    TurnAdd(F, c, 1023 * m, w);
  }

  lemma Parts(n: nat, p: nat, c: nat, m: nat)
    requires n == p * m + 1 && p * c == 1023
    ensures n * c == c + 1023 * m
  {
    assert n * c == p * m * c + c && p * m * c == p * c * m;
  }

  /** Inverses modulo 31, 11 and 3. */
  function Inverse(p: nat, r: nat): nat {
    if p == 31 then
      match r
      case 1 => 1 case 2 => 16 case 3 => 21 case 4 => 8 case 5 => 25 case 6 => 26 case 7 => 9 case 8 => 4
      case 9 => 7 case 10 => 28 case 11 => 17 case 12 => 13 case 13 => 12 case 14 => 20 case 15 => 29 case 16 => 2
      case 17 => 11 case 18 => 19 case 19 => 18 case 20 => 14 case 21 => 3 case 22 => 24 case 23 => 27 case 24 => 22
      case 25 => 5 case 26 => 6 case 27 => 23 case 28 => 10 case 29 => 15 case _ => 30
    else if p == 11 then
      match r
      case 1 => 1 case 2 => 6 case 3 => 4 case 4 => 3 case 5 => 9
      case 6 => 2 case 7 => 8 case 8 => 7 case 9 => 5 case _ => 10
    else r
  }

  ghost predicate Prime(p: nat) {
    p == 31 || p == 11 || p == 3
  }

  lemma InverseOf(p: nat, r: nat) returns (s: nat)
    requires Prime(p) && 0 < r < p
    ensures r * Inverse(p, r) == p * s + 1
  {
    var n := r * Inverse(p, r);
    s := if p == 31 then n / 31 else if p == 11 then n / 11 else n / 3;
  }

  lemma Divide(p: nat, d: nat) returns (q: nat, r: nat)
    requires Prime(p) && d % p != 0
    ensures d == p * q + r && 0 < r < p
  {
    q, r := if p == 31 then d / 31 else if p == 11 then d / 11 else d / 3, d % p;
  }

  lemma Compose(p: nat, q: nat, r: nat, k: nat, s: nat, d: nat)
    requires d == p * q + r && r * k == p * s + 1
    ensures d * k == p * (q * k + s) + 1
  {
    assert d * k == p * q * k + r * k && p * q * k == p * (q * k);
  }

  lemma FixedUnless<W(!new)>(F: Space<W>, d: nat, p: nat, c: nat, w: W)
    requires Cyclic(F) && Fixed(F, d, w) && Prime(p) && p * c == 1023 && d % p != 0
    ensures Fixed(F, c, w)
  {
    var q, r := Divide(p, d);
    var s := InverseOf(p, r);
    var k := Inverse(p, r);
    Compose(p, q, r, k, s, d);
    FixedPart(F, d, k, p, c, q * k + s, w);
  }

  lemma NotAll(d: nat)
    requires 0 < d < 1023
    ensures d % 31 != 0 || d % 11 != 0 || d % 3 != 0
  {
  }

  /** Fewer than 1023 turns, but not none, change every vector but zero. */
  lemma Order<W(!new)>(F: Space<W>, d: nat, w: W)
    requires Cyclic(F) && 0 < d < 1023 && Fixed(F, d, w)
    ensures w == F.zero
  {
    NotAll(d);
    if d % 31 != 0 {
      FixedUnless(F, d, 31, 33, w);
    } else if d % 11 != 0 {
      FixedUnless(F, d, 11, 93, w);
    } else {
      FixedUnless(F, d, 3, 341, w);
    }
    assert Fixed(F, 1023, w);
  }

  lemma TurnsDiffer<W(!new)>(F: Space<W>, i: nat, j: nat, w: W)
    requires Rotates(F) && i < j < i + 1023 && Turn(F, i, w) == Turn(F, j, w)
    ensures w == F.zero
  {
    TurnAdd(F, i, j - i, w);
    TurnInjective(F, i, w, Turn(F, j - i, w));
    Order(F, j - i, w);
  }

  // ---- Three roots ----

  lemma Swap<W(!new)>(F: Space<W>, a: W, b: W, c: W, d: W)
    requires Vectors(F) && F.add(a, b) == F.add(c, d)
    ensures F.add(a, c) == F.add(b, d)
  {
    assert Commutes(F, F.add(a, b), F.add(c, d));
    Pairs(F, a, b, c, d);
    assert Commutes(F, F.add(a, c), F.add(b, d));
  }

  lemma Pairs<W(!new)>(F: Space<W>, a: W, b: W, c: W, d: W)
    requires Vectors(F)
    ensures F.add(F.add(a, b), F.add(c, d)) == F.add(F.add(a, c), F.add(b, d))
  {
    assert Associates(F, a, b, F.add(c, d)) && Associates(F, b, c, d);
    assert Commutes(F, b, c);
    assert Associates(F, c, b, d) && Associates(F, a, c, F.add(b, d));
  }

  /** n turns and none, added up. */
  function Change<W(!new)>(F: Space<W>, n: nat, w: W): W {
    F.add(Turn(F, n, w), w)
  }

  lemma ChangeTurn<W(!new)>(F: Space<W>, n: nat, m: nat, w: W)
    requires Turns(F)
    ensures Change(F, n, Turn(F, m, w)) == Turn(F, m, Change(F, n, w))
  {
    TurnAdd(F, n, m, w);
    TurnAdd(F, m, n, w);
    TurnSum(F, m, Turn(F, n, w), w);
  }

  lemma ChangeKernel<W(!new)>(F: Space<W>, n: nat, w: W)
    requires Rotates(F) && 0 < n < 1023 && Change(F, n, w) == F.zero
    ensures w == F.zero
  {
    assert Commutes(F, Turn(F, n, w), w);
    Order(F, n, w);
  }

  /** Three vectors that add up to zero turned not at all, once and twice as far each, by
      three different angles, are zero. */
  lemma ThreeRoots<W(!new)>(F: Space<W>, m: nat, l: nat, x: W, y: W, z: W)
    requires Rotates(F) && 0 < l < m < 1023
    requires F.add(F.add(x, y), z) == F.zero
    requires F.add(F.add(Turn(F, m, x), Turn(F, l, y)), z) == F.zero
    requires F.add(F.add(Turn(F, m, Turn(F, m, x)), Turn(F, l, Turn(F, l, y))), z) == F.zero
    ensures x == F.zero && y == F.zero && z == F.zero
  {
    var a := Change(F, m, x);
    assert Commutes(F, F.add(x, y), z);
    assert Commutes(F, F.add(Turn(F, m, x), Turn(F, l, y)), z);
    assert Commutes(F, F.add(Turn(F, m, Turn(F, m, x)), Turn(F, l, Turn(F, l, y))), z);
    assert a == Change(F, l, y) by { Swap(F, Turn(F, m, x), Turn(F, l, y), x, y); }
    assert Change(F, m, Turn(F, m, x)) == Change(F, l, Turn(F, l, y)) by {
      Swap(F, Turn(F, m, Turn(F, m, x)), Turn(F, l, Turn(F, l, y)), Turn(F, m, x), Turn(F, l, y));
    }
    ChangeTurn(F, m, m, x);
    ChangeTurn(F, l, l, y);
    TurnsDiffer(F, l, m, a);
    ChangeKernel(F, m, x);
    ChangeKernel(F, l, y);
  }

  // ---- Codes with three roots ----

  /** Evaluation of the states at the roots, `base` to `base + 2` turns of one, and the place
      of the symbols among the values. */
  datatype Roots<!S(!new), !W(!new)> = Roots(space: Space<W>, base: nat, at: (nat, S) -> W, place: S -> W)

  ghost predicate StepAt<S(!new), W(!new)>(C: Code<S>, R: Roots<S, W>, i: nat, c: S, v: S) {
    R.at(i, C.step(c, v)) == R.space.add(Turn(R.space, R.base + i, R.at(i, c)), R.place(v))
  }

  ghost predicate Steps<S(!new), W(!new)>(C: Code<S>, R: Roots<S, W>, i: nat) {
    && R.at(i, C.zero) == R.space.zero
    && forall c, v {:trigger C.step(c, v)} :: C.isState(c) && C.isSymbol(v) ==>
         StepAt(C, R, i, c, v)
  }

  /** What is needed of a code and its roots, part by part. */
  ghost predicate Part<S(!new), W(!new)>(C: Code<S>, R: Roots<S, W>, k: nat) {
    match k
    case 0 => Laws(C)
    case 1 => Rotates(R.space)
    case 2 => Steps(C, R, 0)
    case 3 => Steps(C, R, 1)
    case 4 => Steps(C, R, 2)
    case _ => R.place(C.zero) == R.space.zero &&
              forall v {:trigger R.place(v)} :: C.isSymbol(v) && R.place(v) == R.space.zero ==> v == C.zero
  }

  ghost predicate Designed<S(!new), W(!new)>(C: Code<S>, R: Roots<S, W>) {
    forall k: nat {:trigger Part(C, R, k)} :: Part(C, R, k)
  }

  lemma NextAt<S(!new), W(!new)>(C: Code<S>, R: Roots<S, W>, i: nat, c: S, v: S)
    requires Designed(C, R) && i < 3 && C.isState(c) && C.isSymbol(v)
    ensures StepAt(C, R, i, c, v)
  {
    assert Part(C, R, 2 + i);
  }

  lemma ZeroAt<S(!new), W(!new)>(C: Code<S>, R: Roots<S, W>, i: nat)
    requires Designed(C, R) && i < 3
    ensures R.at(i, C.zero) == R.space.zero
  {
    assert Part(C, R, 2 + i);
  }

  lemma ZerosState<S(!new), W(!new)>(C: Code<S>, R: Roots<S, W>, c: S, n: nat)
    requires Designed(C, R) && C.isState(c)
    ensures C.isState(Fold(C, c, Zeros(C, n))) && C.isSymbol(C.zero)
  {
    assert Part(C, R, 0);
    StateBound(C, c, Zeros(C, n));
  }

  /** n times e turns. */
  function Angle(e: nat, n: nat): nat {
    e * n
  }

  lemma TurnOnce<W(!new)>(F: Space<W>, e: nat, n: nat, w: W)
    requires n > 0
    ensures Turn(F, e, Turn(F, Angle(e, n - 1), w)) == Turn(F, Angle(e, n), w)
  {
    TurnAdd(F, e, e * (n - 1), w);
    assert e + e * (n - 1) == e * n;
  }

  lemma PlaceNone<S(!new), W(!new)>(C: Code<S>, R: Roots<S, W>, w: W)
    requires Designed(C, R)
    ensures R.space.add(w, R.place(C.zero)) == w
  {
    assert Part(C, R, 1) && Part(C, R, 5);
  }

  lemma {:induction false} AtZeros<S(!new), W(!new)>(C: Code<S>, R: Roots<S, W>, i: nat, c: S, n: nat)
    requires Designed(C, R) && i < 3 && C.isState(c)
    ensures R.at(i, Fold(C, c, Zeros(C, n))) == Turn(R.space, Angle(R.base + i, n), R.at(i, c))
    decreases n, 1
  {
    if n > 0 {
      ZerosState(C, R, c, n - 1);
      AtNext(C, R, i, c, n, C.zero);
      PlaceNone(C, R, Turn(R.space, Angle(R.base + i, n), R.at(i, c)));
      assert Zeros(C, n)[..n - 1] == Zeros(C, n - 1);
    }
  }

  /** The value after n - 1 zero symbols and one more symbol. */
  lemma {:induction false} AtNext<S(!new), W(!new)>(C: Code<S>, R: Roots<S, W>, i: nat, c: S, n: nat, v: S)
    requires Designed(C, R) && i < 3 && C.isState(c) && C.isSymbol(v) && n > 0
    ensures R.at(i, C.step(Fold(C, c, Zeros(C, n - 1)), v)) ==
      R.space.add(Turn(R.space, Angle(R.base + i, n), R.at(i, c)), R.place(v))
    decreases n, 0
  {
    ZerosState(C, R, c, n - 1);
    AtZeros(C, R, i, c, n - 1);
    NextAt(C, R, i, Fold(C, c, Zeros(C, n - 1)), v);
    TurnOnce(R.space, R.base + i, n, R.at(i, c));
  }

  // ---- Three errors ----

  /** Zeros from a on, up to b. */
  ghost predicate Blank<S(!new)>(C: Code<S>, d: seq<S>, a: nat, b: nat)
    requires b <= |d|
  {
    forall j :: a <= j < b ==> d[j] == C.zero
  }

  /** What the first n symbols fold to. */
  function Upto<S(!new)>(C: Code<S>, d: seq<S>, n: nat): S
    requires n <= |d|
  {
    Fold(C, C.zero, d[..n])
  }

  lemma UptoState<S(!new), W(!new)>(C: Code<S>, R: Roots<S, W>, d: seq<S>, n: nat)
    requires Designed(C, R) && Symbols(C, d) && n <= |d|
    ensures C.isState(Upto(C, d, n))
  {
    assert Part(C, R, 0);
    StateBound(C, C.zero, d[..n]);
  }

  lemma UptoGap<S(!new)>(C: Code<S>, d: seq<S>, a: nat, b: nat)
    requires a < b < |d| && Blank(C, d, a + 1, b)
    ensures Upto(C, d, b + 1) == C.step(Fold(C, Upto(C, d, a + 1), Zeros(C, b - a - 1)), d[b])
  {
    assert d[..b] == d[..a + 1] + Zeros(C, b - a - 1);
    FoldAppend(C, C.zero, d[..a + 1], Zeros(C, b - a - 1));
    FoldNext(C, C.zero, d, b);
  }

  /** The value after d[b], from the one after d[a] with only zeros between. */
  lemma AtGap<S(!new), W(!new)>(C: Code<S>, R: Roots<S, W>, i: nat, d: seq<S>, a: nat, b: nat)
    requires Designed(C, R) && i < 3 && Symbols(C, d) && a < b < |d| && Blank(C, d, a + 1, b)
    ensures R.at(i, Upto(C, d, b + 1)) ==
      R.space.add(Turn(R.space, Angle(R.base + i, b - a), R.at(i, Upto(C, d, a + 1))), R.place(d[b]))
  {
    UptoGap(C, d, a, b);
    UptoState(C, R, d, a + 1);
    AtNext(C, R, i, Upto(C, d, a + 1), b - a, d[b]);
  }

  lemma UptoFirst<S(!new), W(!new)>(C: Code<S>, R: Roots<S, W>, d: seq<S>, a: nat)
    requires Designed(C, R) && a < |d| && Blank(C, d, 0, a)
    ensures Upto(C, d, a + 1) == C.step(C.zero, d[a]) && C.isState(C.zero)
  {
    assert Part(C, R, 0);
    assert d[..a] == Zeros(C, a);
    FoldZeros(C, a);
    FoldNext(C, C.zero, d, a);
  }

  lemma TurnZeroAdd<W(!new)>(F: Space<W>, n: nat, u: W)
    requires Rotates(F)
    ensures F.add(Turn(F, n, F.zero), u) == u
  {
    TurnZero(F, n);
    assert Commutes(F, F.zero, u);
  }

  /** The value after the first symbol that is not zero. */
  lemma AtFirst<S(!new), W(!new)>(C: Code<S>, R: Roots<S, W>, i: nat, d: seq<S>, a: nat)
    requires Designed(C, R) && i < 3 && Symbols(C, d) && a < |d| && Blank(C, d, 0, a)
    ensures R.at(i, Upto(C, d, a + 1)) == R.place(d[a])
  {
    UptoFirst(C, R, d, a);
    NextAt(C, R, i, C.zero, d[a]);
    ZeroAt(C, R, i);
    assert Part(C, R, 1);
    TurnZeroAdd(R.space, R.base + i, R.place(d[a]));
  }

  /** A string that folds to zero and is zero behind d[r] folds to zero up to there. */
  lemma UptoLast<S(!new), W(!new)>(C: Code<S>, R: Roots<S, W>, d: seq<S>, r: nat)
    requires Designed(C, R) && Symbols(C, d) && r < |d| && Blank(C, d, r + 1, |d|) && Fold(C, C.zero, d) == C.zero
    ensures Upto(C, d, r + 1) == C.zero
  {
    assert Part(C, R, 0);
    assert d == d[..r + 1] + Zeros(C, |d| - r - 1);
    FoldAppend(C, C.zero, d[..r + 1], Zeros(C, |d| - r - 1));
    UptoState(C, R, d, r + 1);
    FoldKernel(C, Upto(C, d, r + 1), |d| - r - 1);
  }

  /** Zero everywhere but at p, q and r. */
  ghost predicate Sparse<S(!new)>(C: Code<S>, d: seq<S>, p: nat, q: nat, r: nat) {
    && p < q < r < |d|
    && Blank(C, d, 0, p) && Blank(C, d, p + 1, q) && Blank(C, d, q + 1, r) && Blank(C, d, r + 1, |d|)
  }

  lemma AtTwo<S(!new), W(!new)>(C: Code<S>, R: Roots<S, W>, i: nat, d: seq<S>, p: nat, q: nat)
    requires Designed(C, R) && i < 3 && Symbols(C, d)
    requires p < q < |d| && Blank(C, d, 0, p) && Blank(C, d, p + 1, q)
    ensures R.at(i, Upto(C, d, q + 1)) ==
      R.space.add(Turn(R.space, Angle(R.base + i, q - p), R.place(d[p])), R.place(d[q]))
  {
    AtFirst(C, R, i, d, p);
    AtGap(C, R, i, d, p, q);
  }

  lemma AtLast<S(!new), W(!new)>(C: Code<S>, R: Roots<S, W>, i: nat, d: seq<S>, r: nat)
    requires Designed(C, R) && i < 3 && Symbols(C, d)
    requires r < |d| && Blank(C, d, r + 1, |d|) && Fold(C, C.zero, d) == C.zero
    ensures R.at(i, Upto(C, d, r + 1)) == R.space.zero
  {
    UptoLast(C, R, d, r);
    ZeroAt(C, R, i);
  }

  /** What evaluation at root i says of the symbols at p, q and r. */
  lemma AtThree<S(!new), W(!new)>(C: Code<S>, R: Roots<S, W>, i: nat, d: seq<S>, p: nat, q: nat, r: nat)
    requires Designed(C, R) && i < 3 && Symbols(C, d) && Sparse(C, d, p, q, r)
    requires Fold(C, C.zero, d) == C.zero
    ensures var F, e := R.space, R.base + i;
      F.add(Turn(F, Angle(e, r - q), F.add(Turn(F, Angle(e, q - p), R.place(d[p])), R.place(d[q]))), R.place(d[r]))
        == F.zero
  {
    AtTwo(C, R, i, d, p, q);
    AtGap(C, R, i, d, q, r);
    AtLast(C, R, i, d, r);
  }

  lemma TurnSplit<W(!new)>(F: Space<W>, b: nat, i: nat, n: nat, w: W)
    ensures Turn(F, Angle(b + i, n), w) == Turn(F, Angle(i, n), Turn(F, Angle(b, n), w))
  {
    TurnAdd(F, Angle(i, n), Angle(b, n), w);
    assert (b + i) * n == i * n + b * n;
  }

  lemma TurnJoin<W(!new)>(F: Space<W>, e: nat, k: nat, l: nat, w: W)
    ensures Turn(F, Angle(e, l), Turn(F, Angle(e, k), w)) == Turn(F, Angle(e, k + l), w)
  {
    TurnAdd(F, Angle(e, l), Angle(e, k), w);
    assert e * l + e * k == e * (k + l);
  }

  /** The same, every symbol turned by its own angle. */
  lemma Spread<W(!new)>(F: Space<W>, b: nat, i: nat, k: nat, l: nat, u: W, v: W)
    requires Turns(F)
    ensures Turn(F, Angle(b + i, l), F.add(Turn(F, Angle(b + i, k), u), v)) ==
      F.add(Turn(F, Angle(i, k + l), Turn(F, Angle(b, k + l), u)), Turn(F, Angle(i, l), Turn(F, Angle(b, l), v)))
  {
    TurnSum(F, Angle(b + i, l), Turn(F, Angle(b + i, k), u), v);
    TurnJoin(F, b + i, k, l, u);
    TurnSplit(F, b, i, k + l, u);
    TurnSplit(F, b, i, l, v);
  }

  lemma Twice<W(!new)>(F: Space<W>, n: nat, w: W)
    ensures Turn(F, Angle(0, n), w) == w && Turn(F, Angle(1, n), w) == Turn(F, n, w)
    ensures Turn(F, Angle(2, n), w) == Turn(F, n, Turn(F, n, w))
  {
    TurnAdd(F, n, n, w);
    assert Angle(0, n) == 0 && Angle(1, n) == n && Angle(2, n) == n + n;
  }

  ghost predicate Balanced<W(!new)>(F: Space<W>, i: nat, m: nat, l: nat, x: W, y: W, z: W) {
    F.add(F.add(Turn(F, Angle(i, m), x), Turn(F, Angle(i, l), y)), z) == F.zero
  }

  ghost predicate Spreads<W(!new)>(F: Space<W>, i: nat, b: nat, k: nat, l: nat, u: W, v: W, z: W) {
    Balanced(F, i, k + l, l, Turn(F, Angle(b, k + l), u), Turn(F, Angle(b, l), v), z)
  }

  lemma SpreadZero<W(!new)>(F: Space<W>, b: nat, i: nat, k: nat, l: nat, u: W, v: W, z: W)
    requires Turns(F)
    requires F.add(Turn(F, Angle(b + i, l), F.add(Turn(F, Angle(b + i, k), u), v)), z) == F.zero
    ensures Spreads(F, i, b, k, l, u, v, z)
  {
    Spread(F, b, i, k, l, u, v);
  }

  lemma SpaceTurns<S(!new), W(!new)>(C: Code<S>, R: Roots<S, W>)
    requires Designed(C, R)
    ensures Turns(R.space)
  {
    assert Part(C, R, 1);
  }

  lemma Balance<S(!new), W(!new)>(C: Code<S>, R: Roots<S, W>, i: nat, d: seq<S>, p: nat, q: nat, r: nat)
    requires Designed(C, R) && i < 3 && Symbols(C, d) && Sparse(C, d, p, q, r)
    requires Fold(C, C.zero, d) == C.zero
    ensures Spreads(R.space, i, R.base, q - p, r - q, R.place(d[p]), R.place(d[q]), R.place(d[r]))
  {
    AtThree(C, R, i, d, p, q, r);
    SpaceTurns(C, R);
    SpreadZero(R.space, R.base, i, q - p, r - q, R.place(d[p]), R.place(d[q]), R.place(d[r]));
  }

  lemma ThreePlaces<S(!new), W(!new)>(C: Code<S>, R: Roots<S, W>, d: seq<S>, p: nat, q: nat, r: nat)
    requires Designed(C, R) && Symbols(C, d) && Sparse(C, d, p, q, r) && r - p < 1023
    requires Fold(C, C.zero, d) == C.zero
    ensures R.place(d[p]) == R.space.zero && R.place(d[q]) == R.space.zero && R.place(d[r]) == R.space.zero
  {
    var F, b, k, l := R.space, R.base, q - p, r - q;
    var u, v, z := R.place(d[p]), R.place(d[q]), R.place(d[r]);
    assert Spreads(F, 0, b, k, l, u, v, z) by { Balance(C, R, 0, d, p, q, r); }
    assert Spreads(F, 1, b, k, l, u, v, z) by { Balance(C, R, 1, d, p, q, r); }
    assert Spreads(F, 2, b, k, l, u, v, z) by { Balance(C, R, 2, d, p, q, r); }
    assert Part(C, R, 1);
    Solve(F, b, k, l, u, v, z);
  }

  lemma PlaceZero<S(!new), W(!new)>(C: Code<S>, R: Roots<S, W>, v: S)
    requires Designed(C, R) && C.isSymbol(v) && R.place(v) == R.space.zero
    ensures v == C.zero
  {
    assert Part(C, R, 5);
  }

  /** Three symbols within 1023 that fold to zero are zero. */
  lemma ThreeKernel<S(!new), W(!new)>(C: Code<S>, R: Roots<S, W>, d: seq<S>, p: nat, q: nat, r: nat)
    requires Designed(C, R) && Symbols(C, d) && Sparse(C, d, p, q, r) && r - p < 1023
    requires Fold(C, C.zero, d) == C.zero
    ensures d[p] == C.zero && d[q] == C.zero && d[r] == C.zero
  {
    ThreePlaces(C, R, d, p, q, r);
    PlaceZero(C, R, d[p]);
    PlaceZero(C, R, d[q]);
    PlaceZero(C, R, d[r]);
  }

  lemma Solve<W(!new)>(F: Space<W>, b: nat, k: nat, l: nat, u: W, v: W, z: W)
    requires Rotates(F) && 0 < k && 0 < l && k + l < 1023
    requires Spreads(F, 0, b, k, l, u, v, z) && Spreads(F, 1, b, k, l, u, v, z) && Spreads(F, 2, b, k, l, u, v, z)
    ensures u == F.zero && v == F.zero && z == F.zero
  {
    Angles(F, k + l, l, Turn(F, Angle(b, k + l), u), Turn(F, Angle(b, l), v), z);
    TurnKernel(F, Angle(b, k + l), u);
    TurnKernel(F, Angle(b, l), v);
  }

  lemma Angles<W(!new)>(F: Space<W>, m: nat, l: nat, x: W, y: W, z: W)
    requires Rotates(F) && 0 < l < m < 1023
    requires Balanced(F, 0, m, l, x, y, z) && Balanced(F, 1, m, l, x, y, z) && Balanced(F, 2, m, l, x, y, z)
    ensures x == F.zero && y == F.zero && z == F.zero
  {
    Twice(F, m, x);
    Twice(F, l, y);
    ThreeRoots(F, m, l, x, y, z);
  }

  /** Two strings with the same fold never differ at three places or fewer within 1023. */
  lemma NoThree<S(!new), W(!new)>(C: Code<S>, R: Roots<S, W>, c: S, xs: seq<S>, ys: seq<S>, p: nat, q: nat, r: nat)
    requires Designed(C, R) && Symbols(C, xs) && Symbols(C, ys) && |xs| == |ys|
    requires Fold(C, c, xs) == Fold(C, c, ys) && p < q < r < |xs| && r - p < 1023
    requires forall i :: 0 <= i < |xs| && i != p && i != q && i != r ==> xs[i] == ys[i]
    ensures xs == ys
  {
    assert Part(C, R, 0);
    var d := Difference(C, c, xs, ys);
    assert Sparse(C, d, p, q, r);
    ThreeKernel(C, R, d, p, q, r);
  }
}
