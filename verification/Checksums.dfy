/**
 Checksums folded from a step function over a group, as PolyMod is over GF(32)^6. The
 arithmetic is a parameter here; Laws states what is needed of it, and Bech32 proves that
 its 30-bit states obey them.
 */
module Checksums {
  /** `low` and `high` take the last symbol off a state; `below(c, k)` says that c is the
      packing of k symbols. */
  datatype Code<!S(!new)> = Code(
    zero: S,
    add: (S, S) -> S,
    step: (S, S) -> S,
    isState: S -> bool,
    isSymbol: S -> bool,
    below: (S, int) -> bool,
    low: S -> S,
    high: S -> S)

  ghost predicate Group<S(!new)>(C: Code<S>) {
    && (forall a :: C.add(a, C.zero) == a && C.add(C.zero, a) == a)
    && (forall a, b :: C.add(a, b) == C.zero <==> a == b)
    && (forall a, b {:trigger C.add(a, C.add(a, b))} :: C.add(a, C.add(a, b)) == b)
    && (forall a, b {:trigger C.add(a, b)} :: C.isSymbol(a) && C.isSymbol(b) ==> C.isSymbol(C.add(a, b)))
    && (forall a, b {:trigger C.add(a, b)} :: C.isState(a) && C.isState(b) ==> C.isState(C.add(a, b)))
    && C.isSymbol(C.zero) && C.isState(C.zero)
  }

  ghost predicate Linear<S(!new)>(C: Code<S>) {
    forall c, d, v, w {:trigger C.step(C.add(c, d), C.add(v, w))} ::
      C.step(C.add(c, d), C.add(v, w)) == C.add(C.step(c, v), C.step(d, w))
  }

  /** A step lands in the states, and a zero symbol never cancels a nonzero state. */
  ghost predicate Injective<S(!new)>(C: Code<S>) {
    && (forall c, v {:trigger C.step(c, v)} :: C.isSymbol(v) ==> C.isState(C.step(c, v)))
    && (forall c :: C.isState(c) && C.step(c, C.zero) == C.zero ==> c == C.zero)
  }

  /** Six symbols make up a state; shifting the last one back in restores it. */
  ghost predicate Restoring<S(!new)>(C: Code<S>) {
    && (forall m {:trigger C.low(m)} :: C.isState(m) ==>
          C.step(C.high(m), C.low(m)) == m && C.isState(C.high(m)) && C.isSymbol(C.low(m)))
    && (forall m {:trigger C.high(C.high(C.high(C.high(C.high(C.high(m))))))} :: C.isState(m) ==>
          C.high(C.high(C.high(C.high(C.high(C.high(m)))))) == C.zero)
  }

  /** The first six symbols pack without reduction. */
  ghost predicate Packing<S(!new)>(C: Code<S>) {
    && C.below(C.zero, 0)
    && (forall c, v, k {:trigger C.step(c, v), C.below(c, k)} :: 0 <= k < 6 && C.below(c, k) && C.isSymbol(v) ==>
          C.below(C.step(c, v), k + 1) && (C.step(c, v) == C.zero ==> c == C.zero && v == C.zero))
  }

  ghost predicate Laws<S(!new)>(C: Code<S>) {
    Group(C) && Linear(C) && Injective(C) && Restoring(C) && Packing(C)
  }

  function Fold<S(!new)>(C: Code<S>, c: S, vs: seq<S>): S {
    if vs == [] then c else C.step(Fold(C, c, vs[..|vs| - 1]), vs[|vs| - 1])
  }

  lemma {:induction false} FoldStates<S(!new)>(C: Code<S>, c: S, vs: seq<S>, states: seq<S>)
    requires |states| == |vs| + 1 && states[0] == c
    requires forall k {:trigger vs[k]} :: 0 <= k < |vs| ==> C.step(states[k], vs[k]) == states[k + 1]
    ensures Fold(C, c, vs) == states[|vs|]
  {
    if vs != [] {
      var n := |vs| - 1;
      assert forall k {:trigger vs[..n][k]} :: 0 <= k < n ==> vs[..n][k] == vs[k];
      FoldStates(C, c, vs[..n], states[..n + 1]);
      assert states[..n + 1][n] == states[n] && vs[n] == vs[|vs| - 1];
    }
  }

  lemma FoldNext<S(!new)>(C: Code<S>, c: S, vs: seq<S>, i: nat)
    requires i < |vs|
    ensures Fold(C, c, vs[..i + 1]) == C.step(Fold(C, c, vs[..i]), vs[i])
  {
    assert vs[..i + 1][..i] == vs[..i];
  }

  ghost predicate Symbols<S(!new)>(C: Code<S>, vs: seq<S>) {
    forall i :: 0 <= i < |vs| ==> C.isSymbol(vs[i])
  }

  lemma {:induction false} FoldAppend<S(!new)>(C: Code<S>, c: S, xs: seq<S>, ys: seq<S>)
    ensures Fold(C, c, xs + ys) == Fold(C, Fold(C, c, xs), ys)
  {
    if ys == [] {
      assert xs + ys == xs;
    } else {
      assert (xs + ys)[..|xs + ys| - 1] == xs + ys[..|ys| - 1];
      FoldAppend(C, c, xs, ys[..|ys| - 1]);
    }
  }

  function AddAll<S(!new)>(C: Code<S>, xs: seq<S>, ys: seq<S>): (zs: seq<S>)
    requires |xs| == |ys|
    ensures |zs| == |xs|
  {
    seq(|xs|, i requires 0 <= i < |xs| => C.add(xs[i], ys[i]))
  }

  /** The fold of a symbol-wise sum is the sum of the folds. */
  lemma {:induction false} FoldLinear<S(!new)>(C: Code<S>, c: S, d: S, xs: seq<S>, ys: seq<S>)
    requires Linear(C) && |xs| == |ys|
    ensures Fold(C, C.add(c, d), AddAll(C, xs, ys)) == C.add(Fold(C, c, xs), Fold(C, d, ys))
  {
    if xs != [] {
      var n := |xs| - 1;
      assert AddAll(C, xs, ys)[..n] == AddAll(C, xs[..n], ys[..n]);
      FoldLinear(C, c, d, xs[..n], ys[..n]);
    }
  }

  function Zeros<S(!new)>(C: Code<S>, n: nat): seq<S> {
    seq(n, _ => C.zero)
  }

  lemma {:induction false} FoldZeros<S(!new)>(C: Code<S>, n: nat)
    requires Group(C) && Packing(C) && Linear(C)
    ensures Fold(C, C.zero, Zeros(C, n)) == C.zero
  {
    if n != 0 {
      assert Zeros(C, n)[..n - 1] == Zeros(C, n - 1);
      FoldZeros(C, n - 1);
      var s := C.step(C.zero, C.zero);
      assert C.add(s, s) == C.zero;
      assert C.step(C.add(C.zero, C.zero), C.add(C.zero, C.zero)) == C.add(s, s);
    }
  }

  lemma StateBound<S(!new)>(C: Code<S>, c: S, vs: seq<S>)
    requires Injective(C) && C.isState(c) && Symbols(C, vs)
    ensures C.isState(Fold(C, c, vs))
  {
  }

  /** Zero symbols never cancel a nonzero state. */
  lemma {:induction false} FoldKernel<S(!new)>(C: Code<S>, c: S, n: nat)
    requires Group(C) && Injective(C) && C.isState(c) && Fold(C, c, Zeros(C, n)) == C.zero
    ensures c == C.zero
  {
    if n != 0 {
      assert Zeros(C, n)[..n - 1] == Zeros(C, n - 1);
      StateBound(C, c, Zeros(C, n - 1));
      FoldKernel(C, c, n - 1);
    }
  }

  /** The symbols of a state, the first one highest. */
  function Six<S(!new)>(C: Code<S>, m: S): seq<S> {
    var m1 := C.high(m);
    var m2 := C.high(m1);
    var m3 := C.high(m2);
    var m4 := C.high(m3);
    var m5 := C.high(m4);
    [C.low(m5), C.low(m4), C.low(m3), C.low(m2), C.low(m1), C.low(m)]
  }

  /** x packs the first k symbols. */
  ghost predicate Packs<S(!new)>(C: Code<S>, vs: seq<S>, k: nat, x: S)
    requires k <= |vs|
  {
    if k == 0 then x == C.zero else
      C.isState(x) && vs[k - 1] == C.low(x) && Packs(C, vs, k - 1, C.high(x))
  }

  lemma {:induction false} FoldPacks<S(!new)>(C: Code<S>, vs: seq<S>, k: nat, x: S)
    requires Restoring(C) && k <= |vs| && Packs(C, vs, k, x)
    ensures Fold(C, C.zero, vs[..k]) == x
  {
    if k > 0 {
      FoldPacks(C, vs, k - 1, C.high(x));
      assert vs[..k][..k - 1] == vs[..k - 1];
    }
  }

  /** A state is the fold of its own six symbols. */
  lemma PackSix<S(!new)>(C: Code<S>, m: S)
    requires Restoring(C) && C.isState(m)
    ensures Symbols(C, Six(C, m)) && Fold(C, C.zero, Six(C, m)) == m
  {
    var vs := Six(C, m);
    var m2 := C.high(C.high(m));
    var m4 := C.high(C.high(m2));
    assert Packs(C, vs, 2, m4);
    assert Packs(C, vs, 4, m2);
    assert Packs(C, vs, 6, m);
    FoldPacks(C, vs, 6, m);
    assert vs[..6] == vs;
  }

  /** Up to six symbols fold to zero only if all are zero. */
  lemma {:induction false} PackKernel<S(!new)>(C: Code<S>, vs: seq<S>)
    requires Packing(C) && |vs| <= 6 && Symbols(C, vs)
    ensures C.below(Fold(C, C.zero, vs), |vs|)
    ensures Fold(C, C.zero, vs) == C.zero ==> vs == Zeros(C, |vs|)
  {
    if vs != [] {
      var n := |vs| - 1;
      var s := Fold(C, C.zero, vs[..n]);
      PackKernel(C, vs[..n]);
      assert C.below(C.step(s, vs[n]), n + 1);
      if C.step(s, vs[n]) == C.zero {
        assert vs == vs[..n] + [vs[n]];
      }
    }
  }

  /** Six symbols computed from the fold over six zeros bring the fold to `one`. */
  lemma ChecksumMakesOne<S(!new)>(C: Code<S>, one: S, xs: seq<S>)
    requires Laws(C) && C.isState(one) && Symbols(C, xs)
    ensures Fold(C, one, xs + Six(C, C.add(Fold(C, one, xs + Zeros(C, 6)), one))) == one
  {
    var zs := xs + Zeros(C, 6);
    var r := Fold(C, one, zs);
    var m := C.add(r, one);
    var ys := Zeros(C, |xs|) + Six(C, m);
    assert C.isState(m) by { StateBound(C, one, zs); }
    PackSix(C, m);
    FoldBehindZeros(C, |xs|, Six(C, m));
    AddBehind(C, xs, Six(C, m));
    FoldLinear(C, one, C.zero, zs, ys);
    assert C.add(r, C.add(r, one)) == one;
  }

  lemma FoldBehindZeros<S(!new)>(C: Code<S>, n: nat, vs: seq<S>)
    requires Group(C) && Packing(C) && Linear(C)
    ensures Fold(C, C.zero, Zeros(C, n) + vs) == Fold(C, C.zero, vs)
  {
    FoldAppend(C, C.zero, Zeros(C, n), vs);
    FoldZeros(C, n);
  }

  lemma AddBehind<S(!new)>(C: Code<S>, xs: seq<S>, vs: seq<S>)
    requires Group(C) && |vs| == 6
    ensures AddAll(C, xs + Zeros(C, 6), Zeros(C, |xs|) + vs) == xs + vs
  {
  }

  lemma SameFold<S(!new)>(C: Code<S>, c: S, xs: seq<S>, ys: seq<S>)
    requires Group(C) && Linear(C) && |xs| == |ys| && Fold(C, c, xs) == Fold(C, c, ys)
    ensures Fold(C, C.zero, AddAll(C, xs, ys)) == C.zero
  {
    FoldLinear(C, c, c, xs, ys);
    assert C.add(c, c) == C.zero;
  }

  lemma Differs<S(!new)>(C: Code<S>, a: S, b: S)
    requires Group(C) && C.isSymbol(a) && C.isSymbol(b)
    ensures C.isSymbol(C.add(a, b)) && (C.add(a, b) == C.zero <==> a == b)
  {
  }

  /** The symbol-wise difference of two strings with the same fold folds to zero. */
  lemma Difference<S(!new)>(C: Code<S>, c: S, xs: seq<S>, ys: seq<S>) returns (d: seq<S>)
    requires Laws(C) && Symbols(C, xs) && Symbols(C, ys) && |xs| == |ys| && Fold(C, c, xs) == Fold(C, c, ys)
    ensures |d| == |xs| && Symbols(C, d) && Fold(C, C.zero, d) == C.zero
    ensures forall l :: 0 <= l < |d| ==> (d[l] == C.zero <==> xs[l] == ys[l])
  {
    d := AddAll(C, xs, ys);
    SameFold(C, c, xs, ys);
    forall l | 0 <= l < |d| ensures C.isSymbol(d[l]) && (d[l] == C.zero <==> xs[l] == ys[l]) {
      Differs(C, xs[l], ys[l]);
    }
  }

  /** Two strings with the same fold never differ only inside six consecutive symbols. */
  lemma NoBurst<S(!new)>(C: Code<S>, c: S, xs: seq<S>, ys: seq<S>, k: int)
    requires Laws(C) && Symbols(C, xs) && Symbols(C, ys) && |xs| == |ys|
    requires Fold(C, c, xs) == Fold(C, c, ys)
    requires forall i :: 0 <= i < |xs| && !(k <= i < k + 6) ==> xs[i] == ys[i]
    ensures xs == ys
  {
    var d := Difference(C, c, xs, ys);
    var i := Clamp(k, |xs|);
    var j := Clamp(k + 6, |xs|);
    WindowKernel(C, d, i, j);
  }

  function Clamp(k: int, n: nat): nat {
    if k < 0 then 0 else if k < n then k else n
  }

  lemma WindowParts<S(!new)>(C: Code<S>, d: seq<S>, i: nat, j: nat)
    requires i <= j <= |d| && forall l :: 0 <= l < |d| && !(i <= l < j) ==> d[l] == C.zero
    ensures d == Zeros(C, i) + d[i..j] + Zeros(C, |d| - j)
  {
  }

  /** Zeros before do not count. */
  lemma WindowFold<S(!new)>(C: Code<S>, i: nat, w: seq<S>, n: nat)
    requires Laws(C)
    ensures Fold(C, C.zero, Zeros(C, i) + w + Zeros(C, n)) == Fold(C, Fold(C, C.zero, w), Zeros(C, n))
  {
    FoldAppend(C, C.zero, Zeros(C, i) + w, Zeros(C, n));
    FoldAppend(C, C.zero, Zeros(C, i), w);
    FoldZeros(C, i);
  }

  /** A string that folds to zero and is zero outside six symbols is zero. */
  lemma WindowKernel<S(!new)>(C: Code<S>, d: seq<S>, i: nat, j: nat)
    requires Laws(C) && Symbols(C, d) && i <= j <= |d| && j <= i + 6
    requires forall l :: 0 <= l < |d| && !(i <= l < j) ==> d[l] == C.zero
    requires Fold(C, C.zero, d) == C.zero
    ensures forall l :: 0 <= l < |d| ==> d[l] == C.zero
  {
    var w := d[i..j];
    var s := Fold(C, C.zero, w);
    WindowParts(C, d, i, j);
    WindowFold(C, i, w, |d| - j);
    assert s == C.zero by {
      StateBound(C, C.zero, w);
      FoldKernel(C, s, |d| - j);
    }
    PackKernel(C, w);
    assert forall l :: i <= l < j ==> d[l] == w[l - i];
  }
}
