/**
 Numbers as strings of bits, most significant bit first. Shifts, masks and ORs of the
 program are bit-string operations here, so regrouping bits is concatenation.
 */
module BitOps {
  import opened Radix

  function Pow2(k: nat): (p: nat)
    ensures p > 0
  {
    if k == 0 then 1 else 2 * Pow2(k - 1)
  }

  /** x << k */
  function Shl(x: nat, k: nat): nat {
    if k == 0 then x else 2 * Shl(x, k - 1)
  }

  /** x >> k */
  function Shr(x: nat, k: nat): nat {
    if k == 0 then x else Shr(x / 2, k - 1)
  }

  /** x | y */
  function Or(x: nat, y: nat): nat
    decreases x + y
  {
    if x == 0 && y == 0 then 0
    else 2 * Or(x / 2, y / 2) + (if x % 2 == 1 || y % 2 == 1 then 1 else 0)
  }

  /** x & y */
  function And(x: nat, y: nat): nat
    decreases x + y
  {
    if x == 0 && y == 0 then 0
    else 2 * And(x / 2, y / 2) + (if x % 2 == 1 && y % 2 == 1 then 1 else 0)
  }

  /** (1 << k) - 1 */
  function Mask(k: nat): nat {
    Pow2(k) - 1
  }

  /** The low k bits of x. */
  function Bits(k: nat, x: nat): (bs: seq<bool>)
    ensures |bs| == k
  {
    if k == 0 then [] else Bits(k - 1, x / 2) + [x % 2 == 1]
  }

  /** The number a bit string stands for. */
  function Number(bs: seq<bool>): nat {
    if bs == [] then 0 else 2 * Number(bs[..|bs| - 1]) + (if bs[|bs| - 1] then 1 else 0)
  }

  function Zeros(k: nat): seq<bool> {
    seq(k, _ => false)
  }

  lemma {:induction false} NumberBound(bs: seq<bool>)
    ensures Number(bs) < Pow2(|bs|)
  {
    if bs != [] {
      NumberBound(bs[..|bs| - 1]);
    }
  }

  lemma {:induction false} BitsNumber(bs: seq<bool>)
    ensures Bits(|bs|, Number(bs)) == bs
  {
    if bs != [] {
      var n := |bs| - 1;
      BitsNumber(bs[..n]);
      assert Number(bs) / 2 == Number(bs[..n]);
    }
  }

  lemma {:induction false} NumberBits(k: nat, x: nat)
    requires x < Pow2(k)
    ensures Number(Bits(k, x)) == x
  {
    if k != 0 {
      NumberBits(k - 1, x / 2);
      assert Bits(k, x)[..k - 1] == Bits(k - 1, x / 2);
    }
  }

  /** A number below 2^k is determined by its k low bits. */
  lemma BitsInjective(k: nat, x: nat, y: nat)
    requires x < Pow2(k) && y < Pow2(k) && Bits(k, x) == Bits(k, y)
    ensures x == y
  {
    NumberBits(k, x);
    NumberBits(k, y);
  }

  lemma {:induction false} BitsZero(k: nat)
    ensures Bits(k, 0) == Zeros(k)
  {
    if k != 0 {
      BitsZero(k - 1);
    }
  }

  lemma {:induction false} ShrBits(k: nat, m: nat, x: nat)
    ensures Bits(k + m, x) == Bits(k, Shr(x, m)) + Bits(m, x)
  {
    if m != 0 {
      ShrBits(k, m - 1, x / 2);
    }
  }

  /** Bits shifted in from the right are the low bits; the rest moves up. */
  lemma {:induction false} ShlOrBits(k: nat, m: nat, x: nat, y: nat)
    requires y < Pow2(m)
    ensures Bits(k + m, Or(Shl(x, m), y)) == Bits(k, x) + Bits(m, y)
  {
    if m == 0 {
      OrZero(x);
    } else {
      ShlOrBits(k, m - 1, x, y / 2);
      assert Shl(x, m) / 2 == Shl(x, m - 1) && Shl(x, m) % 2 == 0;
    }
  }

  lemma ShlBits(k: nat, m: nat, x: nat)
    ensures Bits(k + m, Shl(x, m)) == Bits(k, x) + Zeros(m)
  {
    ShlOrBits(k, m, x, 0);
    OrZero(Shl(x, m));
    BitsZero(m);
  }

  lemma {:induction false} OrZero(x: nat)
    ensures Or(x, 0) == x && Or(0, x) == x
  {
    if x != 0 {
      OrZero(x / 2);
    }
  }

  lemma {:induction false} AndMask(k: nat, w: nat, x: nat)
    ensures k <= w ==> Bits(k, And(x, Mask(w))) == Bits(k, x)
    ensures And(x, Mask(w)) < Pow2(w)
  {
    if w == 0 {
      AndZero(x);
    } else {
      assert Mask(w) == 2 * Mask(w - 1) + 1;
      AndMask(if k == 0 then 0 else k - 1, w - 1, x / 2);
    }
  }

  lemma {:induction false} AndZero(x: nat)
    ensures And(x, 0) == 0
  {
    if x != 0 {
      AndZero(x / 2);
    }
  }

  lemma {:induction false} ShrBound(x: nat, k: nat, m: nat)
    requires x < Pow2(k + m)
    ensures Shr(x, m) < Pow2(k)
  {
    if m != 0 {
      ShrBound(x / 2, k, m - 1);
    }
  }

  lemma {:induction false} ShlBound(x: nat, k: nat, m: nat)
    requires x < Pow2(k)
    ensures Shl(x, m) < Pow2(k + m)
  {
    if m != 0 {
      ShlBound(x, k, m - 1);
    }
  }

  lemma {:induction false} OrBound(x: nat, y: nat, k: nat)
    requires x < Pow2(k) && y < Pow2(k)
    ensures Or(x, y) < Pow2(k)
  {
    if k != 0 {
      OrBound(x / 2, y / 2, k - 1);
    }
  }

  /** An OR into the clear low bits of x replaces them. */
  lemma OrFree(w: nat, x: nat, k: nat, y: nat)
    requires k <= w && x < Pow2(w) && y < Pow2(w - k)
    requires Bits(w, x)[k..] == Zeros(w - k)
    ensures Or(x, y) < Pow2(w)
    ensures Bits(w, Or(x, y)) == Bits(w, x)[..k] + Bits(w - k, y)
  {
    var h := Bits(w, x)[..k];
    NumberBound(h);
    BitsNumber(h);
    ShlBits(k, w - k, Number(h));
    ShlBound(Number(h), k, w - k);
    assert Bits(w, x) == h + Zeros(w - k);
    BitsInjective(w, x, Shl(Number(h), w - k));
    ShlOrBits(k, w - k, Number(h), y);
    Pow2Monotone(w - k, w);
    OrBound(x, y, w);
  }

  lemma {:induction false} Pow2Monotone(m: nat, n: nat)
    requires m <= n
    ensures Pow2(m) <= Pow2(n)
  {
    if m < n {
      Pow2Monotone(m, n - 1);
    }
  }

  /** Digits of w bits each, concatenated. */
  function Flat(w: nat, ds: seq<nat>): seq<bool> {
    if ds == [] then [] else Bits(w, ds[0]) + Flat(w, ds[1..])
  }

  ghost predicate Groups(w: nat, ds: seq<nat>) {
    forall i :: 0 <= i < |ds| ==> ds[i] < Pow2(w)
  }

  /** The whole groups of w bits of a bit string, from the front. */
  function Cut(w: nat, bs: seq<bool>): (ds: seq<nat>)
    requires w > 0
    ensures Groups(w, ds)
  {
    if |bs| < w then [] else
      NumberBound(bs[..w]);
      [Number(bs[..w])] + Cut(w, bs[w..])
  }

  /** The bits after the last whole group. */
  function Rest(w: nat, bs: seq<bool>): (rest: seq<bool>)
    requires w > 0
    ensures |rest| < w
  {
    if |bs| < w then bs else Rest(w, bs[w..])
  }

  lemma {:induction false} FlatLength(w: nat, ds: seq<nat>)
    ensures |Flat(w, ds)| == |ds| * w
  {
    if ds != [] {
      FlatLength(w, ds[1..]);
      assert |ds| * w == (|ds| - 1) * w + w;
    }
  }

  lemma {:induction false} FlatAppend(w: nat, xs: seq<nat>, ys: seq<nat>)
    ensures Flat(w, xs + ys) == Flat(w, xs) + Flat(w, ys)
  {
    if xs == [] {
      assert xs + ys == ys;
    } else {
      assert (xs + ys)[1..] == xs[1..] + ys;
      FlatAppend(w, xs[1..], ys);
    }
  }

  lemma FlatSnoc(w: nat, ds: seq<nat>, d: nat)
    ensures Flat(w, ds + [d]) == Flat(w, ds) + Bits(w, d)
  {
    FlatAppend(w, ds, [d]);
    assert Flat(w, [d]) == Bits(w, d);
  }

  /** Cutting a string of groups and less than a group returns the two parts. */
  lemma {:induction false} CutFlat(w: nat, ds: seq<nat>, rest: seq<bool>)
    requires |rest| < w && Groups(w, ds)
    ensures Cut(w, Flat(w, ds) + rest) == ds && Rest(w, Flat(w, ds) + rest) == rest
  {
    if ds == [] {
      assert Flat(w, ds) + rest == rest;
    } else {
      CutFlat(w, ds[1..], rest);
      NumberBits(w, ds[0]);
      CutCons(w, Bits(w, ds[0]), Flat(w, ds[1..]) + rest);
      assert Bits(w, ds[0]) + (Flat(w, ds[1..]) + rest) == Flat(w, ds) + rest;
    }
  }

  lemma CutCons(w: nat, head: seq<bool>, tail: seq<bool>)
    requires |head| == w > 0
    ensures Cut(w, head + tail) == [Number(head)] + Cut(w, tail) && Rest(w, head + tail) == Rest(w, tail)
  {
    assert (head + tail)[..w] == head && (head + tail)[w..] == tail;
  }

  lemma FlatCons(w: nat, d: nat, ds: seq<nat>)
    ensures Flat(w, [d] + ds) == Bits(w, d) + Flat(w, ds)
  {
    assert ([d] + ds)[1..] == ds;
  }

  lemma TakeDrop(bs: seq<bool>, w: nat)
    requires w <= |bs|
    ensures bs[..w] + bs[w..] == bs
  {
  }

  lemma CutStep(w: nat, head: seq<bool>, tail: seq<bool>, ds: seq<nat>, rest: seq<bool>)
    requires |head| == w && Flat(w, ds) + rest == tail
    ensures Flat(w, [Number(head)] + ds) + rest == head + tail
  {
    BitsNumber(head);
    FlatCons(w, Number(head), ds);
    assert head + Flat(w, ds) + rest == head + (Flat(w, ds) + rest);
  }

  lemma {:induction false} FlatCut(w: nat, bs: seq<bool>)
    requires w > 0
    ensures Flat(w, Cut(w, bs)) + Rest(w, bs) == bs
  {
    if |bs| >= w {
      FlatCut(w, bs[w..]);
      CutStep(w, bs[..w], bs[w..], Cut(w, bs[w..]), Rest(w, bs[w..]));
      TakeDrop(bs, w);
    }
  }

  lemma {:induction false} FlatZeros(w: nat, ds: seq<nat>)
    requires forall i :: 0 <= i < |ds| ==> ds[i] == 0
    ensures Flat(w, ds) == Zeros(|Flat(w, ds)|)
  {
    if ds != [] {
      FlatZeros(w, ds[1..]);
      BitsZero(w);
    }
  }

  /** The number in the low k bits is the remainder modulo 2^k. */
  lemma LowBits(k: nat, x: nat)
    ensures Number(Bits(k, x)) == x % Pow2(k)
  {
    ShrSplit(k, x);
    NumberBound(Bits(k, x));
    DivModUnique(x, Pow2(k), Shr(x, k), Number(Bits(k, x)));
  }

  lemma NumberNext(k: nat, x: nat)
    requires k > 0
    ensures Number(Bits(k, x)) == 2 * Number(Bits(k - 1, x / 2)) + x % 2
  {
    assert Bits(k, x)[..k - 1] == Bits(k - 1, x / 2);
  }

  lemma Halves(x: nat, s: nat, p: nat, low: nat)
    requires x / 2 == s * p + low
    ensures x == s * (2 * p) + (2 * low + x % 2)
  {
    assert s * (2 * p) == 2 * (s * p);
  }

  lemma {:induction false} ShrSplit(k: nat, x: nat)
    ensures x == Shr(x, k) * Pow2(k) + Number(Bits(k, x))
  {
    if k != 0 {
      ShrSplit(k - 1, x / 2);
      NumberNext(k, x);
      Halves(x, Shr(x, k), Pow2(k - 1), Number(Bits(k - 1, x / 2)));
    }
  }

  /** The k leading bits of x shifted left within n bits. */
  function Window(n: nat, x: nat, offset: nat, k: nat): nat
    requires k <= n
  {
    Shr(And(Shl(x, offset), Mask(n)), n - k)
  }

  lemma WindowBits(n: nat, x: nat, offset: nat, k: nat)
    requires k <= n && offset <= n
    ensures Window(n, x, offset, k) < Pow2(k)
    ensures Bits(k, Window(n, x, offset, k)) == (Bits(n - offset, x) + Zeros(offset))[..k]
  {
    var w := And(Shl(x, offset), Mask(n));
    assert w < Pow2(n) && Bits(n, w) == Bits(n, Shl(x, offset)) by { AndMask(n, n, Shl(x, offset)); }
    ShlBits(n - offset, offset, x);
    ShrBits(k, n - k, w);
    ShrBound(w, k, n - k);
  }

  lemma TakePadded(bs: seq<bool>, m: nat, k: nat)
    requires k <= |bs| + m
    ensures (bs + Zeros(m))[..k] == if k <= |bs| then bs[..k] else bs + Zeros(k - |bs|)
  {
  }

  // ---- Bit strings by value ----

  lemma NumberSnoc(bs: seq<bool>, b: bool)
    ensures Number(bs + [b]) == 2 * Number(bs) + if b then 1 else 0
  {
    assert (bs + [b])[..|bs + [b]| - 1] == bs;
  }

  lemma Twice(a: nat, p: nat, low: nat, b: nat)
    ensures 2 * (a * p + low) + b == a * (2 * p) + (2 * low + b)
  {
    assert a * (2 * p) == 2 * (a * p);
  }

  lemma SplitLast(ys: seq<bool>)
    requires ys != []
    ensures ys == ys[..|ys| - 1] + [ys[|ys| - 1]]
  {
  }

  lemma {:induction false} NumberAppend(xs: seq<bool>, ys: seq<bool>)
    ensures Number(xs + ys) == Number(xs) * Pow2(|ys|) + Number(ys)
  {
    if ys == [] {
      assert xs + ys == xs;
    } else {
      var n := |ys| - 1;
      var b := if ys[n] then 1 else 0;
      NumberAppend(xs, ys[..n]);
      assert xs + ys == xs + ys[..n] + [ys[n]] by { SplitLast(ys); }
      NumberSnoc(xs + ys[..n], ys[n]);
      Twice(Number(xs), Pow2(n), Number(ys[..n]), b);
    }
  }

  lemma {:induction false} NumberZeros(k: nat)
    ensures Number(Zeros(k)) == 0
  {
    if k > 0 {
      NumberZeros(k - 1);
      NumberSnoc(Zeros(k - 1), false);
      assert Zeros(k) == Zeros(k - 1) + [false];
    }
  }

  /** One more digit. */
  lemma NumberFlatSnoc(w: nat, ds: seq<nat>, d: nat)
    requires d < Pow2(w)
    ensures Number(Flat(w, ds + [d])) == Number(Flat(w, ds)) * Pow2(w) + d
  {
    FlatSnoc(w, ds, d);
    NumberAppend(Flat(w, ds), Bits(w, d));
    NumberBits(w, d);
  }

  /** Bit strings of one length and one value are the same. */
  lemma SameBits(xs: seq<bool>, ys: seq<bool>)
    requires |xs| == |ys| && Number(xs) == Number(ys)
    ensures xs == ys
  {
    BitsNumber(xs);
    BitsNumber(ys);
  }

  /** Bit i of k, counted from the most significant, is the digit of 2^(k - 1 - i). */
  lemma {:induction false} BitAt(k: nat, x: nat, i: nat)
    requires i < k
    ensures Bits(k, x)[i] <==> x / Pow2(k - 1 - i) % 2 == 1
  {
    if i < k - 1 {
      BitAt(k - 1, x / 2, i);
      DivTwice(x, Pow2(k - 2 - i));
    }
  }

  lemma DivTwice(x: nat, p: nat)
    requires p > 0
    ensures x / 2 / p == x / (2 * p)
  {
    var q, r := x / 2 / p, x / 2 % p;
    assert x / 2 == q * p + r;
    assert q * (2 * p) == 2 * (q * p);
    DivModUnique(x, 2 * p, q, 2 * r + x % 2);
  }
}
