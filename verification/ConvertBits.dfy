/**
 ConvertBits regroups `from`-bit values into `to`-bit values through a masked accumulator.
 Its specification: the bit string of the output is the bit string of the input, followed
 by padding zeros (pad) or cut at the last whole group (no pad).
 */
module ConvertBits {
  import opened Radix
  import opened BitOps

  /** Zero bits needed to fill n bits up to a whole number of groups. */
  function PadBits(n: nat, to: nat): (p: nat)
    requires to > 0
    ensures p < to
  {
    if n >= to then PadBits(n - to, to) else if n == 0 then 0 else to - n
  }

  function Padded(from: nat, to: nat, ds: seq<nat>): (out: seq<nat>)
    requires to > 0
    ensures Groups(to, out)
  {
    var bs := Flat(from, ds);
    Cut(to, bs + Zeros(PadBits(|bs|, to)))
  }

  function Unpadded(from: nat, to: nat, ds: seq<nat>): (out: seq<nat>)
    requires to > 0
    ensures Groups(to, out)
  {
    Cut(to, Flat(from, ds))
  }

  /** Less than one input value is left over, and its bits are zero. */
  predicate RestOk(from: nat, to: nat, ds: seq<nat>)
    requires to > 0
  {
    var rest := Rest(to, Flat(from, ds));
    |rest| < from && rest == Zeros(|rest|)
  }

  /** `acc = ((acc << from) | d) & max_acc`: no live bit is lost. */
  method Feed(from: nat, to: nat, acc: nat, ghost bits: nat, d: nat) returns (acc': nat)
    requires bits < to && d < Pow2(from)
    ensures Bits(bits + from, acc') == Bits(bits, acc) + Bits(from, d)
  {
    AndMask(bits + from, from + to - 1, Or(Shl(acc, from), d));
    ShlOrBits(bits, from, acc, d);
    acc' := And(Or(Shl(acc, from), d), Mask(from + to - 1));
  }

  /** `(acc >> bits) & maxv`: the top `to` of the live bits. */
  method Take(to: nat, acc: nat, bits: nat) returns (g: nat)
    ensures g < Pow2(to) && Bits(to + bits, acc) == Bits(to, g) + Bits(bits, acc)
  {
    AndMask(to, to, Shr(acc, bits));
    ShrBits(to, bits, acc);
    g := And(Shr(acc, bits), Mask(to));
  }

  /** `(acc << (to - bits)) & maxv`: the live bits above zeros. */
  method Last(to: nat, acc: nat, bits: nat) returns (g: nat)
    requires bits < to
    ensures g < Pow2(to) && Bits(to, g) == Bits(bits, acc) + Zeros(to - bits)
    ensures (g == 0) == (Bits(bits, acc) == Zeros(bits))
  {
    g := And(Shl(acc, to - bits), Mask(to));
    AndMask(to, to, Shl(acc, to - bits));
    ShlBits(bits, to - bits, acc);
    BitsZero(to);
    if Bits(bits, acc) == Zeros(bits) {
      assert Bits(to, g) == Zeros(to);
      BitsInjective(to, g, 0);
    }
    assert Zeros(to)[..bits] == Zeros(bits);
  }

  /** The loop state: the output and the live bits of the accumulator are the input read. */
  ghost predicate Holds(from: nat, to: nat, read: seq<nat>, out: seq<nat>, live: seq<bool>) {
    Groups(to, out) && Flat(to, out) + live == Flat(from, read)
  }

  lemma HoldsIn(from: nat, to: nat, read: seq<nat>, d: nat, out: seq<nat>, live: seq<bool>)
    requires Holds(from, to, read, out, live)
    ensures Holds(from, to, read + [d], out, live + Bits(from, d))
  {
    FlatSnoc(from, read, d);
    assert Flat(to, out) + (live + Bits(from, d)) == Flat(to, out) + live + Bits(from, d);
  }

  lemma HoldsOut(from: nat, to: nat, read: seq<nat>, out: seq<nat>, g: nat, live: seq<bool>)
    requires g < Pow2(to) && Holds(from, to, read, out, Bits(to, g) + live)
    ensures Holds(from, to, read, out + [g], live)
  {
    FlatSnoc(to, out, g);
    assert Flat(to, out) + (Bits(to, g) + live) == Flat(to, out) + Bits(to, g) + live;
  }

  /** The inner loop: writes every whole group of live bits. */
  method Drain(ghost from: nat, to: nat, ghost read: seq<nat>, acc: nat, bits: nat, out: seq<nat>)
    returns (bits': nat, out': seq<nat>)
    requires 0 < to && Holds(from, to, read, out, Bits(bits, acc))
    ensures bits' < to && Holds(from, to, read, out', Bits(bits', acc))
  {
    bits', out' := bits, out;
    while bits' >= to
      invariant Holds(from, to, read, out', Bits(bits', acc))
    {
      bits' := bits' - to;
      var g := Take(to, acc, bits');
      HoldsOut(from, to, read, out', g, Bits(bits', acc));
      out' := out' + [g];
    }
  }

  /** ConvertBits<from, to, pad>. */
  method Convert(from: nat, to: nat, pad: bool, ds: seq<nat>) returns (ok: bool, out: seq<nat>)
    requires 0 < from && 0 < to && Groups(from, ds)
    ensures pad ==> ok && out == Padded(from, to, ds)
    ensures !pad ==> out == Unpadded(from, to, ds) && ok == RestOk(from, to, ds)
  {
    var acc: nat, bits: nat := 0, 0;
    out := [];
    for i := 0 to |ds|
      invariant bits < to && Holds(from, to, ds[..i], out, Bits(bits, acc))
    {
      HoldsIn(from, to, ds[..i], ds[i], out, Bits(bits, acc));
      assert ds[..i + 1] == ds[..i] + [ds[i]];
      acc := Feed(from, to, acc, bits, ds[i]);
      bits, out := Drain(from, to, ds[..i + 1], acc, bits + from, out);
    }
    assert ds[..|ds|] == ds;
    ok, out := Finish(from, to, pad, ds, acc, bits, out);
  }

  /** After the loop: the live bits above padding, or the test that they are padding. */
  method Finish(from: nat, to: nat, pad: bool, ghost ds: seq<nat>, acc: nat, bits: nat, out: seq<nat>)
    returns (ok: bool, out': seq<nat>)
    requires 0 < to && bits < to && Holds(from, to, ds, out, Bits(bits, acc))
    ensures pad ==> ok && out' == Padded(from, to, ds)
    ensures !pad ==> out' == Unpadded(from, to, ds) && ok == RestOk(from, to, ds)
  {
    UnpaddedIs(from, to, ds, out, Bits(bits, acc));
    ok, out' := true, out;
    var g := Last(to, acc, bits);
    if pad {
      PaddedEnd(from, to, ds, out, g, Bits(bits, acc));
      if bits != 0 {
        out' := out + [g];
      }
    } else if bits >= from || g != 0 {
      ok := false;
    }
  }

  /** Zeros that complete a bit string to whole groups are its padding. */
  lemma {:induction false} PaddingIs(w: nat, bs: seq<bool>, p: nat)
    requires p < w && Rest(w, bs + Zeros(p)) == []
    ensures PadBits(|bs|, w) == p
  {
    if |bs| >= w {
      assert (bs + Zeros(p))[w..] == bs[w..] + Zeros(p);
      PaddingIs(w, bs[w..], p);
    }
  }

  lemma {:induction false} PaddingCompletes(w: nat, bs: seq<bool>)
    requires w > 0
    ensures Rest(w, bs + Zeros(PadBits(|bs|, w))) == []
  {
    if |bs| >= w {
      assert (bs + Zeros(PadBits(|bs|, w)))[w..] == bs[w..] + Zeros(PadBits(|bs[w..]|, w));
      PaddingCompletes(w, bs[w..]);
    }
  }

  /** The padded regrouping is the one string of groups with this bit string. */
  lemma PaddedIs(from: nat, to: nat, ds: seq<nat>, out: seq<nat>, p: nat)
    requires p < to && Groups(to, out) && Flat(to, out) == Flat(from, ds) + Zeros(p)
    ensures Padded(from, to, ds) == out
  {
    CutFlat(to, out, []);
    assert Flat(to, out) + [] == Flat(to, out);
    PaddingIs(to, Flat(from, ds), p);
  }

  /** The last group is written only when live bits remain. */
  lemma PaddedEnd(from: nat, to: nat, ds: seq<nat>, out: seq<nat>, g: nat, live: seq<bool>)
    requires |live| < to && Holds(from, to, ds, out, live)
    requires g < Pow2(to) && Bits(to, g) == live + Zeros(to - |live|)
    ensures Padded(from, to, ds) == if live == [] then out else out + [g]
  {
    if live == [] {
      assert Flat(from, ds) + Zeros(0) == Flat(to, out);
      PaddedIs(from, to, ds, out, 0);
    } else {
      FlatSnoc(to, out, g);
      assert Flat(to, out) + (live + Zeros(to - |live|)) == Flat(to, out) + live + Zeros(to - |live|);
      PaddedIs(from, to, ds, out + [g], to - |live|);
    }
  }

  lemma PaddedFlat(from: nat, to: nat, ds: seq<nat>)
    requires 0 < to
    ensures Flat(to, Padded(from, to, ds)) == Flat(from, ds) + Zeros(PadBits(|Flat(from, ds)|, to))
  {
    var bs := Flat(from, ds);
    PaddingCompletes(to, bs);
    FlatCut(to, bs + Zeros(PadBits(|bs|, to)));
  }

  /** The unpadded regrouping is the one string of groups that leaves less than a group. */
  lemma UnpaddedIs(from: nat, to: nat, ds: seq<nat>, out: seq<nat>, rest: seq<bool>)
    requires |rest| < to && Groups(to, out) && Flat(to, out) + rest == Flat(from, ds)
    ensures Unpadded(from, to, ds) == out
    ensures RestOk(from, to, ds) == (|rest| < from && rest == Zeros(|rest|))
  {
    CutFlat(to, out, rest);
  }

  /** Padding to smaller groups and regrouping back returns the input. */
  lemma UnpadPad(a: nat, b: nat, ds: seq<nat>)
    requires 0 < b <= a && Groups(a, ds)
    ensures RestOk(b, a, Padded(a, b, ds))
    ensures Unpadded(b, a, Padded(a, b, ds)) == ds
  {
    PaddedFlat(a, b, ds);
    UnpaddedIs(b, a, Padded(a, b, ds), ds, Zeros(PadBits(|Flat(a, ds)|, b)));
  }

  /** An accepted regrouping to larger groups pads back to the input. */
  lemma PadUnpad(a: nat, b: nat, ds: seq<nat>)
    requires 0 < b <= a && Groups(b, ds) && RestOk(b, a, ds)
    ensures Padded(a, b, Unpadded(b, a, ds)) == ds
  {
    var rest := Rest(a, Flat(b, ds));
    FlatCut(a, Flat(b, ds));
    PaddedIs(a, b, Unpadded(b, a, ds), ds, |rest|);
  }

  /** PadBits in terms of the remainder the code computes. */
  lemma {:induction false} PadBitsMod(n: nat, m: nat, g: nat)
    requires n <= m < n + g
    ensures m % g == 0 <==> m == n + PadBits(n, g)
  {
    if n >= g {
      SubMod(m, g);
      PadBitsMod(n - g, m - g, g);
    } else if m >= g {
      SubMod(m, g);
    }
  }

  lemma SubMod(m: nat, g: nat)
    requires 0 < g <= m
    ensures m % g == (m - g) % g
  {
    var q: nat, r := (m - g) / g, (m - g) % g;
    DivModUnique(m, g, q + 1, r);
  }
}
