/**
 serialize.h: the wire formats. A format pairs an encoder with a decoder; the decoder
 consumes a prefix of its input, or throws, and says in both cases what is left unread.
 */
module Wire {
  import opened Wrappers
  import opened Radix

  datatype Dec<+T> = Good(value: T, rest: seq<byte>) | Bad(rest: seq<byte>)

  datatype Format<!T> = Format(enc: T -> seq<byte>, dec: seq<byte> -> Dec<T>, valid: T -> bool)

  /** A valid value is read back, whatever follows it. */
  ghost predicate RoundTrips<T(!new)>(f: Format<T>) {
    forall x, rest {:trigger f.dec(f.enc(x) + rest)} :: f.valid(x) ==> f.dec(f.enc(x) + rest) == Good(x, rest)
  }

  /** What is read is valid, and the bytes consumed are its encoding. */
  ghost predicate Canonical<T(!new)>(f: Format<T>) {
    forall s {:trigger f.dec(s)} :: f.dec(s).Good? ==>
      f.valid(f.dec(s).value) && s == f.enc(f.dec(s).value) + f.dec(s).rest
  }

  ghost predicate Shrinks<T>(f: Format<T>) {
    forall s {:trigger f.dec(s)} :: |f.dec(s).rest| <= |s|
  }

  ghost predicate Readable<T(!new)>(f: Format<T>) {
    RoundTrips(f) && Shrinks(f)
  }

  ghost predicate Exact<T(!new)>(f: Format<T>) {
    Readable(f) && Canonical(f)
  }

  // ---- Raw bytes and integers ----

  function TakeBytes(n: nat, s: seq<byte>): Dec<seq<byte>> {
    if n <= |s| then Good(s[..n], s[n..]) else Bad([])
  }

  /** Exactly n bytes. */
  function Fixed(n: nat): Format<seq<byte>> {
    Format((x: seq<byte>) => x, s => TakeBytes(n, s), (x: seq<byte>) => |x| == n)
  }

  lemma FixedExact(n: nat)
    ensures Exact(Fixed(n))
  {
    var f := Fixed(n);
    forall x, rest | f.valid(x) ensures f.dec(f.enc(x) + rest) == Good(x, rest) {
      assert (x + rest)[..n] == x && (x + rest)[n..] == rest;
    }
  }

  function LeBytes(n: nat, v: nat): (bs: seq<byte>)
    ensures |bs| == n
  {
    if n == 0 then [] else [v % 256] + LeBytes(n - 1, v / 256)
  }

  function LeValue(bs: seq<byte>): nat {
    if bs == [] then 0 else bs[0] + 256 * LeValue(bs[1..])
  }

  lemma {:induction false} LeValueOfBytes(n: nat, v: nat)
    requires v < Pow(256, n)
    ensures LeValue(LeBytes(n, v)) == v
  {
    if n > 0 {
      assert v / 256 < Pow(256, n - 1) by { assert Pow(256, n) == 256 * Pow(256, n - 1); }
      LeValueOfBytes(n - 1, v / 256);
      assert LeBytes(n, v)[1..] == LeBytes(n - 1, v / 256);
    }
  }

  lemma {:induction false} LeBytesOfValue(bs: seq<byte>)
    ensures LeValue(bs) < Pow(256, |bs|) && LeBytes(|bs|, LeValue(bs)) == bs
  {
    if bs != [] {
      var hi := LeValue(bs[1..]);
      LeBytesOfValue(bs[1..]);
      assert Pow(256, |bs|) == 256 * Pow(256, |bs| - 1);
      assert LeValue(bs) == bs[0] + 256 * hi;
      assert LeValue(bs) % 256 == bs[0] && LeValue(bs) / 256 == hi;
      assert bs == [bs[0]] + bs[1..];
    }
  }

  lemma LeCons(b: byte, bs: seq<byte>)
    ensures LeValue([b] + bs) == b + 256 * LeValue(bs)
  {
    assert ([b] + bs)[1..] == bs;
  }

  lemma LeFour(a: byte, b: byte, c: byte, d: byte)
    ensures LeValue([a, b]) == a + 0x100 * b
    ensures LeValue([a, b, c, d]) == a + 0x100 * b + 0x1_0000 * c + 0x100_0000 * d
  {
    LeCons(a, [b, c, d]);
    LeCons(b, [c, d]);
    LeCons(c, [d]);
    LeCons(d, []);
    LeCons(a, [b]);
    LeCons(b, []);
    assert [a] + [b, c, d] == [a, b, c, d] && [b] + [c, d] == [b, c, d] && [c] + [d] == [c, d];
    assert [d] + [] == [d] && [a] + [b] == [a, b] && [b] + [] == [b];
  }

  function LeDec(n: nat, s: seq<byte>): Dec<nat> {
    if n <= |s| then Good(LeValue(s[..n]), s[n..]) else Bad([])
  }

  /** An unsigned little-endian integer of n bytes. */
  function Unsigned(n: nat): Format<nat> {
    Format((v: nat) => LeBytes(n, v), s => LeDec(n, s), (v: nat) => v < Pow(256, n))
  }

  lemma UnsignedExact(n: nat)
    ensures Exact(Unsigned(n))
  {
    var f := Unsigned(n);
    forall v: nat, rest | f.valid(v) ensures f.dec(f.enc(v) + rest) == Good(v, rest) {
      var bs := LeBytes(n, v);
      LeValueOfBytes(n, v);
      assert (bs + rest)[..n] == bs && (bs + rest)[n..] == rest;
    }
    forall s | f.dec(s).Good? ensures f.valid(f.dec(s).value) && s == f.enc(f.dec(s).value) + f.dec(s).rest {
      LeBytesOfValue(s[..n]);
    }
  }

  // ---- Pairs and records ----

  function PairEnc<A, B>(f: Format<A>, g: Format<B>, p: (A, B)): seq<byte> {
    f.enc(p.0) + g.enc(p.1)
  }

  function PairDec<A, B>(f: Format<A>, g: Format<B>, s: seq<byte>): Dec<(A, B)> {
    match f.dec(s)
    case Bad(r) => Bad(r)
    case Good(a, r) =>
      match g.dec(r)
      case Bad(t) => Bad(t)
      case Good(b, t) => Good((a, b), t)
  }

  /** One value after another. */
  function Pair<A, B>(f: Format<A>, g: Format<B>): Format<(A, B)> {
    Format((p: (A, B)) => PairEnc(f, g, p), s => PairDec(f, g, s), (p: (A, B)) => f.valid(p.0) && g.valid(p.1))
  }

  lemma PairRoundTrip<A(!new), B(!new)>(f: Format<A>, g: Format<B>, p: (A, B), rest: seq<byte>)
    requires RoundTrips(f) && RoundTrips(g) && f.valid(p.0) && g.valid(p.1)
    ensures PairDec(f, g, PairEnc(f, g, p) + rest) == Good(p, rest)
  {
    assert PairEnc(f, g, p) + rest == f.enc(p.0) + (g.enc(p.1) + rest);
    assert f.dec(f.enc(p.0) + (g.enc(p.1) + rest)) == Good(p.0, g.enc(p.1) + rest);
  }

  lemma PairReadable<A(!new), B(!new)>(f: Format<A>, g: Format<B>)
    requires Readable(f) && Readable(g)
    ensures Readable(Pair(f, g))
  {
    var h := Pair(f, g);
    forall p, rest | h.valid(p) ensures h.dec(h.enc(p) + rest) == Good(p, rest) {
      PairRoundTrip(f, g, p, rest);
    }
    forall s ensures |h.dec(s).rest| <= |s| {
      PairShrinks(f, g, s);
    }
  }

  lemma PairExact<A(!new), B(!new)>(f: Format<A>, g: Format<B>)
    requires Exact(f) && Exact(g)
    ensures Exact(Pair(f, g))
  {
    PairReadable(f, g);
  }

  lemma PairShrinks<A, B>(f: Format<A>, g: Format<B>, s: seq<byte>)
    requires Shrinks(f) && Shrinks(g)
    ensures |PairDec(f, g, s).rest| <= |s|
  {
    var first := f.dec(s);
    assert |first.rest| <= |s|;
    assert |g.dec(first.rest).rest| <= |first.rest|;
  }

  function IsoDec<A, B>(f: Format<A>, to: A -> B, s: seq<byte>): Dec<B> {
    match f.dec(s)
    case Bad(r) => Bad(r)
    case Good(a, r) => Good(to(a), r)
  }

  /** A record stored as the tuple of its fields; fields the tuple lacks have a default. */
  function Iso<A, B(==)>(f: Format<A>, to: A -> B, from: B -> A): Format<B> {
    Format((b: B) => f.enc(from(b)), s => IsoDec(f, to, s), (b: B) => f.valid(from(b)) && to(from(b)) == b)
  }

  lemma IsoReadable<A(!new), B(!new)>(f: Format<A>, to: A -> B, from: B -> A)
    requires Readable(f)
    ensures Readable(Iso(f, to, from))
  {
    var h := Iso(f, to, from);
    forall b, rest | h.valid(b) ensures h.dec(h.enc(b) + rest) == Good(b, rest) {
      assert f.dec(f.enc(from(b)) + rest) == Good(from(b), rest);
    }
    forall s ensures |h.dec(s).rest| <= |s| {
      assert |f.dec(s).rest| <= |s|;
    }
  }

  lemma IsoExact<A(!new), B(!new)>(f: Format<A>, to: A -> B, from: B -> A)
    requires Exact(f) && forall a {:trigger to(a)} :: f.valid(a) ==> from(to(a)) == a
    ensures Exact(Iso(f, to, from))
  {
    IsoReadable(f, to, from);
  }

  lemma IsoEnc<A, B>(f: Format<A>, to: A -> B, from: B -> A, b: B)
    ensures Iso(f, to, from).enc(b) == f.enc(from(b))
  {
  }

  lemma IsoDecIs<A, B>(f: Format<A>, to: A -> B, from: B -> A, s: seq<byte>)
    ensures Iso(f, to, from).dec(s) == IsoDec(f, to, s)
  {
  }

  lemma PairDecIs<A, B>(f: Format<A>, g: Format<B>, s: seq<byte>)
    ensures Pair(f, g).dec(s) == PairDec(f, g, s)
  {
  }

  lemma IsoValid<A, B>(f: Format<A>, to: A -> B, from: B -> A, b: B)
    ensures Iso(f, to, from).valid(b) <==> f.valid(from(b)) && to(from(b)) == b
  {
  }

  lemma PairValid<A, B>(f: Format<A>, g: Format<B>, a: A, b: B)
    ensures Pair(f, g).valid((a, b)) <==> f.valid(a) && g.valid(b)
  {
  }

  lemma PairEncIs<A, B>(f: Format<A>, g: Format<B>, a: A, b: B)
    ensures Pair(f, g).enc((a, b)) == f.enc(a) + g.enc(b)
  {
  }

  /** Every value takes exactly n bytes, and fewer bytes are refused. */
  ghost predicate Wide<T>(f: Format<T>, n: nat) {
    forall s {:trigger f.dec(s)} ::
      if |s| < n then f.dec(s) == Bad([]) else f.dec(s).Good? && |f.dec(s).rest| == |s| - n
  }

  lemma PairWide<A, B>(f: Format<A>, g: Format<B>, m: nat, n: nat)
    requires Wide(f, m) && Wide(g, n)
    ensures Wide(Pair(f, g), m + n)
  {
    var h := Pair(f, g);
    forall s ensures if |s| < m + n then h.dec(s) == Bad([]) else h.dec(s).Good? && |h.dec(s).rest| == |s| - m - n {
      PairDecIs(f, g, s);
      assert |s| >= m ==> |g.dec(f.dec(s).rest).rest| <= |f.dec(s).rest|;
    }
  }

  lemma IsoWide<A, B>(f: Format<A>, to: A -> B, from: B -> A, n: nat)
    requires Wide(f, n)
    ensures Wide(Iso(f, to, from), n)
  {
    forall s ensures Iso(f, to, from).dec(s) == IsoDec(f, to, s) {
      IsoDecIs(f, to, from, s);
    }
  }

  // ---- Sizes ----

  const MAX_SIZE: nat := 0x02000000

  function SizeEnc(n: nat): seq<byte> {
    if n < 253 then [n]
    else if n <= 0xFFFF then [253] + LeBytes(2, n)
    else if n <= 0xFFFF_FFFF then [254] + LeBytes(4, n)
    else [255] + LeBytes(8, n)
  }

  /** The number after the size marker, refused below `least` or above MAX_SIZE. */
  function LongSizeDec(width: nat, least: nat, s: seq<byte>): Dec<nat> {
    match LeDec(width, s)
    case Bad(r) => Bad(r)
    case Good(n, r) => if n < least || n > MAX_SIZE then Bad(r) else Good(n, r)
  }

  function SizeDec(s: seq<byte>): Dec<nat> {
    if s == [] then Bad([])
    else if s[0] < 253 then Good(s[0], s[1..])
    else if s[0] == 253 then LongSizeDec(2, 253, s[1..])
    else if s[0] == 254 then LongSizeDec(4, 0x10000, s[1..])
    else LongSizeDec(8, 0x1_0000_0000, s[1..])
  }

  lemma Pow256()
    ensures Pow(256, 2) == 0x1_0000 && Pow(256, 4) == 0x1_0000_0000 && Pow(256, 8) == 0x1_0000_0000_0000_0000
  {
    PowAdd(256, 4, 4);
  }

  lemma LongSize(width: nat, least: nat, n: nat, rest: seq<byte>)
    requires least <= n < Pow(256, width)
    ensures LongSizeDec(width, least, LeBytes(width, n) + rest) == if n > MAX_SIZE then Bad(rest) else Good(n, rest)
  {
    UnsignedExact(width);
    var f := Unsigned(width);
    assert f.dec(f.enc(n) + rest) == Good(n, rest);
  }

  /** A size is read back exactly when it does not exceed MAX_SIZE. */
  lemma SizeRoundTrip(n: nat, rest: seq<byte>)
    requires n < 0x1_0000_0000_0000_0000
    ensures SizeDec(SizeEnc(n) + rest) == if n > MAX_SIZE then Bad(rest) else Good(n, rest)
  {
    if n < 253 {
      assert (SizeEnc(n) + rest)[1..] == rest;
    } else if n <= 0xFFFF {
      MarkedSize(253, 2, 253, n, rest);
    } else if n <= 0xFFFF_FFFF {
      MarkedSize(254, 4, 0x10000, n, rest);
    } else {
      MarkedSize(255, 8, 0x1_0000_0000, n, rest);
    }
  }

  lemma MarkedSize(marker: byte, width: nat, least: nat, n: nat, rest: seq<byte>)
    requires
      || (width == 2 && n < 0x1_0000)
      || (width == 4 && n < 0x1_0000_0000)
      || (width == 8 && n < 0x1_0000_0000_0000_0000)
    requires least <= n
    ensures var s := [marker] + LeBytes(width, n) + rest;
      s[0] == marker && LongSizeDec(width, least, s[1..]) == if n > MAX_SIZE then Bad(rest) else Good(n, rest)
  {
    var s := [marker] + LeBytes(width, n) + rest;
    assert s[1..] == LeBytes(width, n) + rest;
    assert n < Pow(256, width) by { Pow256(); }
    LongSize(width, least, n, rest);
  }

  lemma LongSizeCanonical(width: nat, least: nat, s: seq<byte>)
    ensures var d := LongSizeDec(width, least, s);
      |d.rest| <= |s| && (d.Good? ==> least <= d.value < Pow(256, width) && d.value <= MAX_SIZE
                                      && s == LeBytes(width, d.value) + d.rest)
  {
    if width <= |s| {
      LeBytesOfValue(s[..width]);
    }
  }

  lemma SizeCanonical(s: seq<byte>)
    ensures var d := SizeDec(s);
      |d.rest| <= |s| && (d.Good? ==> d.value <= MAX_SIZE && s == SizeEnc(d.value) + d.rest)
  {
    Pow256();
    if s != [] {
      assert s == [s[0]] + s[1..];
      if s[0] == 253 {
        LongSizeCanonical(2, 253, s[1..]);
      } else if s[0] == 254 {
        LongSizeCanonical(4, 0x10000, s[1..]);
      } else if s[0] == 255 {
        LongSizeCanonical(8, 0x1_0000_0000, s[1..]);
      }
    }
  }

  function GetSizeOfCompactSize(n: nat): (size: nat)
    requires n < 0x1_0000_0000_0000_0000
    ensures size == |SizeEnc(n)|
  {
    if n < 253 then 1 else if n <= 0xFFFF then 3 else if n <= 0xFFFF_FFFF then 5 else 9
  }

  // ---- Vectors ----

  function ManyEnc<T>(f: Format<T>, xs: seq<T>): seq<byte> {
    if xs == [] then [] else f.enc(xs[0]) + ManyEnc(f, xs[1..])
  }

  function ManyDec<T>(f: Format<T>, n: nat, s: seq<byte>): Dec<seq<T>> {
    if n == 0 then Good([], s) else
      match f.dec(s)
      case Bad(r) => Bad(r)
      case Good(x, r) =>
        match ManyDec(f, n - 1, r)
        case Bad(t) => Bad(t)
        case Good(xs, t) => Good([x] + xs, t)
  }

  predicate AllValid<T>(f: Format<T>, xs: seq<T>) {
    forall i :: 0 <= i < |xs| ==> f.valid(xs[i])
  }

  lemma {:induction false} ManyRoundTrip<T(!new)>(f: Format<T>, xs: seq<T>, rest: seq<byte>)
    requires RoundTrips(f) && AllValid(f, xs)
    ensures ManyDec(f, |xs|, ManyEnc(f, xs) + rest) == Good(xs, rest)
  {
    if xs != [] {
      var tail := ManyEnc(f, xs[1..]) + rest;
      assert ManyEnc(f, xs) + rest == f.enc(xs[0]) + tail;
      assert f.dec(f.enc(xs[0]) + tail) == Good(xs[0], tail);
      ManyRoundTrip(f, xs[1..], rest);
      assert [xs[0]] + xs[1..] == xs;
    }
  }

  lemma {:induction false} ManyCanonical<T(!new)>(f: Format<T>, n: nat, s: seq<byte>)
    requires Canonical(f)
    ensures var d := ManyDec(f, n, s);
      d.Good? ==> |d.value| == n && AllValid(f, d.value) && s == ManyEnc(f, d.value) + d.rest
  {
    if n > 0 && f.dec(s).Good? {
      var r := f.dec(s).rest;
      ManyCanonical(f, n - 1, r);
      if ManyDec(f, n - 1, r).Good? {
        var x, xs := f.dec(s).value, ManyDec(f, n - 1, r).value;
        assert s == f.enc(x) + (ManyEnc(f, xs) + ManyDec(f, n - 1, r).rest);
        assert ([x] + xs)[1..] == xs;
      }
    }
  }

  lemma {:induction false} ManyShrinks<T>(f: Format<T>, n: nat, s: seq<byte>)
    requires Shrinks(f)
    ensures |ManyDec(f, n, s).rest| <= |s|
  {
    if n > 0 && f.dec(s).Good? {
      ManyShrinks(f, n - 1, f.dec(s).rest);
    }
  }

  function VecEnc<T>(f: Format<T>, xs: seq<T>): seq<byte> {
    SizeEnc(|xs|) + ManyEnc(f, xs)
  }

  function VecDec<T>(f: Format<T>, s: seq<byte>): Dec<seq<T>> {
    match SizeDec(s)
    case Bad(r) => Bad(r)
    case Good(n, r) => ManyDec(f, n, r)
  }

  /** A vector: its size, then its elements. */
  function Vec<T>(f: Format<T>): Format<seq<T>> {
    Format((xs: seq<T>) => VecEnc(f, xs), s => VecDec(f, s), (xs: seq<T>) => |xs| <= MAX_SIZE && AllValid(f, xs))
  }

  lemma VecRoundTrips<T(!new)>(f: Format<T>)
    requires RoundTrips(f)
    ensures RoundTrips(Vec(f))
  {
    var h := Vec(f);
    forall xs, rest | h.valid(xs) ensures h.dec(h.enc(xs) + rest) == Good(xs, rest) {
      assert VecEnc(f, xs) + rest == SizeEnc(|xs|) + (ManyEnc(f, xs) + rest);
      SizeRoundTrip(|xs|, ManyEnc(f, xs) + rest);
      ManyRoundTrip(f, xs, rest);
    }
  }

  lemma VecShrinks<T>(f: Format<T>)
    requires Shrinks(f)
    ensures Shrinks(Vec(f))
  {
    var h := Vec(f);
    forall s ensures |h.dec(s).rest| <= |s| {
      SizeCanonical(s);
      if SizeDec(s).Good? {
        ManyShrinks(f, SizeDec(s).value, SizeDec(s).rest);
      }
    }
  }

  lemma VecExact<T(!new)>(f: Format<T>)
    requires Exact(f)
    ensures Exact(Vec(f))
  {
    var h := Vec(f);
    VecRoundTrips(f);
    VecShrinks(f);
    forall s | h.dec(s).Good? ensures h.valid(h.dec(s).value) && s == h.enc(h.dec(s).value) + h.dec(s).rest {
      VecCanonical(f, s);
    }
  }

  lemma VecCanonical<T(!new)>(f: Format<T>, s: seq<byte>)
    requires Canonical(f) && VecDec(f, s).Good?
    ensures var d := VecDec(f, s);
      |d.value| <= MAX_SIZE && AllValid(f, d.value) && s == VecEnc(f, d.value) + d.rest
  {
    SizeCanonical(s);
    ManyCanonical(f, SizeDec(s).value, SizeDec(s).rest);
    var d := VecDec(f, s);
    assert s == SizeEnc(|d.value|) + (ManyEnc(f, d.value) + d.rest);
  }
}
