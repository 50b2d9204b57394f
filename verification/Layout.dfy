/**
 The bytes of transactions and blocks by position: where every field stands, how wide it is,
 and which values are in range.
 */
module Layouts {
  import opened Wrappers
  import opened Radix
  import opened Wire
  import opened Transactions
  import opened Blocks
  import opened TxWriters

  // ---- Integers and sizes ----

  /** Four bytes, least significant first. */
  function Le32(s: seq<byte>, at: nat): nat
    requires at + 4 <= |s|
  {
    s[at] as nat + 0x100 * s[at + 1] as nat + 0x1_0000 * s[at + 2] as nat + 0x100_0000 * s[at + 3] as nat
  }

  function Le64(s: seq<byte>, at: nat): nat
    requires at + 8 <= |s|
  {
    Le32(s, at) + 0x1_0000_0000 * Le32(s, at + 4)
  }

  /** Two's complement: the top bit counts negative. */
  function Int32At(s: seq<byte>, at: nat): int
    requires at + 4 <= |s|
  {
    if s[at + 3] >= 0x80 then Le32(s, at) - 0x1_0000_0000 else Le32(s, at)
  }

  function Int64At(s: seq<byte>, at: nat): int
    requires at + 8 <= |s|
  {
    if s[at + 7] >= 0x80 then Le64(s, at) - 0x1_0000_0000_0000_0000 else Le64(s, at)
  }

  lemma {:induction false} LeJoin(a: seq<byte>, b: seq<byte>)
    ensures LeValue(a + b) == LeValue(a) + Pow(256, |a|) * LeValue(b)
  {
    if a == [] {
      assert a + b == b;
    } else {
      LeJoin(a[1..], b);
      assert (a + b)[1..] == a[1..] + b;
      MulAssoc(256, Pow(256, |a| - 1), LeValue(b));
    }
  }

  lemma Le32Is(s: seq<byte>, at: nat)
    requires at + 4 <= |s|
    ensures LeValue(s[at..at + 4]) == Le32(s, at)
  {
    LeFour(s[at], s[at + 1], s[at + 2], s[at + 3]);
    assert s[at..at + 4] == [s[at], s[at + 1], s[at + 2], s[at + 3]];
  }

  lemma Le64Is(s: seq<byte>, at: nat)
    requires at + 8 <= |s|
    ensures LeValue(s[at..at + 8]) == Le64(s, at)
  {
    Le32Is(s, at);
    Le32Is(s, at + 4);
    Pow256();
    LeJoin(s[at..at + 4], s[at + 4..at + 8]);
    assert s[at..at + 8] == s[at..at + 4] + s[at + 4..at + 8];
  }

  lemma Uint32At(s: seq<byte>)
    ensures UINT32.dec(s) == if |s| < 4 then Bad([]) else Good(Le32(s, 0), s[4..])
  {
    if |s| >= 4 {
      Le32Is(s, 0);
    }
  }

  lemma SignedDec(n: nat, range: nat, s: seq<byte>)
    ensures Signed(n, range).dec(s) == if |s| < n then Bad([]) else Good(SignedOf(range, LeValue(s[..n])), s[n..])
  {
    IsoDecIs(Unsigned(n), (v: nat) => SignedOf(range, v), (v: int) => UnsignedOf(range, v), s);
  }

  lemma VersionAt(s: seq<byte>)
    ensures INT32.dec(s) == if |s| < 4 then Bad([]) else Good(Int32At(s, 0), s[4..])
  {
    SignedDec(4, 0x1_0000_0000, s);
    if |s| >= 4 {
      Le32Is(s, 0);
    }
  }

  lemma AmountAt(s: seq<byte>)
    ensures INT64.dec(s) == if |s| < 8 then Bad([]) else Good(Int64At(s, 0), s[8..])
  {
    SignedDec(8, 0x1_0000_0000_0000_0000, s);
    if |s| >= 8 {
      Le64Is(s, 0);
    }
  }

  /** A size in its one form, at most 0x2000000, at the start of s. */
  ghost predicate SizeForm(s: seq<byte>, n: nat, rest: seq<byte>) {
    || (|s| >= 1 && s[0] < 253 && n == s[0] && rest == s[1..])
    || (|s| >= 3 && s[0] == 253 && n == s[1] as nat + 0x100 * s[2] as nat && 253 <= n && rest == s[3..])
    || (|s| >= 5 && s[0] == 254 && n == Le32(s, 1) && 0x1_0000 <= n <= 0x200_0000 && rest == s[5..])
  }

  lemma LongSizeIs(width: nat, least: nat, s: seq<byte>, n: nat, rest: seq<byte>)
    ensures LongSizeDec(width, least, s) == Good(n, rest) <==>
      width <= |s| && n == LeValue(s[..width]) && least <= n <= MAX_SIZE && rest == s[width..]
  {
  }

  lemma SizeTwo(s: seq<byte>, n: nat, rest: seq<byte>)
    requires |s| >= 1
    ensures LongSizeDec(2, 253, s[1..]) == Good(n, rest) <==>
      |s| >= 3 && n == s[1] as nat + 0x100 * s[2] as nat && 253 <= n && rest == s[3..]
  {
    LongSizeIs(2, 253, s[1..], n, rest);
    if |s| >= 3 {
      LeFour(s[1], s[2], 0, 0);
      assert s[1..][..2] == [s[1], s[2]] && s[1..][2..] == s[3..];
    }
  }

  lemma SizeFour(s: seq<byte>, n: nat, rest: seq<byte>)
    requires |s| >= 1
    ensures LongSizeDec(4, 0x10000, s[1..]) == Good(n, rest) <==>
      |s| >= 5 && n == Le32(s, 1) && 0x1_0000 <= n <= 0x200_0000 && rest == s[5..]
  {
    LongSizeIs(4, 0x10000, s[1..], n, rest);
    if |s| >= 5 {
      Le32Is(s, 1);
      assert s[1..][..4] == s[1..5] && s[1..][4..] == s[5..];
    }
  }

  /** Exactly which bytes are read as which size; no size of eight bytes ever is. */
  lemma SizeIff(s: seq<byte>, n: nat, rest: seq<byte>)
    ensures SizeDec(s) == Good(n, rest) <==> SizeForm(s, n, rest)
  {
    if s != [] {
      SizeTwo(s, n, rest);
      SizeFour(s, n, rest);
      LongSizeIs(8, 0x1_0000_0000, s[1..], n, rest);
    }
  }

  // ---- Reading the parts ----

  /** A byte vector v at the start of s: its size and its bytes. */
  ghost predicate VectorForm(s: seq<byte>, v: seq<byte>, rest: seq<byte>) {
    exists t {:trigger SizeForm(s, |v|, t)} :: SizeForm(s, |v|, t) && t == v + rest
  }

  lemma BytesAt(s: seq<byte>, v: seq<byte>, rest: seq<byte>)
    ensures BYTES.dec(s) == Good(v, rest) <==> VectorForm(s, v, rest)
  {
    assert BYTES.dec(s) == VecDec(BYTE, s);
    var d := SizeDec(s);
    if d.Good? {
      SizeIff(s, d.value, d.rest);
      BytesMany(d.value, d.rest);
    }
    if BYTES.dec(s) == Good(v, rest) {
      assert d.rest == v + rest;
      assert SizeForm(s, |v|, d.rest);
    }
    if VectorForm(s, v, rest) {
      var t :| SizeForm(s, |v|, t) && t == v + rest;
      SizeIff(s, |v|, t);
      assert t[..|v|] == v && t[|v|..] == rest;
    }
  }

  lemma {:induction false} BytesMany(n: nat, s: seq<byte>)
    ensures ManyDec(BYTE, n, s) == TakeBytes(n, s)
  {
    if n > 0 && s != [] {
      BytesMany(n - 1, s[1..]);
      if n <= |s| {
        assert s[..n] == [s[0]] + s[1..][..n - 1];
      }
    }
  }

  /** An outpoint: 32 bytes of hash and four of index. */
  lemma OutPointAt(s: seq<byte>)
    ensures OUTPOINT.dec(s) ==
      if |s| < 36 then Bad([]) else Good(OutPoint(s[..32], Le32(s, 32)), s[36..])
  {
    IsoDecIs(Pair(HASH, UINT32), ToOutPoint, FromOutPoint, s);
    PairDecIs(HASH, UINT32, s);
    assert HASH.dec(s) == TakeBytes(32, s);
    if |s| >= 32 {
      Uint32At(s[32..]);
      assert |s| >= 36 ==> s[32..][4..] == s[36..];
    } else {
      Uint32At([]);
    }
  }

  lemma OutPointWide()
    ensures Wide(OUTPOINT, 36)
  {
    forall s ensures if |s| < 36 then OUTPOINT.dec(s) == Bad([])
                     else OUTPOINT.dec(s).Good? && |OUTPOINT.dec(s).rest| == |s| - 36 {
      OutPointAt(s);
    }
  }

  ghost predicate SequenceForm(s: seq<byte>, n: nat, rest: seq<byte>) {
    |s| >= 4 && n == Le32(s, 0) && rest == s[4..]
  }

  /** An input: 36 bytes of outpoint, the script and four bytes of sequence number. */
  ghost predicate InputForm(s: seq<byte>, i: TxIn, rest: seq<byte>) {
    && |s| >= 36 && i.prevout == OutPoint(s[..32], Le32(s, 32)) && i.scriptWitness == []
    && exists u {:trigger VectorForm(s[36..], i.scriptSig, u)} ::
         VectorForm(s[36..], i.scriptSig, u) && SequenceForm(u, i.nSequence, rest)
  }

  lemma InputIff(s: seq<byte>, i: TxIn, rest: seq<byte>)
    ensures TXIN.dec(s) == Good(i, rest) <==> InputForm(s, i, rest)
  {
    IsoDecIs(Pair(OUTPOINT, Pair(BYTES, UINT32)), ToTxIn, FromTxIn, s);
    PairDecIs(OUTPOINT, Pair(BYTES, UINT32), s);
    OutPointAt(s);
    if |s| >= 36 {
      ScriptIff(s[36..], i.scriptSig, i.nSequence, rest);
      PairDecIs(BYTES, UINT32, s[36..]);
    }
  }

  lemma ScriptIff(s: seq<byte>, script: seq<byte>, n: nat, rest: seq<byte>)
    ensures Pair(BYTES, UINT32).dec(s) == Good((script, n), rest) <==>
      exists u {:trigger VectorForm(s, script, u)} :: VectorForm(s, script, u) && SequenceForm(u, n, rest)
  {
    PairDecIs(BYTES, UINT32, s);
    var d := BYTES.dec(s);
    if d.Good? {
      BytesAt(s, d.value, d.rest);
      Uint32At(d.rest);
      assert VectorForm(s, d.value, d.rest);
    }
    forall u | VectorForm(s, script, u) ensures d == Good(script, u) {
      BytesAt(s, script, u);
    }
  }

  /** An output: eight bytes of amount and the script. */
  ghost predicate OutputForm(s: seq<byte>, o: TxOut, rest: seq<byte>) {
    |s| >= 8 && o.nValue == Int64At(s, 0) && VectorForm(s[8..], o.scriptPubKey, rest)
  }

  lemma OutputIff(s: seq<byte>, o: TxOut, rest: seq<byte>)
    ensures TXOUT.dec(s) == Good(o, rest) <==> OutputForm(s, o, rest)
  {
    IsoDecIs(Pair(INT64, BYTES), ToTxOut, FromTxOut, s);
    PairDecIs(INT64, BYTES, s);
    AmountAt(s);
    if |s| >= 8 {
      BytesAt(s[8..], o.scriptPubKey, rest);
    }
  }

  lemma VectorLeast(s: seq<byte>, v: seq<byte>, rest: seq<byte>)
    requires VectorForm(s, v, rest)
    ensures |s| >= 1 + |v| + |rest|
  {
  }

  /** No input takes fewer than 41 bytes and no output fewer than nine. */
  lemma LeastSizes(s: seq<byte>)
    ensures TXIN.dec(s).Good? ==> |s| - |TXIN.dec(s).rest| >= 41
    ensures TXOUT.dec(s).Good? ==> |s| - |TXOUT.dec(s).rest| >= 9
  {
    var i, o := TXIN.dec(s), TXOUT.dec(s);
    if i.Good? {
      InputIff(s, i.value, i.rest);
      var u :| VectorForm(s[36..], i.value.scriptSig, u) && SequenceForm(u, i.value.nSequence, i.rest);
      VectorLeast(s[36..], i.value.scriptSig, u);
    }
    if o.Good? {
      OutputIff(s, o.value, o.rest);
      VectorLeast(s[8..], o.value.scriptPubKey, o.rest);
    }
  }

  // ---- Headers ----

  function HeaderOf(s: seq<byte>): Header
    requires |s| >= 80
  {
    Header(Int32At(s, 0), s[4..36], s[36..68], Le32(s, 68), Le32(s, 72), Le32(s, 76))
  }

  lemma TimesAt(s: seq<byte>)
    ensures TIMES.dec(s) == if |s| < 12 then Bad([]) else Good((Le32(s, 0), (Le32(s, 4), Le32(s, 8))), s[12..])
  {
    PairDecIs(UINT32, Pair(UINT32, UINT32), s);
    Uint32At(s);
    if |s| >= 4 {
      PairDecIs(UINT32, UINT32, s[4..]);
      Uint32At(s[4..]);
      if |s| >= 8 {
        assert s[4..][4..] == s[8..];
        Uint32At(s[8..]);
        assert |s| >= 12 ==> s[8..][4..] == s[12..];
      }
    }
  }

  lemma HashAt(s: seq<byte>)
    ensures HASH.dec(s) == if |s| < 32 then Bad([]) else Good(s[..32], s[32..])
  {
    assert HASH.dec(s) == TakeBytes(32, s);
  }

  lemma RootAt(s: seq<byte>)
    requires |s| >= 44
    ensures Pair(HASH, TIMES).dec(s) == Good((s[..32], (Le32(s, 32), (Le32(s, 36), Le32(s, 40)))), s[44..])
  {
    PairDecIs(HASH, TIMES, s);
    HashAt(s);
    TimesAt(s[32..]);
    assert s[32..][12..] == s[44..];
  }

  lemma HashesAt(s: seq<byte>)
    requires |s| >= 76
    ensures Pair(HASH, Pair(HASH, TIMES)).dec(s) ==
      Good((s[..32], (s[32..64], (Le32(s, 64), (Le32(s, 68), Le32(s, 72))))), s[76..])
  {
    PairDecIs(HASH, Pair(HASH, TIMES), s);
    HashAt(s);
    RootAt(s[32..]);
    assert s[32..][..32] == s[32..64] && s[32..][44..] == s[76..];
  }

  lemma Shifted(s: seq<byte>, k: nat)
    requires k + 8 <= |s|
    ensures Le32(s[4..], k) == Le32(s, k + 4)
  {
  }

  lemma TupleAt(s: seq<byte>)
    requires |s| >= 80
    ensures HEADER_TUPLE.dec(s) ==
      Good((Int32At(s, 0), (s[4..36], (s[36..68], (Le32(s, 68), (Le32(s, 72), Le32(s, 76)))))), s[80..])
  {
    PairDecIs(INT32, Pair(HASH, Pair(HASH, TIMES)), s);
    VersionAt(s);
    HashesAt(s[4..]);
    Shifted(s, 64);
    Shifted(s, 68);
    Shifted(s, 72);
    assert s[4..][..32] == s[4..36] && s[4..][32..64] == s[36..68] && s[4..][76..] == s[80..];
  }

  /** A header: version, two hashes of 32 bytes, time, target and nonce. */
  lemma HeaderAt(s: seq<byte>)
    ensures HEADER.dec(s) == if |s| < 80 then Bad([]) else Good(HeaderOf(s), s[80..])
  {
    if |s| < 80 {
      HeaderWide();
    } else {
      IsoDecIs(HEADER_TUPLE, ToHeader, FromHeader, s);
      TupleAt(s);
    }
  }

  ghost predicate HeaderInRange(h: Header) {
    && -0x8000_0000 <= h.nVersion < 0x8000_0000 && |h.hashPrevBlock| == 32 && |h.hashMerkleRoot| == 32
    && h.nTime < 0x1_0000_0000 && h.nBits < 0x1_0000_0000 && h.nNonce < 0x1_0000_0000
  }

  lemma VersionValid(v: int)
    ensures INT32.valid(v) <==> -0x8000_0000 <= v < 0x8000_0000
  {
    Pow256();
    IsoValid(Unsigned(4), (v: nat) => SignedOf(0x1_0000_0000, v), (v: int) => UnsignedOf(0x1_0000_0000, v), v);
  }

  lemma HeaderValid(h: Header)
    ensures HEADER.valid(h) <==> HeaderInRange(h)
  {
    Pow256();
    IsoValid(HEADER_TUPLE, ToHeader, FromHeader, h);
    PairValid(INT32, Pair(HASH, Pair(HASH, TIMES)), h.nVersion, FromHeader(h).1);
    PairValid(HASH, Pair(HASH, TIMES), h.hashPrevBlock, FromHeader(h).1.1);
    PairValid(HASH, TIMES, h.hashMerkleRoot, FromHeader(h).1.1.1);
    PairValid(UINT32, Pair(UINT32, UINT32), h.nTime, (h.nBits, h.nNonce));
    PairValid(UINT32, UINT32, h.nBits, h.nNonce);
    VersionValid(h.nVersion);
  }

  /** What is written and hashed for a header: the 80 bytes that are read as it. */
  lemma HeaderWritten(h: Header)
    requires HeaderInRange(h)
    ensures |HEADER.enc(h)| == 80 && HeaderOf(HEADER.enc(h)) == h
  {
    HeaderValid(h);
    HeaderExact();
    var s := HEADER.enc(h);
    assert HEADER.dec(s + []) == Good(h, []);
    assert s + [] == s;
    HeaderAt(s);
  }

  // ---- Blocks ----

  /** Transactions one after another. */
  ghost predicate TxsForm(s: seq<byte>, vtx: seq<Tx>, rest: seq<byte>)
    decreases |vtx|
  {
    if vtx == [] then s == rest else
      var d := DecodeTx(TX, true, s);
      d.Good? && d.value == vtx[0] && TxsForm(d.rest, vtx[1..], rest)
  }

  ghost predicate ManyForm<T(!new)>(f: Format<T>, s: seq<byte>, xs: seq<T>, rest: seq<byte>)
    decreases |xs|
  {
    if xs == [] then s == rest else
      f.dec(s).Good? && f.dec(s).value == xs[0] && ManyForm(f, f.dec(s).rest, xs[1..], rest)
  }

  lemma {:induction false} ManyIff<T(!new)>(f: Format<T>, n: nat, s: seq<byte>, xs: seq<T>, rest: seq<byte>)
    ensures ManyDec(f, n, s) == Good(xs, rest) <==> n == |xs| && ManyForm(f, s, xs, rest)
    decreases n
  {
    if n > 0 && f.dec(s).Good? && xs != [] {
      var m := ManyDec(f, n - 1, f.dec(s).rest);
      ManyIff(f, n - 1, f.dec(s).rest, xs[1..], rest);
      assert m.Good? ==> ([f.dec(s).value] + m.value)[1..] == m.value;
      assert [xs[0]] + xs[1..] == xs;
    }
  }

  lemma {:induction false} TxsIff(f: Format<Tx>, s: seq<byte>, vtx: seq<Tx>, rest: seq<byte>)
    requires forall x {:trigger f.dec(x)} :: f.dec(x) == DecodeTx(TX, true, x)
    ensures ManyForm(f, s, vtx, rest) <==> TxsForm(s, vtx, rest)
    decreases |vtx|
  {
    if vtx != [] && f.dec(s).Good? {
      TxsIff(f, f.dec(s).rest, vtx[1..], rest);
    }
  }

  lemma TxRefsIff(s: seq<byte>, vtx: seq<Tx>, rest: seq<byte>)
    ensures Vec(TXREF).dec(s) == Good(vtx, rest) <==> exists t {:trigger SizeForm(s, |vtx|, t)} ::
      SizeForm(s, |vtx|, t) && TxsForm(t, vtx, rest)
  {
    assert Vec(TXREF).dec(s) == VecDec(TXREF, s);
    var d := SizeDec(s);
    if d.Good? {
      SizeIff(s, d.value, d.rest);
      ManyIff(TXREF, d.value, d.rest, vtx, rest);
      TxsIff(TXREF, d.rest, vtx, rest);
    }
    forall t | SizeForm(s, |vtx|, t) ensures d == Good(|vtx|, t) {
      SizeIff(s, |vtx|, t);
    }
  }

  /** A block: 80 bytes of header, the number of transactions, and these. */
  lemma BlockIff(s: seq<byte>, b: Block, rest: seq<byte>)
    ensures BLOCK.dec(s) == Good(b, rest) <==>
      && |s| >= 80 && b.header == HeaderOf(s)
      && exists t {:trigger SizeForm(s[80..], |b.vtx|, t)} ::
           SizeForm(s[80..], |b.vtx|, t) && TxsForm(t, b.vtx, rest)
  {
    IsoDecIs(Pair(HEADER, Vec(TXREF)), ToBlock, FromBlock, s);
    PairDecIs(HEADER, Vec(TXREF), s);
    HeaderAt(s);
    if |s| >= 80 {
      TxRefsIff(s[80..], b.vtx, rest);
    }
  }
}
