/**
 TXODB.cxx: how the preloader finds the blocks in a block file. An entry is the network
 magic, a length that is not used, and an encoded block; an empty slot is magic and length
 alone, before another entry; zeros end the file.
 */
module BlockFiles {
  import opened Wrappers
  import opened Wire
  import opened Transactions
  import opened Blocks
  import opened BufferedFiles
  import opened TxStreams
  import opened VectorReads
  import opened BlockStreams

  const MAGIC: seq<byte> := [0xfa, 0xbf, 0xb5, 0xda]

  /** The blocks the preload loop reads from the rest of a file, in order. A failed read is
      logged and the loop goes on behind the bytes it consumed. */
  ghost function Scan(B: Format<Block>, s: seq<byte>): seq<Block>
    requires Readable(B)
    decreases |s|
  {
    match Frame(s)
    case Bad(_) => []
    case Good(frame, s2) =>
      if frame.1 == 0 then []
      else if frame.0 != MAGIC || IsMagic(s2) then Scan(B, s2)
      else if |s2| < 4 then []
      else
        match Shrunk(B, s2)
        case Bad(r) => Scan(B, r)
        case Good(b, r) => [b] + Scan(B, r)
  }

  ghost predicate IsMagic(s: seq<byte>) {
    |s| >= 4 && s[..4] == MAGIC
  }

  /** Magic and length. */
  ghost function Frame(s: seq<byte>): (d: Dec<(seq<byte>, nat)>)
    ensures d.Good? ==> |d.rest| + 8 == |s|
  {
    if |s| < 8 then Bad([]) else Good((s[..4], LeValue(s[4..8])), s[8..])
  }

  ghost function Shrunk(B: Format<Block>, s: seq<byte>): (d: Dec<Block>)
    requires Readable(B)
    ensures d == B.dec(s) && |d.rest| <= |s|
  {
    B.dec(s)
  }

  // ---- Rendered files ----

  datatype Entry = Slot(len: nat) | Stored(len: nat, block: Block)

  function Mark(len: nat): seq<byte> {
    MAGIC + LeBytes(4, len)
  }

  function EntryBytes(B: Format<Block>, e: Entry): seq<byte> {
    match e
    case Slot(len) => Mark(len)
    case Stored(len, b) => Mark(len) + B.enc(b)
  }

  function Render(B: Format<Block>, es: seq<Entry>): seq<byte> {
    if es == [] then [] else EntryBytes(B, es[0]) + Render(B, es[1..])
  }

  ghost predicate Fits(B: Format<Block>, e: Entry) {
    && 0 < e.len < 0x1_0000_0000
    && (e.Stored? ==> B.valid(e.block) && |B.enc(e.block)| >= 4 && !IsMagic(B.enc(e.block)))
  }

  ghost predicate AllFit(B: Format<Block>, es: seq<Entry>) {
    forall i :: 0 <= i < |es| ==> Fits(B, es[i])
  }

  predicate EndsInSlot(es: seq<Entry>) {
    es != [] && es[|es| - 1].Slot?
  }

  function BlocksOf(es: seq<Entry>): seq<Block> {
    if es == [] then [] else (if es[0].Stored? then [es[0].block] else []) + BlocksOf(es[1..])
  }

  lemma Assoc<T>(a: seq<T>, b: seq<T>, c: seq<T>)
    ensures a + b + c == a + (b + c)
  {
  }

  lemma FrameOfMark(len: nat, s: seq<byte>)
    requires len < 0x1_0000_0000
    ensures Frame(Mark(len) + s) == Good((MAGIC, len), s) && IsMagic(Mark(len) + s)
  {
    var t := Mark(len) + s;
    assert t[..4] == MAGIC && t[4..8] == LeBytes(4, len) && t[8..] == s;
    Pow256();
    LeValueOfBytes(4, len);
  }

  lemma {:induction false} ZerosValue(n: nat)
    ensures LeValue(ZeroBytes(n)) == 0 && forall i :: 0 <= i < n ==> ZeroBytes(n)[i] == 0
  {
    if n > 0 {
      ZerosValue(n - 1);
    }
  }

  lemma ScanZeros(B: Format<Block>, n: nat)
    requires Readable(B)
    ensures Scan(B, ZeroBytes(n)) == []
  {
    if n >= 8 {
      ZerosValue(n);
      ZerosValue(4);
      assert ZeroBytes(n)[4..8] == ZeroBytes(4);
    }
  }

  /** The file starts with magic whenever there is an entry left. */
  lemma RenderMagic(B: Format<Block>, es: seq<Entry>, s: seq<byte>)
    requires es != [] && es[0].len < 0x1_0000_0000
    ensures IsMagic(Render(B, es) + s)
  {
    var t := (if es[0].Slot? then [] else B.enc(es[0].block)) + Render(B, es[1..]) + s;
    assert Render(B, es) + s == Mark(es[0].len) + t;
    FrameOfMark(es[0].len, t);
  }

  lemma ScanStored(B: Format<Block>, len: nat, b: Block, s: seq<byte>)
    requires Readable(B) && Fits(B, Stored(len, b))
    ensures Scan(B, Mark(len) + (B.enc(b) + s)) == [b] + Scan(B, s)
  {
    FrameOfMark(len, B.enc(b) + s);
    assert (B.enc(b) + s)[..4] == B.enc(b)[..4];
    assert B.dec(B.enc(b) + s) == Good(b, s);
  }

  lemma ScanSlot(B: Format<Block>, len: nat, s: seq<byte>)
    requires Readable(B) && 0 < len < 0x1_0000_0000 && IsMagic(s)
    ensures Scan(B, Mark(len) + s) == Scan(B, s)
  {
    FrameOfMark(len, s);
  }

  lemma ScanEntry(B: Format<Block>, e: Entry, s: seq<byte>)
    requires Readable(B) && Fits(B, e) && (e.Slot? ==> IsMagic(s))
    ensures Scan(B, EntryBytes(B, e) + s) == BlocksOf([e]) + Scan(B, s)
  {
    match e
    case Slot(len) =>
      ScanSlot(B, len, s);
    case Stored(len, b) =>
      ScanStored(B, len, b, s);
      Assoc(Mark(len), B.enc(b), s);
      OneBlock(len, b);
  }

  lemma OneBlock(len: nat, b: Block)
    ensures BlocksOf([Stored(len, b)]) == [b]
  {
    assert BlocksOf([Stored(len, b)][1..]) == [];
  }

  /** A slot before bytes that are neither an entry nor a block ends the loop. */
  lemma ScanBadSlot(B: Format<Block>, len: nat, s: seq<byte>)
    requires Readable(B) && 0 < len < 0x1_0000_0000 && !IsMagic(s) && B.dec(s) == Bad([])
    ensures Scan(B, Mark(len) + s) == []
  {
    FrameOfMark(len, s);
    assert Scan(B, []) == [];
  }

  lemma RenderIs(B: Format<Block>, es: seq<Entry>, s: seq<byte>)
    requires es != []
    ensures Render(B, es) + s == EntryBytes(B, es[0]) + (Render(B, es[1..]) + s)
    ensures BlocksOf(es) == BlocksOf([es[0]]) + BlocksOf(es[1..])
  {
    Assoc(EntryBytes(B, es[0]), Render(B, es[1..]), s);
    assert BlocksOf([es[0]]) == if es[0].Stored? then [es[0].block] else [] by {
      assert BlocksOf([es[0]][1..]) == [];
    }
  }

  lemma ScanMore(B: Format<Block>, es: seq<Entry>, s: seq<byte>)
    requires Readable(B) && es != [] && Fits(B, es[0]) && (es[0].Slot? ==> IsMagic(Render(B, es[1..]) + s))
    requires Scan(B, Render(B, es[1..]) + s) == BlocksOf(es[1..]) + Scan(B, s)
    ensures Scan(B, Render(B, es) + s) == BlocksOf(es) + Scan(B, s)
  {
    var rest, whole := Render(B, es[1..]) + s, Render(B, es) + s;
    var first, more := BlocksOf([es[0]]), BlocksOf(es[1..]);
    assert whole == EntryBytes(B, es[0]) + rest && BlocksOf(es) == first + more by { RenderIs(B, es, s); }
    assert Scan(B, whole) == first + Scan(B, rest) by { ScanEntry(B, es[0], rest); }
    Assoc(first, more, Scan(B, s));
  }

  /** The preload loop reads exactly the stored blocks, once each and in order, and goes on
      behind them; an empty slot at the end needs another entry behind it. */
  lemma {:induction false} ScanRender(B: Format<Block>, es: seq<Entry>, s: seq<byte>)
    requires Readable(B) && AllFit(B, es) && (EndsInSlot(es) ==> IsMagic(s))
    ensures Scan(B, Render(B, es) + s) == BlocksOf(es) + Scan(B, s)
  {
    if es == [] {
      assert Render(B, es) + s == s;
    } else {
      var rest := Render(B, es[1..]) + s;
      assert es[0].Slot? ==> IsMagic(rest) by {
        if es[1..] == [] {
          assert rest == s;
        } else {
          assert Fits(B, es[1]);
          RenderMagic(B, es[1..], s);
        }
      }
      ScanRender(B, es[1..], s);
      assert Fits(B, es[0]);
      ScanMore(B, es, s);
    }
  }

  lemma RenderOne(B: Format<Block>, e: Entry)
    ensures Render(B, [e]) == EntryBytes(B, e)
  {
    assert Render(B, [e][1..]) == [];
  }

  lemma {:induction false} Snoc(B: Format<Block>, es: seq<Entry>, e: Entry)
    ensures Render(B, es + [e]) == Render(B, es) + Render(B, [e])
    ensures BlocksOf(es + [e]) == BlocksOf(es) + BlocksOf([e])
  {
    if es == [] {
      assert es + [e] == [e];
    } else {
      Snoc(B, es[1..], e);
      assert (es + [e])[1..] == es[1..] + [e];
      Assoc(EntryBytes(B, es[0]), Render(B, es[1..]), Render(B, [e]));
      Assoc(if es[0].Stored? then [es[0].block] else [], BlocksOf(es[1..]), BlocksOf([e]));
    }
  }

  lemma ScanLastSlot(B: Format<Block>, es: seq<Entry>, len: nat, s: seq<byte>)
    requires Readable(B) && AllFit(B, es) && len < 0x1_0000_0000
    ensures Scan(B, Render(B, es + [Slot(len)]) + s) == BlocksOf(es) + Scan(B, Mark(len) + s)
  {
    var tail := Mark(len) + s;
    assert IsMagic(tail) by { FrameOfMark(len, s); }
    ScanRender(B, es, tail);
    assert Render(B, es + [Slot(len)]) + s == Render(B, es) + tail by { LastMark(B, es, len, s); }
  }

  lemma LastMark(B: Format<Block>, es: seq<Entry>, len: nat, s: seq<byte>)
    ensures Render(B, es + [Slot(len)]) + s == Render(B, es) + (Mark(len) + s)
  {
    Snoc(B, es, Slot(len));
    RenderOne(B, Slot(len));
    Assoc(Render(B, es), Mark(len), s);
  }

  // ---- The code ----

  /** Reads the magic and the length of an entry. */
  method ReadFrame(f: BufferedFile) returns (r: Result<(seq<byte>, nat)>)
    requires Ready(f) && f.nRewind == 4
    modifies f, f.src, f.vchBuf
    ensures Ready(f) && Outcome(Frame(old(f.Rest())), r, f.Rest()) && (old(f.Rest()) == [] ==> f.src.eof)
  {
    ghost var s := f.Rest();
    var magic :- ReadBytes(f, 4);
    var len :- ReadUnsigned(f, 4);
    assert |s| >= 8 ==> s[4..][..4] == s[4..8] && s[4..][4..] == s[8..];
    r := Ok((magic, len));
  }

  /** Looks at the next four bytes and rewinds over them. */
  method PeekMagic(f: BufferedFile) returns (r: Result<bool>)
    requires Ready(f) && f.nRewind == 4
    modifies f, f.src, f.vchBuf
    ensures Ready(f)
    ensures r.Ok? <==> |old(f.Rest())| >= 4
    ensures r.Ok? ==> r.value == IsMagic(f.Rest()) && f.Rest() == old(f.Rest())
    ensures r.Thrown? ==> f.Rest() == []
  {
    ghost var s := f.Rest();
    var magic :- ReadBytes(f, 4);
    var _ := f.SetPos(f.GetPos() - 4);
    r := Ok(magic == MAGIC);
  }

  /** The outcome of one round of the loop: stop, or go on with or without a block. */
  datatype Round = Stop | Skip | Got(block: Block)

  method ReadEntry(f: BufferedFile, steps: Steps, ghost B: Format<Block>) returns (r: Result<Round>)
    requires Ready(f) && f.nRewind == 4 && steps.Valid() && Same(B, BLOCK) && Readable(B)
    modifies f, f.src, f.vchBuf
    ensures Ready(f)
    ensures Scan(B, old(f.Rest())) ==
      if r == Ok(Stop) then []
      else if r.Ok? && r.value.Got? then [r.value.block] + Scan(B, f.Rest())
      else Scan(B, f.Rest())
    ensures if old(f.Rest()) == [] then f.Rest() == [] && f.src.eof else |f.Rest()| < |old(f.Rest())|
  {
    var frame :- ReadFrame(f);
    var (magic, len) := frame;
    if len == 0 {
      return Ok(Stop);
    }
    if magic != MAGIC {
      return Ok(Skip);
    }
    var empty :- PeekMagic(f);
    if empty {
      return Ok(Skip);
    }
    var b :- ReadBlock(f, steps);
    r := Ok(Got(b));
  }

  /** The loop over one file. */
  method LoadBlocks(f: BufferedFile, steps: Steps, ghost B: Format<Block>) returns (blocks: seq<Block>)
    requires Ready(f) && f.nRewind == 4 && steps.Valid() && Same(B, BLOCK) && Readable(B)
    modifies f, f.src, f.vchBuf
    ensures blocks == Scan(B, old(f.Rest()))
  {
    blocks := [];
    ghost var all := Scan(B, f.Rest());
    while true
      invariant Ready(f) && blocks + Scan(B, f.Rest()) == all
      decreases |f.Rest()|, if f.src.eof then 0 else 1
    {
      var eof := f.Eof();
      if eof {
        break;
      }
      var round := ReadEntry(f, steps, B);
      if round == Ok(Stop) {
        break;
      }
      if round.Ok? && round.value.Got? {
        Assoc(blocks, [round.value.block], Scan(B, f.Rest()));
        blocks := blocks + [round.value.block];
      }
    }
  }

  /** PRELOAD_BUFFER_SIZE */
  const BUFFER_SIZE: nat := 0x8000000

  /** A whole block file, read through a buffer that can be rewound by the magic. */
  method LoadFile(file: File, steps: Steps) returns (blocks: seq<Block>)
    requires file.pos == 0 && !file.eof && steps.Valid()
    requires |file.content| + 5000000 <= 0xFFFF_FFFF_FFFF_FFFF
    modifies file
    ensures Readable(BLOCK) && blocks == Scan(BLOCK, file.content)
  {
    BlockReadable();
    var f := new BufferedFile(file, BUFFER_SIZE, 4);
    blocks := LoadBlocks(f, steps, BLOCK);
  }

  // ---- Files of encoded blocks ----

  /** The version whose encoding is the magic. */
  const MAGIC_VERSION: int := 0xdab5bffa - 0x1_0000_0000

  lemma TimesEnc(t: nat, b: nat, n: nat)
    ensures TIMES.enc((t, (b, n))) == LeBytes(4, t) + (LeBytes(4, b) + LeBytes(4, n))
  {
    PairEncIs(UINT32, Pair(UINT32, UINT32), t, (b, n));
    PairEncIs(UINT32, UINT32, b, n);
  }

  lemma VersionEnc(v: int)
    ensures INT32.enc(v) == LeBytes(4, UnsignedOf(0x1_0000_0000, v))
  {
    IsoEnc(Unsigned(4), (v: nat) => SignedOf(0x1_0000_0000, v), (v: int) => UnsignedOf(0x1_0000_0000, v), v);
  }

  lemma HeaderEnc(h: Header)
    ensures HEADER.enc(h) == LeBytes(4, UnsignedOf(0x1_0000_0000, h.nVersion)) +
      (h.hashPrevBlock + (h.hashMerkleRoot + (LeBytes(4, h.nTime) + (LeBytes(4, h.nBits) + LeBytes(4, h.nNonce)))))
  {
    IsoEnc(HEADER_TUPLE, ToHeader, FromHeader, h);
    PairEncIs(INT32, Pair(HASH, Pair(HASH, TIMES)), h.nVersion, FromHeader(h).1);
    PairEncIs(HASH, Pair(HASH, TIMES), h.hashPrevBlock, FromHeader(h).1.1);
    PairEncIs(HASH, TIMES, h.hashMerkleRoot, FromHeader(h).1.1.1);
    TimesEnc(h.nTime, h.nBits, h.nNonce);
    VersionEnc(h.nVersion);
  }

  lemma FirstPart(first: seq<byte>, s: seq<byte>, t: seq<byte>, whole: seq<byte>)
    requires whole == s + t && exists u :: s == first + u
    ensures |whole| >= |first| && whole[..|first|] == first
  {
    var u :| s == first + u;
    assert whole == first + (u + t);
  }

  lemma MagicVersion(v: int)
    requires -0x8000_0000 <= v < 0x8000_0000 && LeBytes(4, UnsignedOf(0x1_0000_0000, v)) == MAGIC
    ensures v == MAGIC_VERSION
  {
    Pow256();
    LeValueOfBytes(4, UnsignedOf(0x1_0000_0000, v));
    assert LeValue(MAGIC) == 0xdab5bffa by {
      assert MAGIC[1..] == [0xbf, 0xb5, 0xda] && MAGIC[1..][1..] == [0xb5, 0xda] && MAGIC[1..][1..][1..] == [0xda];
    }
  }

  lemma VersionMagic()
    ensures LeBytes(4, UnsignedOf(0x1_0000_0000, MAGIC_VERSION)) == MAGIC
  {
    assert LeBytes(1, 0xda) == [0xda];
    assert LeBytes(2, 0xdab5) == [0xb5, 0xda];
    assert LeBytes(3, 0xdab5bf) == [0xbf, 0xb5, 0xda];
  }

  /** Entries of blocks that are read back. */
  ghost predicate Readables(es: seq<Entry>) {
    && (forall i :: 0 <= i < |es| ==> 0 < es[i].len < 0x1_0000_0000)
    && (forall i :: 0 <= i < |es| && es[i].Stored? ==>
          BLOCK.valid(es[i].block) && -0x8000_0000 <= es[i].block.header.nVersion < 0x8000_0000)
  }

  /** No stored block starts like an entry. */
  ghost predicate NoMagicVersion(es: seq<Entry>) {
    forall i :: 0 <= i < |es| && es[i].Stored? ==> es[i].block.header.nVersion != MAGIC_VERSION
  }

  /** Zeros that can be taken for the block of an empty slot before them. */
  const NULL_BLOCK_SIZE: nat := 81

  /** A block file with so many zeros at its end that is read as it was written. */
  ghost predicate Framed(es: seq<Entry>, zeros: nat) {
    NoMagicVersion(es) && !(EndsInSlot(es) && zeros >= NULL_BLOCK_SIZE)
  }

  lemma ReadablesFit(es: seq<Entry>)
    requires Readables(es) && NoMagicVersion(es)
    ensures AllFit(BLOCK, es)
  {
    forall i | 0 <= i < |es| ensures Fits(BLOCK, es[i]) {
      if es[i].Stored? {
        VersionFirst(es[i].block);
        if IsMagic(BLOCK.enc(es[i].block)) {
          MagicVersion(es[i].block.header.nVersion);
        }
      }
    }
  }

  lemma DecodedHeader(s: seq<byte>, b: Block, r: seq<byte>)
    requires BLOCK.dec(s) == Good(b, r)
    ensures HEADER.dec(s).Good? && HEADER.dec(s).value == b.header
  {
    IsoDecIs(Pair(HEADER, Vec(TXREF)), ToBlock, FromBlock, s);
    PairDecIs(HEADER, Vec(TXREF), s);
  }

  lemma HeaderBytes(s: seq<byte>, h: Header)
    requires HEADER.dec(s).Good? && HEADER.dec(s).value == h
    ensures s == HEADER.enc(h) + HEADER.dec(s).rest
  {
    HeaderExact();
  }

  lemma HeaderFirst(s: seq<byte>, h: Header, r: seq<byte>)
    requires s == HEADER.enc(h) + r
    ensures |s| >= 4 && s[..4] == LeBytes(4, UnsignedOf(0x1_0000_0000, h.nVersion))
  {
    HeaderEnc(h);
    FirstPart(LeBytes(4, UnsignedOf(0x1_0000_0000, h.nVersion)), HEADER.enc(h), r, s);
  }

  lemma VersionFirst(b: Block)
    ensures |BLOCK.enc(b)| >= 4 && BLOCK.enc(b)[..4] == LeBytes(4, UnsignedOf(0x1_0000_0000, b.header.nVersion))
  {
    BlockEnc(b);
    HeaderFirst(BLOCK.enc(b), b.header, VecEnc(TXREF, b.vtx));
  }

  /** The bytes a block is read from start with its version. */
  lemma DecodedVersion(s: seq<byte>, b: Block, r: seq<byte>)
    requires BLOCK.dec(s) == Good(b, r)
    ensures |s| >= 4 && s[..4] == LeBytes(4, UnsignedOf(0x1_0000_0000, b.header.nVersion))
  {
    DecodedHeader(s, b, r);
    HeaderBytes(s, b.header);
    HeaderFirst(s, b.header, HEADER.dec(s).rest);
  }

  /** The loop takes no block whose version is the magic. */
  lemma {:induction false} ScannedVersion(s: seq<byte>, b: Block)
    requires Readable(BLOCK) && b in Scan(BLOCK, s)
    ensures b.header.nVersion != MAGIC_VERSION
    decreases |s|
  {
    var s2 := Frame(s).rest;
    if Frame(s).value.0 != MAGIC || IsMagic(s2) {
      ScannedVersion(s2, b);
    } else {
      var d := Shrunk(BLOCK, s2);
      if d.Bad? || b != d.value {
        ScannedVersion(d.rest, b);
      } else {
        NotMagicVersion(s2, b, d.rest);
      }
    }
  }

  lemma NotMagicVersion(s: seq<byte>, b: Block, r: seq<byte>)
    requires BLOCK.dec(s) == Good(b, r) && !IsMagic(s)
    ensures b.header.nVersion != MAGIC_VERSION
  {
    DecodedVersion(s, b, r);
    VersionMagic();
  }

  lemma {:induction false} StoredIn(es: seq<Entry>, i: nat)
    requires i < |es| && es[i].Stored?
    ensures es[i].block in BlocksOf(es)
  {
    if i > 0 {
      StoredIn(es[1..], i - 1);
    }
  }

  /** A block without transactions, with hashes of k zero bytes. */
  function EmptyBlock(version: int, k: nat): Block {
    Block(Header(version, ZeroBytes(k), ZeroBytes(k), 0, 0, 0), [])
  }

  /** The block that CBlock::SetNull makes. */
  function NullBlock(k: nat): Block {
    EmptyBlock(0, k)
  }

  lemma {:induction false} ZerosJoin(m: nat, n: nat)
    ensures ZeroBytes(m) + ZeroBytes(n) == ZeroBytes(m + n)
  {
    if m > 0 {
      ZerosJoin(m - 1, n);
    }
  }

  lemma {:induction false} LeZeros(n: nat)
    ensures LeBytes(n, 0) == ZeroBytes(n)
  {
    if n > 0 {
      LeZeros(n - 1);
    }
  }

  /** Its encoding, with integers of w bytes, is zeros throughout. */
  lemma ZeroFields(w: nat, k: nat)
    ensures var z, h := LeBytes(w, 0), ZeroBytes(k);
      z + (h + (h + (z + (z + z)))) + [0] == ZeroBytes(k + k + w + w + w + w + 1)
  {
    LeZeros(w);
    ZerosJoin(w, w);
    ZerosJoin(w, w + w);
    ZerosJoin(k, w + (w + w));
    ZerosJoin(k, k + (w + (w + w)));
    ZerosJoin(w, k + (k + (w + (w + w))));
    assert ZeroBytes(1) == [0];
    ZerosJoin(w + (k + (k + (w + (w + w)))), 1);
  }

  lemma NoTxsEnc()
    ensures VecEnc(TXREF, []) == [0]
  {
  }

  lemma EmptyEnc(b: Block, w: nat, h: seq<byte>, z: seq<byte>)
    requires b.header.hashPrevBlock == h && b.header.hashMerkleRoot == h && b.vtx == [] && w == 4 && z == LeBytes(w, 0)
    requires b.header.nTime == 0 && b.header.nBits == 0 && b.header.nNonce == 0
    ensures BLOCK.enc(b) ==
      LeBytes(w, UnsignedOf(0x1_0000_0000, b.header.nVersion)) + (h + (h + (z + (z + z)))) + [0]
  {
    HeaderEnc(b.header);
    BlockEnc(b);
    NoTxsEnc();
  }

  lemma NullBytes(b: Block, w: nat, k: nat)
    requires w == 4 && b == NullBlock(k)
    ensures BLOCK.enc(b) == ZeroBytes(k + k + w + w + w + w + 1)
  {
    var z := LeBytes(w, 0);
    EmptyEnc(b, w, ZeroBytes(k), z);
    ZeroFields(w, k);
  }

  lemma NullEnc(k: nat)
    ensures BLOCK.enc(NullBlock(k)) == ZeroBytes(k + k + 17)
  {
    NullBytes(NullBlock(k), 4, k);
  }

  lemma EmptyHeaderValid(h: Header)
    requires -0x8000_0000 <= h.nVersion < 0x8000_0000 && |h.hashPrevBlock| == 32 && |h.hashMerkleRoot| == 32
    requires h.nTime == 0 && h.nBits == 0 && h.nNonce == 0
    ensures HEADER.valid(h)
  {
    Pow256();
    IsoValid(HEADER_TUPLE, ToHeader, FromHeader, h);
    PairValid(INT32, Pair(HASH, Pair(HASH, TIMES)), h.nVersion, FromHeader(h).1);
    PairValid(HASH, Pair(HASH, TIMES), h.hashPrevBlock, FromHeader(h).1.1);
    PairValid(HASH, TIMES, h.hashMerkleRoot, FromHeader(h).1.1.1);
    PairValid(UINT32, Pair(UINT32, UINT32), h.nTime, (h.nBits, h.nNonce));
    PairValid(UINT32, UINT32, h.nBits, h.nNonce);
    IsoValid(Unsigned(4), (v: nat) => SignedOf(0x1_0000_0000, v), (v: int) => UnsignedOf(0x1_0000_0000, v), h.nVersion);
  }

  lemma EmptyValid(version: int, k: nat)
    requires k == 32 && -0x8000_0000 <= version < 0x8000_0000
    ensures BLOCK.valid(EmptyBlock(version, k))
  {
    EmptyHeaderValid(EmptyBlock(version, k).header);
    IsoValid(Pair(HEADER, Vec(TXREF)), ToBlock, FromBlock, EmptyBlock(version, k));
    PairValid(HEADER, Vec(TXREF), EmptyBlock(version, k).header, []);
  }

  lemma ZerosNotMagic(n: nat)
    ensures !IsMagic(ZeroBytes(n))
  {
    if n >= 4 {
      assert ZeroBytes(n)[..4][0] == 0;
    }
  }

  lemma NullFits(k: nat, len: nat)
    requires k == 32 && 0 < len < 0x1_0000_0000
    ensures Fits(BLOCK, Stored(len, NullBlock(k)))
  {
    EmptyValid(0, k);
    assert |BLOCK.enc(NullBlock(k))| >= 4 && !IsMagic(BLOCK.enc(NullBlock(k))) by {
      NullEnc(k);
      ZerosNotMagic(k + k + 17);
    }
  }

  lemma SlotBeforeNull(k: nat, len: nat, n: nat, more: nat)
    requires k == 32 && 0 < len < 0x1_0000_0000 && Readable(BLOCK) && n == k + k + 17 + more
    ensures Scan(BLOCK, Mark(len) + ZeroBytes(n)) == [NullBlock(k)]
  {
    NullFits(k, len);
    NullEnc(k);
    ZerosJoin(k + k + 17, more);
    ScanStored(BLOCK, len, NullBlock(k), ZeroBytes(more));
    ScanZeros(BLOCK, more);
  }

  lemma SlotBeforeFew(len: nat, n: nat)
    requires 0 < len < 0x1_0000_0000 && Readable(BLOCK) && n < NULL_BLOCK_SIZE
    ensures Scan(BLOCK, Mark(len) + ZeroBytes(n)) == []
  {
    ZerosNotMagic(n);
    ShortBlock(ZeroBytes(n));
    ScanBadSlot(BLOCK, len, ZeroBytes(n));
  }

  /** What an empty slot that is the last entry is taken for. */
  function Leftover(k: nat, es: seq<Entry>, n: nat): seq<Block> {
    if EndsInSlot(es) && n >= NULL_BLOCK_SIZE then [NullBlock(k)] else []
  }

  /** Whatever entries stand before it, an empty slot that is the last entry before many zeros
      is read as a null block, and as none before fewer. */
  lemma LastSlot(k: nat, es: seq<Entry>, len: nat, n: nat)
    requires k == 32 && Readables(es) && NoMagicVersion(es) && 0 < len < 0x1_0000_0000
    ensures Readable(BLOCK)
    ensures Scan(BLOCK, Render(BLOCK, es + [Slot(len)]) + ZeroBytes(n)) ==
      BlocksOf(es) + if n >= NULL_BLOCK_SIZE then [NullBlock(k)] else []
  {
    BlockReadable();
    ReadablesFit(es);
    ScanLastSlot(BLOCK, es, len, ZeroBytes(n));
    if n >= NULL_BLOCK_SIZE {
      SlotBeforeNull(k, len, n, n - (k + k + 17));
    } else {
      SlotBeforeFew(len, n);
    }
  }

  lemma BlocksBefore(es: seq<Entry>, len: nat)
    ensures BlocksOf(es + [Slot(len)]) == BlocksOf(es)
  {
    var e := Slot(len);
    assert BlocksOf([e]) == [];
    Snoc(BLOCK, es, e);
  }

  /** What is read from a file none of whose blocks starts like an entry. */
  lemma ScanFile(k: nat, es: seq<Entry>, n: nat)
    requires k == 32 && Readables(es) && NoMagicVersion(es)
    ensures Readable(BLOCK) && Scan(BLOCK, Render(BLOCK, es) + ZeroBytes(n)) == BlocksOf(es) + Leftover(k, es, n)
  {
    if EndsInSlot(es) {
      var front, len := es[..|es| - 1], es[|es| - 1].len;
      assert es == front + [Slot(len)];
      LastSlot(k, front, len, n);
      BlocksBefore(front, len);
    } else {
      BlockReadable();
      ReadablesFit(es);
      ScanRender(BLOCK, es, ZeroBytes(n));
      ScanZeros(BLOCK, n);
    }
  }

  /** A block file yields exactly the stored blocks, once each and in order, exactly when no
      stored block has the magic for its version and no empty slot stands before the zeros
      of a block. */
  lemma FramingIff(es: seq<Entry>, n: nat)
    requires Readables(es)
    ensures Readable(BLOCK)
    ensures Scan(BLOCK, Render(BLOCK, es) + ZeroBytes(n)) == BlocksOf(es) <==> Framed(es, n)
  {
    BlockReadable();
    if NoMagicVersion(es) {
      ScanFile(32, es, n);
    } else {
      var i :| 0 <= i < |es| && es[i].Stored? && es[i].block.header.nVersion == MAGIC_VERSION;
      StoredIn(es, i);
      var s := Render(BLOCK, es) + ZeroBytes(n);
      if es[i].block in Scan(BLOCK, s) {
        ScannedVersion(s, es[i].block);
      }
    }
  }

  /** Magic where a block should be makes its first bytes an entry of its own, and a length
      of zero ends the loop. */
  lemma ScanMagicFirst(B: Format<Block>, len: nat, b: Block, k: nat, more: seq<byte>, s: seq<byte>)
    requires Readable(B) && 0 < len < 0x1_0000_0000 && k >= 4 && B.enc(b) == MAGIC + (ZeroBytes(k) + more)
    ensures Scan(B, Render(B, [Stored(len, b)]) + s) == []
  {
    var t := B.enc(b) + s;
    RenderOne(B, Stored(len, b));
    Assoc(Mark(len), B.enc(b), s);
    FrameOfMark(len, t);
    assert t[4..8] == ZeroBytes(k)[..4];
    ZerosJoin(4, k - 4);
    assert ZeroBytes(k)[..4] == ZeroBytes(4);
    ZerosValue(4);
    assert Frame(t).Good? && Frame(t).value.1 == 0;
  }

  lemma MagicEnc(b: Block, w: nat, k: nat) returns (more: seq<byte>)
    requires w == 4 && b == EmptyBlock(MAGIC_VERSION, k)
    ensures BLOCK.enc(b) == MAGIC + (ZeroBytes(k) + more)
  {
    var h, z := ZeroBytes(k), LeBytes(w, 0);
    EmptyEnc(b, w, h, z);
    VersionMagic();
    more := h + (z + (z + z)) + [0];
    MagicBytes(LeBytes(w, UnsignedOf(0x1_0000_0000, b.header.nVersion)), h, h + (z + (z + z)), [0]);
  }

  /** A readable block whose version is the magic: a file of it alone is read as empty. */
  lemma MagicBlock(k: nat, len: nat, n: nat)
    requires k == 32 && 0 < len < 0x1_0000_0000
    ensures Readables([Stored(len, EmptyBlock(MAGIC_VERSION, k))]) && Readable(BLOCK)
    ensures Scan(BLOCK, Render(BLOCK, [Stored(len, EmptyBlock(MAGIC_VERSION, k))]) + ZeroBytes(n)) == []
  {
    BlockReadable();
    EmptyValid(MAGIC_VERSION, k);
    var b := EmptyBlock(MAGIC_VERSION, k);
    var more := MagicEnc(b, 4, k);
    ScanMagicFirst(BLOCK, len, b, k, more, ZeroBytes(n));
  }

  lemma MagicBytes(a: seq<byte>, b: seq<byte>, c: seq<byte>, d: seq<byte>)
    ensures a + (b + c) + d == a + (b + (c + d))
  {
  }

  // ---- Frames by their bytes ----

  /** Eight bytes that are not the start of an entry, and do not end the file. */
  ghost predicate Foreign(f: seq<byte>) {
    |f| == 8 && f[..4] != [0xfa, 0xbf, 0xb5, 0xda] && f[4..] != [0, 0, 0, 0]
  }

  function Frames(fs: seq<seq<byte>>): seq<byte> {
    if fs == [] then [] else fs[0] + Frames(fs[1..])
  }

  lemma LengthZero(l: seq<byte>)
    requires |l| == 4
    ensures LeValue(l) < 0x1_0000_0000 && (LeValue(l) == 0 <==> l == [0, 0, 0, 0])
  {
    LeFour(l[0], l[1], l[2], l[3]);
    assert l == [l[0], l[1], l[2], l[3]];
  }

  lemma FrameAt(m: seq<byte>, l: seq<byte>, s: seq<byte>)
    requires |m| == 4 && |l| == 4
    ensures Frame(m + l + s) == Good((m, LeValue(l)), s)
  {
    var t := m + l + s;
    assert t[..4] == m && t[4..8] == l && t[8..] == s;
  }

  lemma ForeignSkipped(B: Format<Block>, f: seq<byte>, s: seq<byte>)
    requires Readable(B) && Foreign(f)
    ensures Scan(B, f + s) == Scan(B, s)
  {
    FrameAt(f[..4], f[4..], s);
    LengthZero(f[4..]);
    assert f[..4] + f[4..] == f;
  }

  /** Frames with a foreign magic are skipped, eight bytes each. */
  lemma {:induction false} AllForeignSkipped(B: Format<Block>, fs: seq<seq<byte>>, s: seq<byte>)
    requires Readable(B) && forall i :: 0 <= i < |fs| ==> Foreign(fs[i])
    ensures Scan(B, Frames(fs) + s) == Scan(B, s)
  {
    if fs == [] {
      assert Frames(fs) + s == s;
    } else {
      AllForeignSkipped(B, fs[1..], s);
      ForeignSkipped(B, fs[0], Frames(fs[1..]) + s);
      Assoc(fs[0], Frames(fs[1..]), s);
    }
  }

  /** A frame of length zero ends the loop, whatever its magic. */
  lemma ZeroLengthStops(B: Format<Block>, m: seq<byte>, s: seq<byte>)
    requires Readable(B) && |m| == 4
    ensures Scan(B, m + [0, 0, 0, 0] + s) == []
  {
    FrameAt(m, [0, 0, 0, 0], s);
    LengthZero([0, 0, 0, 0]);
  }

  /** A block behind the magic and any length but zero is found. */
  lemma StoredFound(l: seq<byte>, b: Block, s: seq<byte>)
    requires BLOCK.valid(b) && -0x8000_0000 <= b.header.nVersion < 0x8000_0000 && b.header.nVersion != MAGIC_VERSION
    requires |l| == 4 && l != [0, 0, 0, 0]
    ensures Readable(BLOCK)
    ensures Scan(BLOCK, [0xfa, 0xbf, 0xb5, 0xda] + l + BLOCK.enc(b) + s) == [b] + Scan(BLOCK, s)
  {
    BlockReadable();
    LengthZero(l);
    var e := Stored(LeValue(l), b);
    ReadablesFit([e]);
    assert Fits(BLOCK, [e][0]);
    LeBytesOfValue(l);
    ScanStored(BLOCK, LeValue(l), b, s);
    Assoc([0xfa, 0xbf, 0xb5, 0xda] + l, BLOCK.enc(b), s);
  }

  /** A block that cannot be read costs only the bytes its reading consumed. */
  lemma BadBlockSkipped(B: Format<Block>, l: seq<byte>, s: seq<byte>, rest: seq<byte>)
    requires Readable(B) && |l| == 4 && l != [0, 0, 0, 0] && B.dec(s) == Bad(rest)
    requires |s| >= 4 && s[..4] != [0xfa, 0xbf, 0xb5, 0xda]
    ensures Scan(B, [0xfa, 0xbf, 0xb5, 0xda] + l + s) == Scan(B, rest)
  {
    FrameAt([0xfa, 0xbf, 0xb5, 0xda], l, s);
    LengthZero(l);
  }

  /** A frame whose block is missing is skipped: another magic stands behind it. */
  lemma MissingBlockSkipped(B: Format<Block>, l: seq<byte>, s: seq<byte>)
    requires Readable(B) && |l| == 4 && l != [0, 0, 0, 0]
    ensures Scan(B, [0xfa, 0xbf, 0xb5, 0xda] + l + ([0xfa, 0xbf, 0xb5, 0xda] + s)) ==
      Scan(B, [0xfa, 0xbf, 0xb5, 0xda] + s)
  {
    var t: seq<byte> := [0xfa, 0xbf, 0xb5, 0xda] + s;
    FrameAt([0xfa, 0xbf, 0xb5, 0xda], l, t);
    LengthZero(l);
    assert t[..4] == [0xfa, 0xbf, 0xb5, 0xda];
  }

  /** Foreign frames between entries change nothing. */
  lemma ForeignBetween(es: seq<Entry>, fs: seq<seq<byte>>, more: seq<Entry>, n: nat)
    requires Readables(es) && NoMagicVersion(es) && !EndsInSlot(es) && Readables(more) && Framed(more, n)
    requires forall i :: 0 <= i < |fs| ==> Foreign(fs[i])
    ensures Readable(BLOCK)
    ensures Scan(BLOCK, Render(BLOCK, es) + (Frames(fs) + (Render(BLOCK, more) + ZeroBytes(n)))) ==
      BlocksOf(es) + BlocksOf(more)
  {
    BlockReadable();
    ReadablesFit(es);
    FramingIff(more, n);
    var tail := Render(BLOCK, more) + ZeroBytes(n);
    AllForeignSkipped(BLOCK, fs, tail);
    ScanRender(BLOCK, es, Frames(fs) + tail);
  }
}
