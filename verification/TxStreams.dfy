/**
 serialize.h and transaction.h over the program's streams: what is read from a
 CBufferedFile is what the wire formats decode from the rest of the file.
 */
module TxStreams {
  import opened Wrappers
  import opened Wire
  import opened Transactions
  import opened BufferedFiles
  import opened VectorReads

  /** The largest single read: vectors are read in chunks of at most this many bytes. */
  const CHUNK: nat := 5000000

  /** Single reads never run into the buffer size or the read limit. */
  ghost predicate Ready(f: BufferedFile)
    reads f, f.src, f.vchBuf
  {
    && f.Valid() && f.InWindow()
    && CHUNK + f.nRewind <= f.vchBuf.Length && |f.src.content| + CHUNK <= f.nReadLimit
  }

  method ReadBytes(f: BufferedFile, n: nat) returns (r: Result<seq<byte>>)
    requires Ready(f) && n <= CHUNK
    modifies f, f.src, f.vchBuf
    ensures Ready(f) && Outcome(TakeBytes(n, old(f.Rest())), r, f.Rest())
    ensures if r.Ok? then f.nRewind <= n ==> f.furthest == f.nReadPos else f.src.eof
  {
    r := f.Read(n);
  }

  method ReadUnsigned(f: BufferedFile, n: nat) returns (r: Result<nat>)
    requires Ready(f) && n <= CHUNK
    modifies f, f.src, f.vchBuf
    ensures Ready(f) && Outcome(Unsigned(n).dec(old(f.Rest())), r, f.Rest())
    ensures r.Ok? && f.nRewind <= n ==> f.furthest == f.nReadPos
  {
    var bytes :- ReadBytes(f, n);
    r := Ok(LeValue(bytes));
  }

  method ReadUint32(f: BufferedFile, ghost g: Format<nat>) returns (r: Result<nat>)
    requires Ready(f) && Same(g, UINT32)
    modifies f, f.src, f.vchBuf
    ensures Ready(f) && Outcome(g.dec(old(f.Rest())), r, f.Rest())
  {
    r := ReadUnsigned(f, 4);
  }

  method ReadInt32(f: BufferedFile, ghost g: Format<int>) returns (r: Result<int>)
    requires Ready(f) && Same(g, INT32)
    modifies f, f.src, f.vchBuf
    ensures Ready(f) && Outcome(g.dec(old(f.Rest())), r, f.Rest())
  {
    assert g.dec(f.Rest()) == INT32.dec(f.Rest());
    var v :- ReadUnsigned(f, 4);
    r := Ok(SignedOf(0x1_0000_0000, v));
  }

  method ReadInt64(f: BufferedFile) returns (r: Result<int>)
    requires Ready(f)
    modifies f, f.src, f.vchBuf
    ensures Ready(f) && Outcome(INT64.dec(old(f.Rest())), r, f.Rest())
  {
    var v :- ReadUnsigned(f, 8);
    r := Ok(SignedOf(0x1_0000_0000_0000_0000, v));
  }

  method ReadByte(f: BufferedFile) returns (r: Result<byte>)
    requires Ready(f)
    modifies f, f.src, f.vchBuf
    ensures Ready(f) && Outcome(ByteDec(old(f.Rest())), r, f.Rest())
  {
    var bytes :- ReadBytes(f, 1);
    r := Ok(bytes[0]);
  }

  /** The sizes after a marker, refused below `least` or above MAX_SIZE. */
  method ReadLongSize(f: BufferedFile, width: nat, least: nat) returns (r: Result<nat>)
    requires Ready(f) && width <= 8
    modifies f, f.src, f.vchBuf
    ensures Ready(f) && Outcome(LongSizeDec(width, least, old(f.Rest())), r, f.Rest())
  {
    var n :- ReadUnsigned(f, width);
    if n < least {
      return Thrown;
    }
    if n > MAX_SIZE {
      return Thrown;
    }
    r := Ok(n);
  }

  method ReadCompactSize(f: BufferedFile) returns (r: Result<nat>)
    requires Ready(f)
    modifies f, f.src, f.vchBuf
    ensures Ready(f) && Outcome(SizeDec(old(f.Rest())), r, f.Rest())
  {
    var chSize :- ReadByte(f);
    if chSize < 253 {
      r := Ok(chSize);
    } else if chSize == 253 {
      r := ReadLongSize(f, 2, 253);
    } else if chSize == 254 {
      r := ReadLongSize(f, 4, 0x10000);
    } else {
      r := ReadLongSize(f, 8, 0x1_0000_0000);
    }
  }

  // ---- Byte vectors, read in chunks ----

  /** Many single bytes are a stretch of bytes. */
  lemma {:induction false} ManyBytes(n: nat, s: seq<byte>)
    ensures ManyDec(BYTE, n, s) == TakeBytes(n, s)
  {
    if n > 0 && s != [] {
      ManyBytes(n - 1, s[1..]);
      if n <= |s| {
        assert s[..n] == [s[0]] + s[1..][..n - 1];
      }
    }
  }

  lemma NextChunk(s: seq<byte>, i: nat, n: nat)
    requires i <= |s|
    ensures TakeBytes(n, s[i..]) == if i + n <= |s| then Good(s[i..i + n], s[i + n..]) else Bad([])
    ensures i + n <= |s| ==> s[..i] + s[i..i + n] == s[..i + n]
  {
    if i + n <= |s| {
      assert s[i..][..n] == s[i..i + n] && s[i..][n..] == s[i + n..];
    }
  }

  /** The first i of nSize bytes are read. */
  ghost predicate Chunked(s: seq<byte>, v: seq<byte>, i: nat, rest: seq<byte>) {
    i <= |s| && v == s[..i] && rest == s[i..]
  }

  method ReadChunks(f: BufferedFile, nSize: nat) returns (r: Result<seq<byte>>)
    requires Ready(f)
    modifies f, f.src, f.vchBuf
    ensures Ready(f) && Outcome(TakeBytes(nSize, old(f.Rest())), r, f.Rest())
  {
    var v: seq<byte> := [];
    var i: nat := 0;
    ghost var s := f.Rest();
    while i < nSize
      invariant Ready(f) && i <= nSize && Chunked(s, v, i, f.Rest())
    {
      var blk: nat := if nSize - i < 1 + 4999999 then nSize - i else 1 + 4999999;
      v :- ReadChunk(f, v, i, blk, s);
      i := i + blk;
    }
    r := Ok(v);
  }

  method ReadChunk(f: BufferedFile, v: seq<byte>, ghost i: nat, blk: nat, ghost s: seq<byte>)
    returns (r: Result<seq<byte>>)
    requires Ready(f) && Chunked(s, v, i, f.Rest()) && blk <= CHUNK
    modifies f, f.src, f.vchBuf
    ensures Ready(f)
    ensures if r.Ok? then Chunked(s, r.value, i + blk, f.Rest()) else i + blk > |s| && f.Rest() == []
  {
    NextChunk(s, i, blk);
    var bytes :- ReadBytes(f, blk);
    r := Ok(v + bytes);
  }

  method ReadByteVector(f: BufferedFile) returns (r: Result<seq<byte>>)
    requires Ready(f)
    modifies f, f.src, f.vchBuf
    ensures Ready(f) && Outcome(BYTES.dec(old(f.Rest())), r, f.Rest())
  {
    var nSize :- ReadCompactSize(f);
    ManyBytes(nSize, f.Rest());
    r := ReadChunks(f, nSize);
  }

  // ---- Records ----

  method ReadOutPoint(f: BufferedFile) returns (r: Result<OutPoint>)
    requires Ready(f)
    modifies f, f.src, f.vchBuf
    ensures Ready(f) && Outcome(OUTPOINT.dec(old(f.Rest())), r, f.Rest())
  {
    var hash :- ReadBytes(f, 32);
    var n :- ReadUnsigned(f, 4);
    r := Ok(OutPoint(hash, n));
  }

  method ReadTxIn(f: BufferedFile) returns (r: Result<TxIn>)
    requires Ready(f)
    modifies f, f.src, f.vchBuf
    ensures Ready(f) && Outcome(TXIN.dec(old(f.Rest())), r, f.Rest())
  {
    var prevout :- ReadOutPoint(f);
    var scriptSig :- ReadByteVector(f);
    var nSequence :- ReadUnsigned(f, 4);
    r := Ok(TxIn(prevout, scriptSig, nSequence, []));
  }

  method ReadTxOut(f: BufferedFile) returns (r: Result<TxOut>)
    requires Ready(f)
    modifies f, f.src, f.vchBuf
    ensures Ready(f) && Outcome(TXOUT.dec(old(f.Rest())), r, f.Rest())
  {
    var nValue :- ReadInt64(f);
    var scriptPubKey :- ReadByteVector(f);
    r := Ok(TxOut(nValue, scriptPubKey));
  }

  // ---- Vectors of records, resized in steps of `mid` elements ----

  const NULL_IN := TxIn(OutPoint(seq(32, _ => 0), 0xFFFF_FFFF), [], 0xFFFF_FFFF, [])
  const NULL_OUT := TxOut(-1, [])

  ghost predicate SameTxIn(g: Format<TxIn>) {
    Same(g, TXIN)
  }

  ghost predicate SameTxOut(g: Format<TxOut>) {
    Same(g, TXOUT)
  }

  ghost predicate SameBytes(g: Format<seq<byte>>) {
    Same(g, BYTES)
  }

  method ReadTxIns(f: BufferedFile, mid: nat, ghost g: Format<seq<TxIn>>) returns (r: Result<seq<TxIn>>)
    requires Ready(f) && mid > 0 && Same(g, Vec(TXIN))
    modifies f, f.src, f.vchBuf
    ensures Ready(f) && Outcome(g.dec(old(f.Rest())), r, f.Rest())
  {
    assert g.dec(f.Rest()) == Vec(TXIN).dec(f.Rest());
    var nSize :- ReadCompactSize(f);
    r := ReadTxInsSteps(f, mid, nSize, TXIN);
  }

  method ReadTxInsSteps(f: BufferedFile, mid: nat, nSize: nat, ghost g: Format<TxIn>) returns (r: Result<seq<TxIn>>)
    requires Ready(f) && mid > 0 && Same(g, TXIN)
    modifies f, f.src, f.vchBuf
    ensures Ready(f) && Outcome(ManyDec(g, nSize, old(f.Rest())), r, f.Rest())
  {
    var v: seq<TxIn> := [];
    var nMid: nat := 0;
    ghost var whole := ManyDec(g, nSize, f.Rest());
    ReadingStart(g, nSize, f.Rest());
    while nMid < nSize
      invariant Ready(f) && nMid == |v| <= nSize && Reading(g, nSize, whole, v, nMid, f.Rest())
    {
      ghost var i := nMid;
      nMid := nMid + mid;
      if nMid > nSize {
        nMid := nSize;
      }
      ReadingResize(g, nSize, whole, v, i, f.Rest(), nMid, NULL_IN);
      v :- ReadTxInsUpto(f, Resize(v, nMid, NULL_IN), |v|, nSize, whole, g);
    }
    ReadingEnd(g, nSize, whole, v, f.Rest());
    r := Ok(v);
  }

  method ReadTxInsUpto(f: BufferedFile, slots: seq<TxIn>, start: nat, ghost nSize: nat, ghost whole: Dec<seq<TxIn>>,
          ghost g: Format<TxIn>)
    returns (r: Result<seq<TxIn>>)
    requires Ready(f) && start <= |slots| <= nSize && SameTxIn(g) && Reading(g, nSize, whole, slots, start, f.Rest())
    modifies f, f.src, f.vchBuf
    ensures Ready(f) && Filled(g, nSize, whole, |slots|, |slots|, r, f.Rest())
  {
    var v := slots;
    for i := start to |slots|
      invariant Ready(f) && |v| == |slots| && Reading(g, nSize, whole, v, i, f.Rest())
    {
      v :- ReadTxInsSlot(f, v, i, nSize, whole, g);
    }
    r := Ok(v);
  }

  method ReadTxInsSlot(f: BufferedFile, v: seq<TxIn>, i: nat, ghost nSize: nat, ghost whole: Dec<seq<TxIn>>,
          ghost g: Format<TxIn>)
    returns (r: Result<seq<TxIn>>)
    requires Ready(f) && i < |v| && i < nSize && SameTxIn(g) && Reading(g, nSize, whole, v, i, f.Rest())
    modifies f, f.src, f.vchBuf
    ensures Ready(f) && Filled(g, nSize, whole, |v|, i + 1, r, f.Rest())
  {
    ghost var rest := f.Rest();
    var x := ReadTxIn(f);
    ReadingNext(g, nSize, whole, v, i, rest, x, f.Rest());
    if x.Thrown? {
      return Thrown;
    }
    r := Ok(v[i := x.value]);
  }

  method ReadTxOuts(f: BufferedFile, mid: nat, ghost g: Format<seq<TxOut>>) returns (r: Result<seq<TxOut>>)
    requires Ready(f) && mid > 0 && Same(g, Vec(TXOUT))
    modifies f, f.src, f.vchBuf
    ensures Ready(f) && Outcome(g.dec(old(f.Rest())), r, f.Rest())
  {
    assert g.dec(f.Rest()) == Vec(TXOUT).dec(f.Rest());
    var nSize :- ReadCompactSize(f);
    r := ReadTxOutsSteps(f, mid, nSize, TXOUT);
  }

  method ReadTxOutsSteps(f: BufferedFile, mid: nat, nSize: nat, ghost g: Format<TxOut>) returns (r: Result<seq<TxOut>>)
    requires Ready(f) && mid > 0 && Same(g, TXOUT)
    modifies f, f.src, f.vchBuf
    ensures Ready(f) && Outcome(ManyDec(g, nSize, old(f.Rest())), r, f.Rest())
  {
    var v: seq<TxOut> := [];
    var nMid: nat := 0;
    ghost var whole := ManyDec(g, nSize, f.Rest());
    ReadingStart(g, nSize, f.Rest());
    while nMid < nSize
      invariant Ready(f) && nMid == |v| <= nSize && Reading(g, nSize, whole, v, nMid, f.Rest())
    {
      ghost var i := nMid;
      nMid := nMid + mid;
      if nMid > nSize {
        nMid := nSize;
      }
      ReadingResize(g, nSize, whole, v, i, f.Rest(), nMid, NULL_OUT);
      v :- ReadTxOutsUpto(f, Resize(v, nMid, NULL_OUT), |v|, nSize, whole, g);
    }
    ReadingEnd(g, nSize, whole, v, f.Rest());
    r := Ok(v);
  }

  method ReadTxOutsUpto(f: BufferedFile, slots: seq<TxOut>, start: nat, ghost nSize: nat,
          ghost whole: Dec<seq<TxOut>>, ghost g: Format<TxOut>)
    returns (r: Result<seq<TxOut>>)
    requires Ready(f) && start <= |slots| <= nSize && SameTxOut(g) && Reading(g, nSize, whole, slots, start, f.Rest())
    modifies f, f.src, f.vchBuf
    ensures Ready(f) && Filled(g, nSize, whole, |slots|, |slots|, r, f.Rest())
  {
    var v := slots;
    for i := start to |slots|
      invariant Ready(f) && |v| == |slots| && Reading(g, nSize, whole, v, i, f.Rest())
    {
      v :- ReadTxOutsSlot(f, v, i, nSize, whole, g);
    }
    r := Ok(v);
  }

  method ReadTxOutsSlot(f: BufferedFile, v: seq<TxOut>, i: nat, ghost nSize: nat, ghost whole: Dec<seq<TxOut>>,
          ghost g: Format<TxOut>)
    returns (r: Result<seq<TxOut>>)
    requires Ready(f) && i < |v| && i < nSize && SameTxOut(g) && Reading(g, nSize, whole, v, i, f.Rest())
    modifies f, f.src, f.vchBuf
    ensures Ready(f) && Filled(g, nSize, whole, |v|, i + 1, r, f.Rest())
  {
    ghost var rest := f.Rest();
    var x := ReadTxOut(f);
    ReadingNext(g, nSize, whole, v, i, rest, x, f.Rest());
    if x.Thrown? {
      return Thrown;
    }
    r := Ok(v[i := x.value]);
  }

  method ReadStack(f: BufferedFile, mid: nat, ghost g: Format<seq<seq<byte>>>) returns (r: Result<seq<seq<byte>>>)
    requires Ready(f) && mid > 0 && Same(g, Vec(BYTES))
    modifies f, f.src, f.vchBuf
    ensures Ready(f) && Outcome(g.dec(old(f.Rest())), r, f.Rest())
  {
    assert g.dec(f.Rest()) == Vec(BYTES).dec(f.Rest());
    var nSize :- ReadCompactSize(f);
    r := ReadStackSteps(f, mid, nSize, BYTES);
  }

  method ReadStackSteps(f: BufferedFile, mid: nat, nSize: nat, ghost g: Format<seq<byte>>)
    returns (r: Result<seq<seq<byte>>>)
    requires Ready(f) && mid > 0 && Same(g, BYTES)
    modifies f, f.src, f.vchBuf
    ensures Ready(f) && Outcome(ManyDec(g, nSize, old(f.Rest())), r, f.Rest())
  {
    var v: seq<seq<byte>> := [];
    var nMid: nat := 0;
    ghost var whole := ManyDec(g, nSize, f.Rest());
    ReadingStart(g, nSize, f.Rest());
    while nMid < nSize
      invariant Ready(f) && nMid == |v| <= nSize && Reading(g, nSize, whole, v, nMid, f.Rest())
    {
      ghost var i := nMid;
      nMid := nMid + mid;
      if nMid > nSize {
        nMid := nSize;
      }
      ReadingResize(g, nSize, whole, v, i, f.Rest(), nMid, []);
      v :- ReadStackUpto(f, Resize(v, nMid, []), |v|, nSize, whole, g);
    }
    ReadingEnd(g, nSize, whole, v, f.Rest());
    r := Ok(v);
  }

  method ReadStackUpto(f: BufferedFile, slots: seq<seq<byte>>, start: nat, ghost nSize: nat,
          ghost whole: Dec<seq<seq<byte>>>, ghost g: Format<seq<byte>>)
    returns (r: Result<seq<seq<byte>>>)
    requires Ready(f) && start <= |slots| <= nSize && SameBytes(g) && Reading(g, nSize, whole, slots, start, f.Rest())
    modifies f, f.src, f.vchBuf
    ensures Ready(f) && Filled(g, nSize, whole, |slots|, |slots|, r, f.Rest())
  {
    var v := slots;
    for i := start to |slots|
      invariant Ready(f) && |v| == |slots| && Reading(g, nSize, whole, v, i, f.Rest())
    {
      v :- ReadStackSlot(f, v, i, nSize, whole, g);
    }
    r := Ok(v);
  }

  method ReadStackSlot(f: BufferedFile, v: seq<seq<byte>>, i: nat, ghost nSize: nat, ghost whole: Dec<seq<seq<byte>>>,
          ghost g: Format<seq<byte>>)
    returns (r: Result<seq<seq<byte>>>)
    requires Ready(f) && i < |v| && i < nSize && SameBytes(g) && Reading(g, nSize, whole, v, i, f.Rest())
    modifies f, f.src, f.vchBuf
    ensures Ready(f) && Filled(g, nSize, whole, |v|, i + 1, r, f.Rest())
  {
    ghost var rest := f.Rest();
    var x := ReadByteVector(f);
    ReadingNext(g, nSize, whole, v, i, rest, x, f.Rest());
    if x.Thrown? {
      return Thrown;
    }
    r := Ok(v[i := x.value]);
  }

  // ---- Transactions ----

  /** Elements per step of the vector loops: 5000000 over the size of the element type. */
  datatype Steps = Steps(txin: nat, txout: nat, script: nat, tx: nat)
  {
    predicate Valid() {
      txin > 0 && txout > 0 && script > 0 && tx > 0
    }
  }

  ghost predicate SameTx(K: TxFormats) {
    && Same(K.version, INT32) && Same(K.vin, Vec(TXIN)) && Same(K.vout, Vec(TXOUT))
    && Same(K.stack, Vec(BYTES)) && Same(K.lockTime, UINT32)
  }

  /** CMutableTransaction */
  class MutableTransaction {
    var nVersion: int
    var vin: seq<TxIn>
    var vout: seq<TxOut>
    var nLockTime: nat

    constructor ()
      ensures Value() == Tx(2, [], [], 0)
    {
      nVersion, vin, vout, nLockTime := 2, [], [], 0;
    }

    function Value(): Tx
      reads this
    {
      Tx(nVersion, vin, vout, nLockTime)
    }

    /** Whatever was here before, the transaction becomes the one decoded from the stream. */
    method Unserialize(f: BufferedFile, allow: bool, steps: Steps) returns (r: Result<()>)
      requires Ready(f) && steps.Valid()
      modifies this, f, f.src, f.vchBuf
      ensures Ready(f) && Outcome(DecodeTx(TX, allow, old(f.Rest())), if r.Ok? then Ok(Value()) else Thrown, f.Rest())
    {
      r := UnserializeAs(f, allow, steps, TX);
    }

    method UnserializeAs(f: BufferedFile, allow: bool, steps: Steps, ghost K: TxFormats) returns (r: Result<()>)
      requires Ready(f) && steps.Valid() && SameTx(K)
      modifies this, f, f.src, f.vchBuf
      ensures Ready(f) && Outcome(DecodeTx(K, allow, old(f.Rest())), if r.Ok? then Ok(Value()) else Thrown, f.Rest())
    {
      nVersion :- ReadInt32(f, K.version);
      var flags :- ReadBody(f, allow, steps, K);
      r := Finish(f, allow, flags, steps, K);
    }

    /** Inputs and outputs, and the flags if there are any. */
    method ReadBody(f: BufferedFile, allow: bool, steps: Steps, ghost K: TxFormats) returns (r: Result<byte>)
      requires Ready(f) && steps.Valid() && SameTx(K)
      modifies this`vin, this`vout, f, f.src, f.vchBuf
      ensures Ready(f)
      ensures DecodeBody(K, allow, nVersion, old(f.Rest())) ==
        if r.Ok? then DecodeRest(K, allow, r.value, Value(), f.Rest()) else Bad(f.Rest())
    {
      var flags: byte := 0;
      vin := [];
      vout := [];
      vin :- ReadTxIns(f, steps.txin, K.vin);
      if |vin| == 0 && allow {
        flags :- ReadByte(f);
        if flags != 0 {
          vin :- ReadTxIns(f, steps.txin, K.vin);
          vout :- ReadTxOuts(f, steps.txout, K.vout);
        }
      } else {
        vout :- ReadTxOuts(f, steps.txout, K.vout);
      }
      r := Ok(flags);
    }

    /** After the outputs: witnesses, unknown flags, lock time. */
    method Finish(f: BufferedFile, allow: bool, flagsRead: byte, steps: Steps, ghost K: TxFormats)
      returns (r: Result<()>)
      requires Ready(f) && steps.Valid() && SameTx(K)
      modifies this, f, f.src, f.vchBuf
      ensures Ready(f)
      ensures Outcome(DecodeRest(K, allow, flagsRead, old(Value()), old(f.Rest())),
                      if r.Ok? then Ok(Value()) else Thrown, f.Rest())
    {
      var flags := flagsRead;
      if flags % 2 == 1 && allow {
        flags := flags - 1;
        var _ :- ReadWitnesses(f, steps, K);
      }
      if flags != 0 {
        return Thrown;
      }
      nLockTime :- ReadUint32(f, K.lockTime);
      r := Ok(());
    }

    /** The witness stack of every input, in order. */
    method ReadWitnesses(f: BufferedFile, steps: Steps, ghost K: TxFormats) returns (r: Result<()>)
      requires Ready(f) && steps.Valid() && SameTx(K)
      modifies this`vin, f, f.src, f.vchBuf
      ensures Ready(f)
      ensures match ManyDec(K.stack, |old(vin)|, old(f.Rest()))
        case Bad(t) => r.Thrown? && f.Rest() == t
        case Good(stacks, t) => r.Ok? && f.Rest() == t && |stacks| == |old(vin)| && vin == WithStacks(old(vin), stacks)
    {
      ghost var s, all := f.Rest(), vin;
      ghost var stacks: seq<seq<seq<byte>>> := [];
      PrependNone(ManyDec(K.stack, |vin|, s));
      for i := 0 to |vin|
        invariant Ready(f) && |stacks| == i && Zipping(K.stack, s, all, stacks, vin, f.Rest())
      {
        ghost var rest, before := f.Rest(), vin;
        var ok := ReadWitness(f, steps, i, K);
        ZippingNext(K.stack, s, all, stacks, before, rest);
        if ok.Thrown? {
          return Thrown;
        }
        stacks := stacks + [K.stack.dec(rest).value];
      }
      ZippingEnd(K.stack, s, all, stacks, vin, f.Rest());
      r := Ok(());
    }

    method ReadWitness(f: BufferedFile, steps: Steps, i: nat, ghost K: TxFormats) returns (r: Result<()>)
      requires Ready(f) && steps.Valid() && SameTx(K) && i < |vin|
      modifies this`vin, f, f.src, f.vchBuf
      ensures Ready(f)
      ensures match K.stack.dec(old(f.Rest()))
        case Bad(t) => r.Thrown? && f.Rest() == t
        case Good(x, t) => r.Ok? && f.Rest() == t && vin == old(vin)[i := old(vin)[i].(scriptWitness := x)]
    {
      var stack :- ReadStack(f, steps.script, K.stack);
      vin := vin[i := vin[i].(scriptWitness := stack)];
      r := Ok(());
    }
  }

  /** The first inputs have got their witnesses. */
  ghost predicate Zipped(all: seq<TxIn>, stacks: seq<seq<seq<byte>>>, vin: seq<TxIn>) {
    |stacks| <= |vin| == |all| &&
    forall j :: 0 <= j < |vin| ==> vin[j] == if j < |stacks| then all[j].(scriptWitness := stacks[j]) else all[j]
  }

  ghost predicate Zipping(g: Format<seq<seq<byte>>>, s: seq<byte>, all: seq<TxIn>, stacks: seq<seq<seq<byte>>>,
          vin: seq<TxIn>, rest: seq<byte>)
  {
    Zipped(all, stacks, vin) && Prepend(stacks, ManyDec(g, |all| - |stacks|, rest)) == ManyDec(g, |all|, s)
  }

  lemma ZippingNext(g: Format<seq<seq<byte>>>, s: seq<byte>, all: seq<TxIn>, stacks: seq<seq<seq<byte>>>,
          vin: seq<TxIn>, rest: seq<byte>)
    requires Zipping(g, s, all, stacks, vin, rest) && |stacks| < |all|
    ensures match g.dec(rest)
      case Bad(t) => ManyDec(g, |all|, s) == Bad(t)
      case Good(x, t) =>
        var i := |stacks|; Zipping(g, s, all, stacks + [x], vin[i := vin[i].(scriptWitness := x)], t)
  {
    PrependNext(g, stacks, |all| - |stacks|, rest);
  }

  lemma ZippingEnd(g: Format<seq<seq<byte>>>, s: seq<byte>, all: seq<TxIn>, stacks: seq<seq<seq<byte>>>,
          vin: seq<TxIn>, rest: seq<byte>)
    requires Zipping(g, s, all, stacks, vin, rest) && |stacks| == |all|
    ensures ManyDec(g, |all|, s) == Good(stacks, rest) && vin == WithStacks(all, stacks)
  {
    assert stacks + [] == stacks;
  }

  function DecodeRest(K: TxFormats, allow: bool, flags: byte, tx: Tx, s: seq<byte>): Dec<Tx> {
    if flags % 2 == 1 && allow then DecodeWitness(K, tx.nVersion, flags, tx.vin, tx.vout, s)
    else if flags != 0 then Bad(s)
    else DecodeEnd(K, tx.nVersion, tx.vin, tx.vout, s)
  }
}
