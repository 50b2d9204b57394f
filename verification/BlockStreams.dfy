/** block.h over CBufferedFile: headers, transactions and blocks as the formats decode them. */
module BlockStreams {
  import opened Wrappers
  import opened Wire
  import opened Transactions
  import opened Blocks
  import opened BufferedFiles
  import opened TxStreams
  import opened VectorReads

  method ReadHash(f: BufferedFile, ghost g: Format<seq<byte>>) returns (r: Result<seq<byte>>)
    requires Ready(f) && Same(g, HASH)
    modifies f, f.src, f.vchBuf
    ensures Ready(f) && Outcome(g.dec(old(f.Rest())), r, f.Rest())
  {
    assert g.dec(f.Rest()) == HASH.dec(f.Rest());
    r := ReadBytes(f, 32);
  }

  method ReadTimes(f: BufferedFile, ghost u: Format<nat>) returns (r: Result<(nat, (nat, nat))>)
    requires Ready(f) && Same(u, UINT32)
    modifies f, f.src, f.vchBuf
    ensures Ready(f) && Outcome(Pair(u, Pair(u, u)).dec(old(f.Rest())), r, f.Rest())
  {
    var nTime :- ReadUint32(f, u);
    var nBits :- ReadUint32(f, u);
    var nNonce :- ReadUint32(f, u);
    r := Ok((nTime, (nBits, nNonce)));
  }

  method ReadHeader(f: BufferedFile) returns (r: Result<Header>)
    requires Ready(f)
    modifies f, f.src, f.vchBuf
    ensures Ready(f) && Outcome(HEADER.dec(old(f.Rest())), r, f.Rest())
  {
    var p :- ReadHeaderAs(f, INT32, HASH, UINT32);
    r := Ok(ToHeader(p));
  }

  method ReadHeaderAs(f: BufferedFile, ghost i: Format<int>, ghost h: Format<seq<byte>>, ghost u: Format<nat>)
    returns (r: Result<HeaderTuple>)
    requires Ready(f) && Same(i, INT32) && Same(h, HASH) && Same(u, UINT32)
    modifies f, f.src, f.vchBuf
    ensures Ready(f) && Outcome(Pair(i, Pair(h, Pair(h, Pair(u, Pair(u, u))))).dec(old(f.Rest())), r, f.Rest())
  {
    var nVersion :- ReadInt32(f, i);
    var hashPrevBlock :- ReadHash(f, h);
    var hashMerkleRoot :- ReadHash(f, h);
    var times :- ReadTimes(f, u);
    r := Ok((nVersion, (hashPrevBlock, (hashMerkleRoot, times))));
  }

  const NULL_TX := Tx(0, [], [], 0)

  /** A shared_ptr<const CTransaction>: a new transaction filled from the stream. */
  method ReadTx(f: BufferedFile, steps: Steps) returns (r: Result<Tx>)
    requires Ready(f) && steps.Valid()
    modifies f, f.src, f.vchBuf
    ensures Ready(f) && Outcome(DecodeTx(TX, true, old(f.Rest())), r, f.Rest())
  {
    var tx := new MutableTransaction();
    var _ :- tx.Unserialize(f, true, steps);
    r := Ok(tx.Value());
  }

  /** The loops are proved for any format that decodes like a transaction in a block. */
  ghost predicate DecodesTx(g: Format<Tx>) {
    forall s {:trigger DecodeTx(TX, true, s)} :: g.dec(s) == DecodeTx(TX, true, s)
  }

  method ReadTxs(f: BufferedFile, steps: Steps, ghost g: Format<seq<Tx>>) returns (r: Result<seq<Tx>>)
    requires Ready(f) && steps.Valid() && Same(g, Vec(TXREF))
    modifies f, f.src, f.vchBuf
    ensures Ready(f) && Outcome(g.dec(old(f.Rest())), r, f.Rest())
  {
    assert g.dec(f.Rest()) == Vec(TXREF).dec(f.Rest());
    var nSize :- ReadCompactSize(f);
    r := ReadTxsSteps(f, steps, nSize, TXREF);
  }

  method ReadTxsSteps(f: BufferedFile, steps: Steps, nSize: nat, ghost g: Format<Tx>) returns (r: Result<seq<Tx>>)
    requires Ready(f) && steps.Valid() && DecodesTx(g)
    modifies f, f.src, f.vchBuf
    ensures Ready(f) && Outcome(ManyDec(g, nSize, old(f.Rest())), r, f.Rest())
  {
    var v: seq<Tx> := [];
    var nMid: nat := 0;
    ghost var whole := ManyDec(g, nSize, f.Rest());
    ReadingStart(g, nSize, f.Rest());
    while nMid < nSize
      invariant Ready(f) && nMid == |v| <= nSize && Reading(g, nSize, whole, v, nMid, f.Rest())
    {
      ghost var i := nMid;
      nMid := nMid + steps.tx;
      if nMid > nSize {
        nMid := nSize;
      }
      ReadingResize(g, nSize, whole, v, i, f.Rest(), nMid, NULL_TX);
      v :- ReadTxsUpto(f, steps, Resize(v, nMid, NULL_TX), |v|, nSize, whole, g);
    }
    ReadingEnd(g, nSize, whole, v, f.Rest());
    r := Ok(v);
  }

  method ReadTxsUpto(f: BufferedFile, steps: Steps, slots: seq<Tx>, start: nat, ghost nSize: nat,
          ghost whole: Dec<seq<Tx>>, ghost g: Format<Tx>)
    returns (r: Result<seq<Tx>>)
    requires Ready(f) && steps.Valid() && start <= |slots| <= nSize && DecodesTx(g)
    requires Reading(g, nSize, whole, slots, start, f.Rest())
    modifies f, f.src, f.vchBuf
    ensures Ready(f) && Filled(g, nSize, whole, |slots|, |slots|, r, f.Rest())
  {
    var v := slots;
    for i := start to |slots|
      invariant Ready(f) && |v| == |slots| && Reading(g, nSize, whole, v, i, f.Rest())
    {
      v :- ReadTxsSlot(f, steps, v, i, nSize, whole, g);
    }
    r := Ok(v);
  }

  method ReadTxsSlot(f: BufferedFile, steps: Steps, v: seq<Tx>, i: nat, ghost nSize: nat, ghost whole: Dec<seq<Tx>>,
          ghost g: Format<Tx>)
    returns (r: Result<seq<Tx>>)
    requires Ready(f) && steps.Valid() && i < |v| && i < nSize && DecodesTx(g)
    requires Reading(g, nSize, whole, v, i, f.Rest())
    modifies f, f.src, f.vchBuf
    ensures Ready(f) && Filled(g, nSize, whole, |v|, i + 1, r, f.Rest())
  {
    ghost var rest := f.Rest();
    var x := ReadTx(f, steps);
    ReadingNext(g, nSize, whole, v, i, rest, x, f.Rest());
    if x.Thrown? {
      return Thrown;
    }
    r := Ok(v[i := x.value]);
  }

  method ReadBlock(f: BufferedFile, steps: Steps) returns (r: Result<Block>)
    requires Ready(f) && steps.Valid()
    modifies f, f.src, f.vchBuf
    ensures Ready(f) && Outcome(BLOCK.dec(old(f.Rest())), r, f.Rest())
  {
    var header :- ReadHeader(f);
    var vtx :- ReadTxs(f, steps, Vec(TXREF));
    r := Ok(Block(header, vtx));
  }
}
