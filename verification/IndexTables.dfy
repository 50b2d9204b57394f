/**
 The three tables of the index, entry by entry: which key and value every block, transaction
 and output contributes, said of the blocks as they are read from the files.
 */
module IndexTables {
  import opened Wrappers
  import opened Transactions
  import opened Blocks
  import opened Index
  import opened Preload

  /** The bytes that stand for a header, and the keys of headers, transactions and scripts. */
  datatype Naming = Naming(
    head: Block -> seq<byte>,
    hash: seq<byte> -> Key,
    id: Tx -> Key,
    script: seq<byte> -> Key)

  /** The entry of output n of t in ADDR. */
  function Place(N: Naming, t: Tx, n: nat): (Key, Point)
    requires n < |t.vout|
  {
    (N.script(t.vout[n].scriptPubKey), Point(N.id(t), n))
  }

  /** BLK: the header under its hash. */
  ghost predicate HasBlock(N: Naming, db: Db, b: Block) {
    N.hash(N.head(b)) in db.blk && db.blk[N.hash(N.head(b))] == N.head(b)
  }

  /** TXO: all outputs of a transaction in order, each with its number and value. */
  ghost predicate Lists(rs: seq<Rec>, vout: seq<TxOut>) {
    |rs| == |vout| && forall n :: 0 <= n < |vout| ==> rs[n] == Rec(n, vout[n].nValue)
  }

  /** ADDR: every output under the hash of its script, with its place. */
  ghost predicate HasOutputs(N: Naming, db: Db, t: Tx) {
    && (forall n {:trigger Place(N, t, n)} :: 0 <= n < |t.vout| ==> Place(N, t, n) in db.addr)
    && (t.vout != [] ==> N.id(t) in db.txo && Lists(db.txo[N.id(t)], t.vout))
  }

  /** Transaction k of block i. */
  predicate At(bs: seq<Block>, i: int, k: int) {
    0 <= i < |bs| && 0 <= k < |bs[i].vtx|
  }

  /** The tables hold the entries of these blocks ... */
  ghost predicate HoldsAll(N: Naming, db: Db, bs: seq<Block>) {
    && (forall i {:trigger bs[i]} :: 0 <= i < |bs| ==> HasBlock(N, db, bs[i]))
    && (forall i, k {:trigger At(bs, i, k)} :: At(bs, i, k) ==> HasOutputs(N, db, bs[i].vtx[k]))
  }

  ghost predicate BlockFrom(N: Naming, bs: seq<Block>, h: Key) {
    exists i :: 0 <= i < |bs| && N.hash(N.head(bs[i])) == h
  }

  ghost predicate OutputFrom(N: Naming, bs: seq<Block>, p: (Key, Point)) {
    exists i, k {:trigger At(bs, i, k)} ::
      At(bs, i, k) && p.1.n < |bs[i].vtx[k].vout| && p == Place(N, bs[i].vtx[k], p.1.n)
  }

  ghost predicate TxFrom(N: Naming, bs: seq<Block>, id: Key) {
    exists i, k {:trigger At(bs, i, k)} :: At(bs, i, k) && bs[i].vtx[k].vout != [] && id == N.id(bs[i].vtx[k])
  }

  /** ... and no others. */
  ghost predicate HoldsOnly(N: Naming, db: Db, bs: seq<Block>) {
    && (forall h {:trigger h in db.blk} :: h in db.blk ==> BlockFrom(N, bs, h))
    && (forall p {:trigger p in db.addr} :: p in db.addr ==> OutputFrom(N, bs, p))
    && (forall id {:trigger id in db.txo} :: id in db.txo ==> TxFrom(N, bs, id))
  }

  ghost predicate IsIndex(N: Naming, db: Db, bs: seq<Block>) {
    HoldsAll(N, db, bs) && HoldsOnly(N, db, bs)
  }

  // ---- Records made of blocks ----

  ghost predicate TxMade(N: Naming, r: TxRec, t: Tx) {
    && r.id == N.id(t) && |r.outs| == |t.vout|
    && forall n :: 0 <= n < |t.vout| ==> r.outs[n] == Out(N.script(t.vout[n].scriptPubKey), t.vout[n].nValue)
  }

  ghost predicate BlkMade(N: Naming, x: Blk, b: Block) {
    x.header == N.head(b) && x.hash == N.hash(N.head(b)) && |x.txs| == |b.vtx|
  }

  ghost predicate AllMade(N: Naming, rs: seq<Blk>, bs: seq<Block>) {
    && |rs| == |bs| && (forall i {:trigger rs[i]} {:trigger bs[i]} :: 0 <= i < |bs| ==> BlkMade(N, rs[i], bs[i]))
    && (forall i, k {:trigger At(bs, i, k)} :: At(bs, i, k) ==> TxMade(N, rs[i].txs[k], bs[i].vtx[k]))
  }

  lemma RecordsList(tx: TxRec, vout: seq<TxOut>, rs: seq<Rec>)
    requires |tx.outs| == |vout| && forall n :: 0 <= n < |vout| ==> tx.outs[n].value == vout[n].nValue
    ensures rs == Records(tx, |vout|) <==> Lists(rs, vout)
  {
    if Lists(rs, vout) {
      assert forall n :: 0 <= n < |vout| ==> rs[n] == Records(tx, |vout|)[n];
    }
  }

  lemma PlaceIs(N: Naming, r: TxRec, t: Tx, p: (Key, Point))
    requires TxMade(N, r, t)
    ensures OutOf(r, p) <==> p.1.n < |t.vout| && p == Place(N, t, p.1.n)
  {
  }

  lemma BlkAmong(rs: seq<Blk>, i: nat)
    requires i < |rs|
    ensures rs[i] in BlocksIn(rs)
  {
  }

  lemma TxAmong(N: Naming, rs: seq<Blk>, bs: seq<Block>, i: nat, k: nat)
    requires AllMade(N, rs, bs) && At(bs, i, k)
    ensures k < |rs[i].txs| && TxMade(N, rs[i].txs[k], bs[i].vtx[k]) && rs[i].txs[k] in TxsOf(BlocksIn(rs))
  {
    BlkAmong(rs, i);
  }

  lemma TxAmongIs(N: Naming, rs: seq<Blk>, bs: seq<Block>, r: TxRec) returns (i: nat, k: nat)
    requires AllMade(N, rs, bs) && r in TxsOf(BlocksIn(rs))
    ensures At(bs, i, k) && TxMade(N, r, bs[i].vtx[k])
  {
    var x, m :| x in BlocksIn(rs) && 0 <= m < |x.txs| && x.txs[m] == r;
    var j :| 0 <= j < |rs| && rs[j] == x;
    i, k := j, m;
    assert BlkMade(N, rs[i], bs[i]);
    assert At(bs, i, k);
  }

  lemma BlockAmong(N: Naming, rs: seq<Blk>, bs: seq<Block>, h: Key)
    requires AllMade(N, rs, bs)
    ensures (exists x :: x in BlocksIn(rs) && x.hash == h) <==> BlockFrom(N, bs, h)
  {
    if x :| x in BlocksIn(rs) && x.hash == h {
      var i :| 0 <= i < |rs| && rs[i] == x;
      assert BlkMade(N, rs[i], bs[i]);
    }
    if BlockFrom(N, bs, h) {
      var i :| 0 <= i < |bs| && N.hash(N.head(bs[i])) == h;
      assert BlkMade(N, rs[i], bs[i]);
      BlkAmong(rs, i);
    }
  }

  lemma HeadersHeld(N: Naming, db: Db, rs: seq<Blk>, bs: seq<Block>)
    requires AllMade(N, rs, bs)
    ensures (forall x {:trigger x in BlocksIn(rs)} ::
               x in BlocksIn(rs) ==> x.hash in db.blk && db.blk[x.hash] == x.header) <==>
            forall i {:trigger bs[i]} :: 0 <= i < |bs| ==> HasBlock(N, db, bs[i])
  {
    if forall x {:trigger x in BlocksIn(rs)} ::
         x in BlocksIn(rs) ==> x.hash in db.blk && db.blk[x.hash] == x.header {
      forall i | 0 <= i < |bs| ensures HasBlock(N, db, bs[i]) {
        BlkAmong(rs, i);
        assert BlkMade(N, rs[i], bs[i]);
      }
    }
    if forall i {:trigger bs[i]} :: 0 <= i < |bs| ==> HasBlock(N, db, bs[i]) {
      forall x | x in BlocksIn(rs) ensures x.hash in db.blk && db.blk[x.hash] == x.header {
        var i :| 0 <= i < |rs| && rs[i] == x;
        assert BlkMade(N, rs[i], bs[i]) && HasBlock(N, db, bs[i]);
      }
    }
  }

  lemma AddrFrom(N: Naming, rs: seq<Blk>, bs: seq<Block>, p: (Key, Point))
    requires AllMade(N, rs, bs)
    ensures (exists r :: r in TxsOf(BlocksIn(rs)) && OutOf(r, p)) <==> OutputFrom(N, bs, p)
  {
    if r :| r in TxsOf(BlocksIn(rs)) && OutOf(r, p) {
      var i, k := TxAmongIs(N, rs, bs, r);
      PlaceIs(N, r, bs[i].vtx[k], p);
    }
    if OutputFrom(N, bs, p) {
      var i, k :| At(bs, i, k) && p.1.n < |bs[i].vtx[k].vout| && p == Place(N, bs[i].vtx[k], p.1.n);
      TxAmong(N, rs, bs, i, k);
      PlaceIs(N, rs[i].txs[k], bs[i].vtx[k], p);
    }
  }

  lemma TxoFrom(N: Naming, rs: seq<Blk>, bs: seq<Block>, id: Key)
    requires AllMade(N, rs, bs)
    ensures HasOuts(TxsOf(BlocksIn(rs)), id) <==> TxFrom(N, bs, id)
  {
    if HasOuts(TxsOf(BlocksIn(rs)), id) {
      var r :| r in TxsOf(BlocksIn(rs)) && r.id == id && r.outs != [];
      var i, k := TxAmongIs(N, rs, bs, r);
    }
    if TxFrom(N, bs, id) {
      var i, k :| At(bs, i, k) && bs[i].vtx[k].vout != [] && id == N.id(bs[i].vtx[k]);
      TxAmong(N, rs, bs, i, k);
    }
  }

  lemma OutputsHeld(N: Naming, db: Db, T: set<TxRec>, r: TxRec, t: Tx)
    requires Indexes(db, T) && r in T && TxMade(N, r, t)
    ensures HasOutputs(N, db, t)
  {
    forall n {:trigger Place(N, t, n)} | 0 <= n < |t.vout| ensures Place(N, t, n) in db.addr {
      PlaceIs(N, r, t, Place(N, t, n));
    }
    if t.vout != [] {
      RecordsList(r, t.vout, db.txo[r.id]);
    }
  }

  lemma RecordsHeld(N: Naming, db: Db, r: TxRec, t: Tx)
    requires HasOutputs(N, db, t) && TxMade(N, r, t) && r.outs != []
    ensures r.id in db.txo && db.txo[r.id] == Records(r, |r.outs|)
  {
    RecordsList(r, t.vout, db.txo[r.id]);
  }

  lemma AddrHeld(N: Naming, db: Db, rs: seq<Blk>, bs: seq<Block>, p: (Key, Point))
    requires AllMade(N, rs, bs) && IsIndex(N, db, bs)
    ensures p in db.addr <==> OutputFrom(N, bs, p)
  {
    if OutputFrom(N, bs, p) {
      var i, k :| At(bs, i, k) && p.1.n < |bs[i].vtx[k].vout| && p == Place(N, bs[i].vtx[k], p.1.n);
      assert HasOutputs(N, db, bs[i].vtx[k]);
    }
  }

  lemma AddrIndexed(N: Naming, db: Db, rs: seq<Blk>, bs: seq<Block>)
    requires AllMade(N, rs, bs) && IsIndex(N, db, bs)
    ensures AddrOf(db.addr, TxsOf(BlocksIn(rs)))
  {
    forall p ensures p in db.addr <==> exists r :: r in TxsOf(BlocksIn(rs)) && OutOf(r, p) {
      AddrFrom(N, rs, bs, p);
      AddrHeld(N, db, rs, bs, p);
    }
  }

  lemma TxoIndexed(N: Naming, db: Db, rs: seq<Blk>, bs: seq<Block>)
    requires AllMade(N, rs, bs) && IsIndex(N, db, bs)
    ensures TxoOf(db.txo, TxsOf(BlocksIn(rs)))
  {
    forall id | id in db.txo ensures HasOuts(TxsOf(BlocksIn(rs)), id) {
      TxoFrom(N, rs, bs, id);
    }
    forall r | r in TxsOf(BlocksIn(rs)) && r.outs != []
      ensures r.id in db.txo && db.txo[r.id] == Records(r, |r.outs|)
    {
      var i, k := TxAmongIs(N, rs, bs, r);
      RecordsHeld(N, db, r, bs[i].vtx[k]);
    }
  }

  lemma HeadersIndexed(N: Naming, db: Db, rs: seq<Blk>, bs: seq<Block>)
    requires AllMade(N, rs, bs)
    ensures Headers(db, BlocksIn(rs)) <==>
      && (forall i {:trigger bs[i]} :: 0 <= i < |bs| ==> HasBlock(N, db, bs[i]))
      && (forall h {:trigger h in db.blk} :: h in db.blk ==> BlockFrom(N, bs, h))
  {
    HeadersHeld(N, db, rs, bs);
    forall h ensures (exists x :: x in BlocksIn(rs) && x.hash == h) <==> BlockFrom(N, bs, h) {
      BlockAmong(N, rs, bs, h);
    }
  }

  lemma IndexedHolds(N: Naming, db: Db, rs: seq<Blk>, bs: seq<Block>)
    requires AllMade(N, rs, bs) && Indexes(db, TxsOf(BlocksIn(rs)))
    ensures forall i, k {:trigger At(bs, i, k)} :: At(bs, i, k) ==> HasOutputs(N, db, bs[i].vtx[k])
    ensures forall p {:trigger p in db.addr} :: p in db.addr ==> OutputFrom(N, bs, p)
    ensures forall id {:trigger id in db.txo} :: id in db.txo ==> TxFrom(N, bs, id)
  {
    var T := TxsOf(BlocksIn(rs));
    forall i, k {:trigger At(bs, i, k)} | At(bs, i, k) ensures HasOutputs(N, db, bs[i].vtx[k]) {
      TxAmong(N, rs, bs, i, k);
      OutputsHeld(N, db, T, rs[i].txs[k], bs[i].vtx[k]);
    }
    forall p | p in db.addr ensures OutputFrom(N, bs, p) {
      AddrFrom(N, rs, bs, p);
    }
    forall id | id in db.txo ensures TxFrom(N, bs, id) {
      TxoFrom(N, rs, bs, id);
    }
  }

  /** A database is the union of the entries of blocks exactly when it is their index. */
  lemma RepresentsIff(N: Naming, db: Db, rs: seq<Blk>, bs: seq<Block>)
    requires AllMade(N, rs, bs)
    ensures Represents(db, BlocksIn(rs)) <==> IsIndex(N, db, bs)
  {
    HeadersIndexed(N, db, rs, bs);
    if Indexes(db, TxsOf(BlocksIn(rs))) {
      IndexedHolds(N, db, rs, bs);
    }
    if IsIndex(N, db, bs) {
      AddrIndexed(N, db, rs, bs);
      TxoIndexed(N, db, rs, bs);
    }
  }
}
