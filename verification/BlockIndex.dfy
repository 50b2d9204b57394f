/**
 TXODB.cxx: the index entries of the blocks read from the files. With hashes that do not
 collide on them, a transaction id fixes the outputs, because the encoding that is hashed,
 without witnesses, determines the transaction.
 */
module BlockIndex {
  import opened Wrappers
  import opened Wire
  import opened Transactions
  import opened Blocks
  import opened BlockFiles
  import opened Index
  import opened Preload
  import opened IndexTables

  /** The double SHA-256 of headers and transactions and the SHA-256 of scripts. */
  datatype Hashes = Hashes(header: seq<byte> -> Key, tx: seq<byte> -> Key, script: seq<byte> -> Key)

  function OutsOf(H: Hashes, vout: seq<TxOut>): (outs: seq<Out>)
    ensures |outs| == |vout|
    ensures forall n :: 0 <= n < |vout| ==> outs[n] == Out(H.script(vout[n].scriptPubKey), vout[n].nValue)
  {
    if vout == [] then [] else [Out(H.script(vout[0].scriptPubKey), vout[0].nValue)] + OutsOf(H, vout[1..])
  }

  function TxRecOf(H: Hashes, tx: Tx): TxRec {
    TxRec(H.tx(EncodeTx(TX, false, tx)), OutsOf(H, tx.vout))
  }

  function TxRecs(H: Hashes, vtx: seq<Tx>): (rs: seq<TxRec>)
    ensures |rs| == |vtx| && forall i :: 0 <= i < |vtx| ==> rs[i] == TxRecOf(H, vtx[i])
  {
    if vtx == [] then [] else [TxRecOf(H, vtx[0])] + TxRecs(H, vtx[1..])
  }

  function BlkOf(H: Hashes, b: Block): Blk {
    Blk(H.header(HEADER.enc(b.header)), HEADER.enc(b.header), TxRecs(H, b.vtx))
  }

  function BlksOf(H: Hashes, bs: seq<Block>): (rs: seq<Blk>)
    ensures |rs| == |bs| && forall i :: 0 <= i < |bs| ==> rs[i] == BlkOf(H, bs[i])
  {
    if bs == [] then [] else [BlkOf(H, bs[0])] + BlksOf(H, bs[1..])
  }

  ghost predicate Collides(h: seq<byte> -> Key, x: seq<byte>, y: seq<byte>) {
    h(x) == h(y) && x != y
  }

  /** The hashes do not collide on the headers and transactions of these blocks. */
  ghost predicate Collisionless(H: Hashes, bs: seq<Block>) {
    && (forall b, c :: b in bs && c in bs ==> !Collides(H.header, HEADER.enc(b.header), HEADER.enc(c.header)))
    && (forall b, c, t, u {:trigger t in b.vtx, u in c.vtx, b in bs, c in bs} ::
          b in bs && c in bs && t in b.vtx && u in c.vtx ==>
          !Collides(H.tx, EncodeTx(TX, false, t), EncodeTx(TX, false, u)))
  }

  ghost predicate ValidTxs(b: Block) {
    forall i :: 0 <= i < |b.vtx| ==> Valid(TX, b.vtx[i])
  }

  /** Every transaction of these blocks is within the ranges of its fields. */
  ghost predicate AllValidTxs(bs: seq<Block>) {
    forall i :: 0 <= i < |bs| ==> ValidTxs(bs[i])
  }

  lemma StrippedValid(tx: Tx)
    requires Valid(TX, tx)
    ensures Valid(TX, Stripped(tx)) && |tx.vout| <= MAX_SIZE
  {
    TxLawful();
    assert Strip(Strip(tx.vin)) == Strip(tx.vin);
  }

  /** A transaction id fixes the outputs. */
  lemma TxIdFixes(H: Hashes, t: Tx, u: Tx)
    requires Valid(TX, t) && Valid(TX, u) && TxRecOf(H, t).id == TxRecOf(H, u).id
    requires !Collides(H.tx, EncodeTx(TX, false, t), EncodeTx(TX, false, u))
    ensures TxRecOf(H, t) == TxRecOf(H, u)
  {
    StrippedValid(t);
    StrippedValid(u);
    NoWitnessInjective(t, u);
  }

  /** r is the record of a valid transaction of one of the blocks. */
  ghost predicate From(H: Hashes, bs: seq<Block>, r: TxRec, b: Block, t: Tx) {
    b in bs && t in b.vtx && Valid(TX, t) && r == TxRecOf(H, t)
  }

  lemma Origin(H: Hashes, bs: seq<Block>, r: TxRec)
    requires AllValidTxs(bs) && r in TxsOf(BlocksIn(BlksOf(H, bs)))
    ensures exists b, t :: From(H, bs, r, b, t)
  {
    var x, k :| x in BlocksIn(BlksOf(H, bs)) && 0 <= k < |x.txs| && x.txs[k] == r;
    var i :| 0 <= i < |bs| && BlksOf(H, bs)[i] == x;
    var b, t := bs[i], bs[i].vtx[k];
    assert b in bs && t in b.vtx && r == TxRecOf(H, t);
    assert ValidTxs(b);
    assert From(H, bs, r, b, t);
  }

  lemma RecsConsistent(H: Hashes, bs: seq<Block>, r: TxRec, q: TxRec)
    requires AllValidTxs(bs) && Collisionless(H, bs)
    requires r in TxsOf(BlocksIn(BlksOf(H, bs))) && q in TxsOf(BlocksIn(BlksOf(H, bs))) && r.id == q.id
    ensures r == q && Small(r)
  {
    Origin(H, bs, r);
    Origin(H, bs, q);
    var b, t :| From(H, bs, r, b, t);
    var c, u :| From(H, bs, q, c, u);
    StrippedValid(t);
    TxIdFixes(H, t, u);
  }

  lemma HeadersConsistent(H: Hashes, bs: seq<Block>, x: Blk, y: Blk)
    requires Collisionless(H, bs)
    requires x in BlocksIn(BlksOf(H, bs)) && y in BlocksIn(BlksOf(H, bs)) && x.hash == y.hash
    ensures x.header == y.header
  {
    var i :| 0 <= i < |bs| && BlksOf(H, bs)[i] == x;
    var j :| 0 <= j < |bs| && BlksOf(H, bs)[j] == y;
    assert bs[i] in bs && bs[j] in bs;
  }

  /** What the preloader relies on, derived for the blocks it reads. */
  lemma HashedConsistent(H: Hashes, bs: seq<Block>)
    requires AllValidTxs(bs) && Collisionless(H, bs)
    ensures ConsistentBlocks(BlocksIn(BlksOf(H, bs)))
  {
    var B := BlocksIn(BlksOf(H, bs));
    forall r, q | r in TxsOf(B) && q in TxsOf(B) && r.id == q.id ensures r == q {
      RecsConsistent(H, bs, r, q);
    }
    forall r | r in TxsOf(B) ensures Small(r) {
      RecsConsistent(H, bs, r, r);
    }
    forall x, y | x in B && y in B && x.hash == y.hash ensures x.header == y.header {
      HeadersConsistent(H, bs, x, y);
    }
  }

  // ---- From block files to the index ----

  function FilesOf(H: Hashes, files: seq<seq<Block>>): seq<seq<Blk>> {
    if files == [] then [] else [BlksOf(H, files[0])] + FilesOf(H, files[1..])
  }

  function Flatten(files: seq<seq<Block>>): seq<Block> {
    if files == [] then [] else files[0] + Flatten(files[1..])
  }

  lemma BlksJoin(H: Hashes, front: seq<Block>, bs: seq<Block>)
    ensures BlksOf(H, front + bs) == BlksOf(H, front) + BlksOf(H, bs)
  {
  }

  lemma AllBlocksCons(first: seq<Blk>, rest: seq<seq<Blk>>)
    ensures AllBlocks([first] + rest) == first + AllBlocks(rest)
  {
    assert ([first] + rest)[1..] == rest;
  }

  lemma {:induction false} FilesFlatten(H: Hashes, files: seq<seq<Block>>)
    ensures AllBlocks(FilesOf(H, files)) == BlksOf(H, Flatten(files))
  {
    if files != [] {
      FilesFlatten(H, files[1..]);
      AllBlocksCons(BlksOf(H, files[0]), FilesOf(H, files[1..]));
      BlksJoin(H, files[0], Flatten(files[1..]));
    }
  }

  // ---- What the loop reads is valid ----

  /** All that the format reads satisfies p. */
  ghost predicate Yields<T>(f: Format<T>, p: T -> bool) {
    forall s {:trigger f.dec(s)} :: f.dec(s).Good? ==> p(f.dec(s).value)
  }

  lemma {:induction false} ManyYields<T>(f: Format<T>, p: T -> bool, n: nat, s: seq<byte>)
    requires Yields(f, p)
    ensures var d := ManyDec(f, n, s); d.Good? ==> forall i :: 0 <= i < |d.value| ==> p(d.value[i])
  {
    if n > 0 && f.dec(s).Good? {
      ManyYields(f, p, n - 1, f.dec(s).rest);
    }
  }

  lemma TxYields()
    ensures Yields(TXREF, (tx: Tx) => Valid(TX, tx))
  {
    forall s | TXREF.dec(s).Good? ensures Valid(TX, TXREF.dec(s).value) {
      var d := DecodeTx(TX, true, s);
      AcceptsIff(true, s, d.value, d.rest);
    }
  }

  lemma BlockYields(s: seq<byte>)
    requires BLOCK.dec(s).Good?
    ensures ValidTxs(BLOCK.dec(s).value)
  {
    TxYields();
    IsoDecIs(Pair(HEADER, Vec(TXREF)), ToBlock, FromBlock, s);
    PairDecIs(HEADER, Vec(TXREF), s);
    var r := HEADER.dec(s).rest;
    assert Vec(TXREF).dec(r) == VecDec(TXREF, r);
    ManyYields(TXREF, (tx: Tx) => Valid(TX, tx), SizeDec(r).value, SizeDec(r).rest);
  }

  /** Every transaction the preload loop reads from any bytes is within its ranges. */
  lemma {:induction false} ScanYields(B: Format<Block>, s: seq<byte>)
    requires Readable(B) && forall x {:trigger B.dec(x)} :: B.dec(x).Good? ==> ValidTxs(B.dec(x).value)
    ensures AllValidTxs(Scan(B, s))
    decreases |s|
  {
    var d := Frame(s);
    if d.Good? && d.value.1 != 0 {
      if d.value.0 != MAGIC || IsMagic(d.rest) {
        ScanYields(B, d.rest);
      } else if |d.rest| >= 4 {
        ScanYields(B, Shrunk(B, d.rest).rest);
      }
    }
  }

  /** What the preloader finds in the files, whatever bytes they hold. */
  ghost function Scans(files: seq<seq<byte>>): seq<seq<Block>>
    requires Readable(BLOCK)
  {
    if files == [] then [] else [Scan(BLOCK, files[0])] + Scans(files[1..])
  }

  lemma {:induction false} ScansYield(files: seq<seq<byte>>)
    ensures Readable(BLOCK) && AllValidTxs(Flatten(Scans(files)))
  {
    BlockReadable();
    if files != [] {
      forall x | BLOCK.dec(x).Good? ensures ValidTxs(BLOCK.dec(x).value) {
        BlockYields(x);
      }
      ScanYields(BLOCK, files[0]);
      ScansYield(files[1..]);
      FlattenCons(Scan(BLOCK, files[0]), Scans(files[1..]));
    }
  }

  lemma FlattenCons(first: seq<Block>, rest: seq<seq<Block>>)
    ensures Flatten([first] + rest) == first + Flatten(rest)
  {
    assert ([first] + rest)[1..] == rest;
  }

  ghost function Preloading(H: Hashes, files: seq<seq<byte>>, workers: nat): Config
    requires Readable(BLOCK)
  {
    Config(FilesOf(H, Scans(files)), {}, workers)
  }

  // ---- The tables, entry by entry ----

  /** Headers are stored as they are hashed; transactions are hashed without witnesses. */
  function Names(H: Hashes): Naming {
    Naming((b: Block) => HEADER.enc(b.header), H.header, (t: Tx) => H.tx(EncodeTx(TX, false, t)), H.script)
  }

  lemma TxMadeOf(H: Hashes, t: Tx)
    ensures TxMade(Names(H), TxRecOf(H, t), t)
  {
  }

  lemma BlkMadeOf(H: Hashes, b: Block)
    ensures BlkMade(Names(H), BlkOf(H, b), b)
  {
  }

  lemma MadeOf(H: Hashes, N: Naming, bs: seq<Block>)
    requires N == Names(H)
    ensures AllMade(N, BlksOf(H, bs), bs)
  {
    forall i | 0 <= i < |bs| ensures BlkMade(N, BlksOf(H, bs)[i], bs[i]) {
      BlkMadeOf(H, bs[i]);
    }
    forall i, k {:trigger At(bs, i, k)} | At(bs, i, k) ensures TxMade(N, BlksOf(H, bs)[i].txs[k], bs[i].vtx[k]) {
      TxMadeOf(H, bs[i].vtx[k]);
    }
  }

  lemma Preloaded(H: Hashes, files: seq<seq<byte>>, workers: nat, run: seq<Action>)
    ensures Readable(BLOCK)
    ensures var c, bs := Preloading(H, files, workers), Flatten(Scans(files));
      var s := Run(c, Start(c, EMPTY), run);
      Collisionless(H, bs) && s.Some? && AllDone(s.value) ==>
        (Represents(s.value.committed, BlocksIn(BlksOf(H, bs))) <==> workers > 0 || bs == [])
  {
    ScansYield(files);
    var c := Preloading(H, files, workers);
    var bs := Flatten(Scans(files));
    if Collisionless(H, bs) {
      FilesFlatten(H, Scans(files));
      HashedConsistent(H, bs);
      Finished(c, BlksOf(H, bs), run);
    }
  }

  /** From an empty database, a finished preload of any files has made the index of exactly
      the blocks found in them, whatever the workers and full maps did, if and only if there
      is a worker or no block. */
  lemma EndToEnd(H: Hashes, files: seq<seq<byte>>, workers: nat, run: seq<Action>)
    ensures Readable(BLOCK)
    ensures var c, bs := Preloading(H, files, workers), Flatten(Scans(files));
      var s := Run(c, Start(c, EMPTY), run);
      Collisionless(H, bs) && s.Some? && AllDone(s.value) ==>
        (IsIndex(Names(H), s.value.committed, bs) <==> workers > 0 || bs == [])
  {
    Preloaded(H, files, workers, run);
    var c, bs := Preloading(H, files, workers), Flatten(Scans(files));
    var s := Run(c, Start(c, EMPTY), run);
    if s.Some? {
      MadeOf(H, Names(H), bs);
      RepresentsIff(Names(H), s.value.committed, BlksOf(H, bs), bs);
    }
  }

  // ---- Files as the program writes them ----

  /** A block file: entries, then zeros. */
  datatype FileImage = FileImage(entries: seq<Entry>, zeros: nat)

  ghost function FileBytes(images: seq<FileImage>): seq<seq<byte>> {
    if images == [] then [] else
      [Render(BLOCK, images[0].entries) + ZeroBytes(images[0].zeros)] + FileBytes(images[1..])
  }

  function StoredIn(images: seq<FileImage>): seq<seq<Block>> {
    if images == [] then [] else [BlocksOf(images[0].entries)] + StoredIn(images[1..])
  }

  /** Files that are read as they were written. */
  ghost predicate AllFramed(images: seq<FileImage>) {
    forall i :: 0 <= i < |images| ==> Readables(images[i].entries) && Framed(images[i].entries, images[i].zeros)
  }

  lemma {:induction false} LoadedStored(images: seq<FileImage>)
    requires AllFramed(images)
    ensures Readable(BLOCK) && Scans(FileBytes(images)) == StoredIn(images)
  {
    BlockReadable();
    if images != [] {
      FramingIff(images[0].entries, images[0].zeros);
      LoadedStored(images[1..]);
      assert FileBytes(images)[1..] == FileBytes(images[1..]);
    }
  }

  /** For files that are read as they were written these are the blocks stored in them. */
  lemma StoredEndToEnd(H: Hashes, images: seq<FileImage>, workers: nat, run: seq<Action>)
    requires AllFramed(images) && Collisionless(H, Flatten(StoredIn(images)))
    ensures Readable(BLOCK)
    ensures var c, bs := Preloading(H, FileBytes(images), workers), Flatten(StoredIn(images));
      var s := Run(c, Start(c, EMPTY), run);
      s.Some? && AllDone(s.value) ==>
        (IsIndex(Names(H), s.value.committed, bs) <==> workers > 0 || bs == [])
  {
    LoadedStored(images);
    EndToEnd(H, FileBytes(images), workers, run);
  }

  lemma Finished(c: Config, bs: seq<Blk>, run: seq<Action>)
    requires c.before == {} && bs == AllBlocks(c.files) && ConsistentBlocks(BlocksIn(bs))
    ensures var s := Run(c, Start(c, EMPTY), run);
      s.Some? && AllDone(s.value) ==> (Represents(s.value.committed, BlocksIn(bs)) <==> c.workers > 0 || bs == [])
  {
    var B, s := BlocksIn(bs), Run(c, Start(c, EMPTY), run);
    assert c.before + B == B;
    if s.Some? && AllDone(s.value) {
      if c.workers > 0 {
        InvRun(c, EMPTY, run);
        AllLogged(c, s.value);
        assert c.before + BlocksIn(s.value.log) == B;
      } else {
        NoWorkers(c, EMPTY, run);
        EmptyRepresents(bs);
      }
    }
  }

  lemma EmptyRepresents(bs: seq<Blk>)
    ensures Represents(EMPTY, BlocksIn(bs)) <==> bs == []
  {
    if bs != [] {
      assert bs[0] in BlocksIn(bs) && bs[0].hash !in EMPTY.blk;
    }
  }
}
