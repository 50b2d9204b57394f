/**
 TXODB.cxx: the index the preloader builds, and the transaction that stores one block.
 LMDB is a transactional multimap with one writer: BLK maps block hashes to headers, ADDR
 is a set of (script hash, outpoint) pairs, TXO maps a transaction id to its output
 records in order.
 */
module Index {
  import opened Wrappers
  import opened Wire

  type Key = seq<byte>

  datatype Out = Out(addr: Key, value: int)

  datatype TxRec = TxRec(id: Key, outs: seq<Out>)

  datatype Blk = Blk(hash: Key, header: seq<byte>, txs: seq<TxRec>)

  datatype Point = Point(hash: Key, n: nat)

  datatype Rec = Rec(n: nat, value: int)

  datatype Db = Db(blk: map<Key, seq<byte>>, addr: set<(Key, Point)>, txo: map<Key, seq<Rec>>)

  const EMPTY := Db(map[], {}, map[])

  // ---- What the index of a set of transactions is ----

  function PairOf(tx: TxRec, n: nat): (Key, Point)
    requires n < |tx.outs|
  {
    (tx.outs[n].addr, Point(tx.id, n))
  }

  ghost predicate OutOf(tx: TxRec, p: (Key, Point)) {
    p.1.hash == tx.id && p.1.n < |tx.outs| && tx.outs[p.1.n].addr == p.0
  }

  /** The first j output records. */
  function Records(tx: TxRec, j: nat): (rs: seq<Rec>)
    requires j <= |tx.outs|
    ensures |rs| == j && forall i :: 0 <= i < j ==> rs[i] == Rec(i, tx.outs[i].value)
  {
    if j == 0 then [] else Records(tx, j - 1) + [Rec(j - 1, tx.outs[j - 1].value)]
  }

  ghost predicate AddrOf(addr: set<(Key, Point)>, T: set<TxRec>) {
    forall p {:trigger p in addr} :: p in addr <==> exists tx :: tx in T && OutOf(tx, p)
  }

  ghost predicate HasOuts(T: set<TxRec>, id: Key) {
    exists tx :: tx in T && tx.id == id && tx.outs != []
  }

  ghost predicate TxoOf(txo: map<Key, seq<Rec>>, T: set<TxRec>) {
    && (forall id {:trigger id in txo} :: id in txo ==> HasOuts(T, id))
    && (forall tx {:trigger tx in T} :: tx in T && tx.outs != [] ==>
          tx.id in txo && txo[tx.id] == Records(tx, |tx.outs|))
  }

  /** ADDR and TXO are those of the transactions T. */
  ghost predicate Indexes(db: Db, T: set<TxRec>) {
    AddrOf(db.addr, T) && TxoOf(db.txo, T)
  }

  /** A transaction id fixes the outputs. */
  ghost predicate Consistent(T: set<TxRec>) {
    forall t, u :: t in T && u in T && t.id == u.id ==> t == u
  }

  /** Two indexes of the same transactions are the same. */
  lemma IndexUnique(d: Db, e: Db, T: set<TxRec>)
    requires Indexes(d, T) && Indexes(e, T)
    ensures d.addr == e.addr && d.txo == e.txo
  {
    assert d.addr == e.addr by {
      assert forall p :: p in d.addr <==> p in e.addr;
    }
    TxoUnique(d.txo, e.txo, T);
  }

  lemma TxoUnique(d: map<Key, seq<Rec>>, e: map<Key, seq<Rec>>, T: set<TxRec>)
    requires TxoOf(d, T) && TxoOf(e, T)
    ensures d == e
  {
    forall id ensures id in d <==> id in e {
    }
    forall id | id in d ensures d[id] == e[id] {
      var tx :| tx in T && tx.id == id && tx.outs != [];
    }
  }

  /** An outpoint is in ADDR, under exactly one script hash, exactly when it is in TXO. */
  lemma AddrIffTxo(db: Db, T: set<TxRec>, id: Key, n: nat)
    requires Indexes(db, T) && Consistent(T)
    ensures (exists a :: (a, Point(id, n)) in db.addr) <==> (id in db.txo && n < |db.txo[id]|)
    ensures id in db.txo && n < |db.txo[id]| ==> db.txo[id][n].n == n
    ensures forall a, b :: (a, Point(id, n)) in db.addr && (b, Point(id, n)) in db.addr ==> a == b
  {
    if id in db.txo {
      var tx :| tx in T && tx.id == id && tx.outs != [];
      if n < |db.txo[id]| {
        assert OutOf(tx, (tx.outs[n].addr, Point(id, n)));
        assert (tx.outs[n].addr, Point(id, n)) in db.addr;
      }
    }
    if a :| (a, Point(id, n)) in db.addr {
      var tx :| tx in T && OutOf(tx, (a, Point(id, n)));
    }
  }

  // ---- Adding outputs ----

  /** One round of the output loop: a pair that is already there is skipped. */
  function AddOut(db: Db, tx: TxRec, n: nat): Db
    requires n < |tx.outs|
  {
    if PairOf(tx, n) in db.addr then db else
      Db(db.blk, db.addr + {PairOf(tx, n)}, Append(db.txo, tx.id, Rec(n, tx.outs[n].value)))
  }

  function Append(txo: map<Key, seq<Rec>>, id: Key, r: Rec): map<Key, seq<Rec>> {
    txo[id := (if id in txo then txo[id] else []) + [r]]
  }

  function AddOuts(db: Db, tx: TxRec, j: nat): Db
    requires j <= |tx.outs|
  {
    if j == 0 then db else AddOut(AddOuts(db, tx, j - 1), tx, j - 1)
  }

  function AddTxs(db: Db, txs: seq<TxRec>): Db {
    if txs == [] then db else
      var tx := txs[|txs| - 1];
      AddOuts(AddTxs(db, txs[..|txs| - 1]), tx, |tx.outs|)
  }

  function AddHeader(db: Db, b: Blk): Db {
    db.(blk := db.blk[b.hash := b.header])
  }

  /** The whole transaction of a block; the second pass stores the header only. */
  function AddBlock(db: Db, mode: nat, b: Blk): Db {
    if mode == 1 then AddHeader(db, b) else AddTxs(AddHeader(db, b), b.txs)
  }

  lemma OutsKnown(db: Db, T: set<TxRec>, tx: TxRec, j: nat)
    requires Indexes(db, T) && tx in T && j <= |tx.outs|
    ensures AddOuts(db, tx, j) == db
  {
    forall n: nat | n < |tx.outs| ensures PairOf(tx, n) in db.addr {
      PairKnown(db.addr, T, tx, n);
    }
    OutsHeld(db, tx, j);
  }

  /** Pairs that are all there are all skipped. */
  lemma {:induction false} OutsHeld(db: Db, tx: TxRec, j: nat)
    requires j <= |tx.outs| && forall n: nat :: n < |tx.outs| ==> PairOf(tx, n) in db.addr
    ensures AddOuts(db, tx, j) == db
  {
    if j > 0 {
      OutsHeld(db, tx, j - 1);
    }
  }

  lemma PairKnown(addr: set<(Key, Point)>, T: set<TxRec>, tx: TxRec, n: nat)
    requires AddrOf(addr, T) && tx in T && n < |tx.outs|
    ensures PairOf(tx, n) in addr
  {
    assert OutOf(tx, PairOf(tx, n));
  }

  ghost predicate Fresh(T: set<TxRec>, tx: TxRec) {
    forall t {:trigger t in T} :: t in T ==> t.id != tx.id
  }

  lemma FreshPair(db: Db, T: set<TxRec>, tx: TxRec, n: nat)
    requires Indexes(db, T) && Fresh(T, tx) && n < |tx.outs|
    ensures PairOf(tx, n) !in db.addr
  {
  }

  lemma PairIs(tx: TxRec, n: nat, p: (Key, Point))
    requires n < |tx.outs|
    ensures p == PairOf(tx, n) <==> OutOf(tx, p) && p.1.n == n
  {
  }

  /** ADDR gains the pairs of the outputs added. */
  lemma {:induction false} FreshAddr(db: Db, T: set<TxRec>, tx: TxRec, j: nat, p: (Key, Point))
    requires Indexes(db, T) && Fresh(T, tx) && j <= |tx.outs|
    ensures p in AddOuts(db, tx, j).addr <==> p in db.addr || (OutOf(tx, p) && p.1.n < j)
  {
    if j > 0 {
      FreshAddr(db, T, tx, j - 1, p);
      PairIs(tx, j - 1, p);
    }
  }

  lemma AppendRecords(txo: map<Key, seq<Rec>>, tx: TxRec, n: nat)
    requires n < |tx.outs| && tx.id !in txo
    ensures var before := if n == 0 then txo else txo[tx.id := Records(tx, n)];
      Append(before, tx.id, Rec(n, tx.outs[n].value)) == txo[tx.id := Records(tx, n + 1)]
  {
  }

  lemma FreshPairNow(db: Db, T: set<TxRec>, tx: TxRec, n: nat)
    requires Indexes(db, T) && Fresh(T, tx) && n < |tx.outs|
    ensures tx.id !in db.txo && PairOf(tx, n) !in AddOuts(db, tx, n).addr
  {
    FreshPair(db, T, tx, n);
    FreshAddr(db, T, tx, n, PairOf(tx, n));
  }

  /** TXO gains their records, in order. */
  lemma {:induction false} FreshTxo(db: Db, T: set<TxRec>, tx: TxRec, j: nat)
    requires Indexes(db, T) && Fresh(T, tx) && j <= |tx.outs|
    ensures AddOuts(db, tx, j).blk == db.blk
    ensures AddOuts(db, tx, j).txo == if j == 0 then db.txo else db.txo[tx.id := Records(tx, j)]
  {
    if j > 0 {
      FreshTxo(db, T, tx, j - 1);
      FreshPairNow(db, T, tx, j - 1);
      AppendRecords(db.txo, tx, j - 1);
    }
  }

  /** MDB_APPENDDUP: the record goes last if it compares greater than the last one. */
  predicate Appends(txo: map<Key, seq<Rec>>, id: Key, r: Rec) {
    id in txo && txo[id] != [] ==> Compare(r.n, txo[id][|txo[id]| - 1].n) > 0
  }

  /** The comparison function: the difference of two 32-bit numbers, as a signed one. */
  function Compare(a: nat, b: nat): int {
    var d := (a - b) % 0x1_0000_0000;
    if d < 0x8000_0000 then d else d - 0x1_0000_0000
  }

  /** It is the difference modulo 2^32 that 32 bits with a sign can hold. */
  lemma CompareIs(a: nat, b: nat)
    ensures -0x8000_0000 <= Compare(a, b) < 0x8000_0000
    ensures (Compare(a, b) - (a - b)) % 0x1_0000_0000 == 0
  {
  }

  lemma CompareExact(a: nat, b: nat)
    requires a < 0x8000_0000 && b < 0x8000_0000
    ensures Compare(a, b) == a - b
  {
  }

  /** The number of outputs of a transaction that can be read from a file. */
  ghost predicate Small(tx: TxRec) {
    |tx.outs| <= MAX_SIZE
  }

  /** The ordered append never sees an out-of-order index. */
  lemma NeverRefused(db: Db, T: set<TxRec>, tx: TxRec, j: nat)
    requires Indexes(db, T) && Consistent(T + {tx}) && Small(tx) && j < |tx.outs|
    requires PairOf(tx, j) !in AddOuts(db, tx, j).addr
    ensures Appends(AddOuts(db, tx, j).txo, tx.id, Rec(j, tx.outs[j].value))
  {
    if tx in T {
      KnownPair(db, T, tx, j);
    } else {
      FreshTxo(db, T, tx, j);
      if j > 0 {
        CompareExact(j, j - 1);
      }
    }
  }

  lemma KnownPair(db: Db, T: set<TxRec>, tx: TxRec, j: nat)
    requires Indexes(db, T) && tx in T && j < |tx.outs|
    ensures PairOf(tx, j) in AddOuts(db, tx, j).addr
  {
    OutsKnown(db, T, tx, j);
    assert OutOf(tx, PairOf(tx, j));
  }

  lemma FreshAddrOf(addr: set<(Key, Point)>, more: set<(Key, Point)>, T: set<TxRec>, tx: TxRec)
    requires AddrOf(addr, T) && forall p {:trigger p in more} :: p in more <==> p in addr || OutOf(tx, p)
    ensures AddrOf(more, T + {tx})
  {
    var U := T + {tx};
    assert tx in U;
    forall p ensures p in more <==> exists u :: u in U && OutOf(u, p) {
      if p in addr {
        var t :| t in T && OutOf(t, p);
        assert t in U;
      }
    }
  }

  lemma HasMore(T: set<TxRec>, tx: TxRec, id: Key)
    ensures HasOuts(T + {tx}, id) <==> HasOuts(T, id) || (tx.id == id && tx.outs != [])
  {
    assert tx in T + {tx};
    if HasOuts(T, id) {
      var t :| t in T && t.id == id && t.outs != [];
      assert t in T + {tx};
    }
  }

  lemma FreshTxoOf(txo: map<Key, seq<Rec>>, more: map<Key, seq<Rec>>, T: set<TxRec>, tx: TxRec)
    requires TxoOf(txo, T) && Fresh(T, tx)
    requires more == if tx.outs == [] then txo else txo[tx.id := Records(tx, |tx.outs|)]
    ensures TxoOf(more, T + {tx})
  {
    forall id | id in more ensures HasOuts(T + {tx}, id) {
      HasMore(T, tx, id);
    }
    forall t | t in T + {tx} && t.outs != [] ensures t.id in more && more[t.id] == Records(t, |t.outs|) {
    }
  }

  lemma AddTxIndexes(db: Db, T: set<TxRec>, tx: TxRec)
    requires Indexes(db, T) && Consistent(T + {tx})
    ensures Indexes(AddOuts(db, tx, |tx.outs|), T + {tx}) && AddOuts(db, tx, |tx.outs|).blk == db.blk
  {
    if tx in T {
      OutsKnown(db, T, tx, |tx.outs|);
      assert T + {tx} == T;
    } else {
      var d := AddOuts(db, tx, |tx.outs|);
      FreshTxo(db, T, tx, |tx.outs|);
      forall p ensures p in d.addr <==> p in db.addr || OutOf(tx, p) {
        FreshAddr(db, T, tx, |tx.outs|, p);
      }
      FreshAddrOf(db.addr, d.addr, T, tx);
      FreshTxoOf(db.txo, d.txo, T, tx);
    }
  }

  function SetOf(txs: seq<TxRec>): set<TxRec> {
    set i | 0 <= i < |txs| :: txs[i]
  }

  lemma {:induction false} AddTxsIndexes(db: Db, T: set<TxRec>, txs: seq<TxRec>)
    requires Indexes(db, T) && Consistent(T + SetOf(txs))
    ensures Indexes(AddTxs(db, txs), T + SetOf(txs)) && AddTxs(db, txs).blk == db.blk
  {
    if txs == [] {
      assert T + SetOf(txs) == T;
    } else {
      var n := |txs| - 1;
      assert SetOf(txs) == SetOf(txs[..n]) + {txs[n]};
      AddTxsIndexes(db, T, txs[..n]);
      assert T + SetOf(txs[..n]) + {txs[n]} == T + SetOf(txs);
      AddTxIndexes(AddTxs(db, txs[..n]), T + SetOf(txs[..n]), txs[n]);
    }
  }

  // ---- Blocks ----

  function TxsOf(B: set<Blk>): set<TxRec> {
    set b, i | b in B && 0 <= i < |b.txs| :: b.txs[i]
  }

  ghost predicate Headers(db: Db, B: set<Blk>) {
    && (forall h {:trigger h in db.blk} :: h in db.blk ==> exists b :: b in B && b.hash == h)
    && (forall b {:trigger b in B} :: b in B ==> b.hash in db.blk && db.blk[b.hash] == b.header)
  }

  /** The database is the union of the entries of the blocks B. */
  ghost predicate Represents(db: Db, B: set<Blk>) {
    Headers(db, B) && Indexes(db, TxsOf(B))
  }

  /** Hashes fix headers and outputs. */
  ghost predicate ConsistentBlocks(B: set<Blk>) {
    && (forall b, c :: b in B && c in B && b.hash == c.hash ==> b.header == c.header)
    && Consistent(TxsOf(B)) && (forall tx :: tx in TxsOf(B) ==> Small(tx))
  }

  /** The union does not depend on anything but the set of blocks. */
  lemma UnionUnique(d: Db, e: Db, B: set<Blk>)
    requires Represents(d, B) && Represents(e, B)
    ensures d == e
  {
    IndexUnique(d, e, TxsOf(B));
    assert forall h :: h in d.blk <==> h in e.blk;
    forall h | h in d.blk ensures d.blk[h] == e.blk[h] {
      var b :| b in B && b.hash == h;
    }
    assert d.blk == e.blk;
  }

  lemma TxsOfAdd(B: set<Blk>, b: Blk)
    ensures TxsOf(B + {b}) == TxsOf(B) + SetOf(b.txs)
  {
  }

  lemma HeaderAdd(db: Db, B: set<Blk>, b: Blk)
    requires Headers(db, B) && ConsistentBlocks(B + {b})
    ensures Headers(AddHeader(db, b), B + {b})
  {
    var e := AddHeader(db, b);
    forall c | c in B + {b} ensures c.hash in e.blk && e.blk[c.hash] == c.header {
      assert b in B + {b};
    }
    forall h | h in e.blk ensures exists c :: c in B + {b} && c.hash == h {
      if h == b.hash {
        assert b in B + {b};
      } else {
        var c :| c in B && c.hash == h;
        assert c in B + {b};
      }
    }
  }

  lemma Sub(B: set<Blk>, C: set<Blk>)
    requires B <= C && ConsistentBlocks(C)
    ensures ConsistentBlocks(B)
  {
    assert TxsOf(B) <= TxsOf(C);
  }

  /** Storing a block adds exactly its entries. */
  lemma AddBlockRepresents(db: Db, B: set<Blk>, b: Blk)
    requires Represents(db, B) && ConsistentBlocks(B + {b})
    ensures Represents(AddBlock(db, 0, b), B + {b})
  {
    HeaderAdd(db, B, b);
    TxsOfAdd(B, b);
    var e := AddHeader(db, b);
    assert Indexes(e, TxsOf(B)) by { IndexesSame(db, e, TxsOf(B)); }
    AddTxsIndexes(e, TxsOf(B), b.txs);
    HeadersSame(e, AddTxs(e, b.txs), B + {b});
  }

  lemma IndexesSame(d: Db, e: Db, T: set<TxRec>)
    requires Indexes(d, T) && d.addr == e.addr && d.txo == e.txo
    ensures Indexes(e, T)
  {
  }

  lemma HeadersSame(d: Db, e: Db, B: set<Blk>)
    requires Headers(d, B) && d.blk == e.blk
    ensures Headers(e, B)
  {
  }

  /** Storing a block again, in either pass, changes nothing. */
  lemma AddAgain(db: Db, B: set<Blk>, mode: nat, b: Blk)
    requires Represents(db, B) && b in B && ConsistentBlocks(B)
    ensures AddBlock(db, mode, b) == db
  {
    assert B + {b} == B;
    assert AddHeader(db, b) == db by {
      assert b.hash in db.blk && db.blk[b.hash] == b.header;
      assert db.blk[b.hash := b.header] == db.blk;
    }
    if mode != 1 {
      AddBlockRepresents(db, B, b);
      UnionUnique(AddTxs(db, b.txs), db, B);
    }
  }

  // ---- The transaction that stores a block ----

  datatype Code = Success | KeyExist | MapFull

  /** A write transaction: a private copy of the database, and the puts that will find the
      map full. */
  class Txn {
    var db: Db

    constructor (committed: Db)
      ensures db == committed
    {
      db := committed;
    }

    method PutHeader(space: Space, b: Blk) returns (err: Code)
      modifies this, space
      ensures err != KeyExist && space.Used(old(space.full), err == MapFull)
      ensures db == if err == Success then AddHeader(old(db), b) else old(db)
    {
      var full := space.Take();
      if full {
        return MapFull;
      }
      db := AddHeader(db, b);
      err := Success;
    }

    /** MDB_NODUPDATA */
    method PutAddr(space: Space, p: (Key, Point)) returns (err: Code)
      modifies this, space
      ensures space.Used(old(space.full), err == MapFull)
      ensures err != MapFull ==> (err == KeyExist <==> p in old(db).addr)
      ensures db == if err == Success then old(db).(addr := old(db).addr + {p}) else old(db)
    {
      var full := space.Take();
      if full {
        return MapFull;
      }
      if p in db.addr {
        return KeyExist;
      }
      db := db.(addr := db.addr + {p});
      err := Success;
    }

    /** MDB_APPENDDUP */
    method AppendTxo(space: Space, id: Key, r: Rec) returns (err: Code)
      modifies this, space
      ensures space.Used(old(space.full), err == MapFull)
      ensures err != MapFull ==> (err == Success <==> Appends(old(db).txo, id, r))
      ensures db == if err == Success then old(db).(txo := Append(old(db).txo, id, r)) else old(db)
    {
      var full := space.Take();
      if full {
        return MapFull;
      }
      if id in db.txo && db.txo[id] != [] && Compare(r.n, db.txo[id][|db.txo[id]| - 1].n) <= 0 {
        return KeyExist;
      }
      db := db.(txo := Append(db.txo, id, r));
      err := Success;
    }
  }

  /** Which of the coming puts find the map full: any finite pattern. */
  class Space {
    var full: seq<bool>

    constructor (full: seq<bool>)
      ensures this.full == full
    {
      this.full := full;
    }

    /** One put has consulted it; a full map has used up an entry of the pattern. */
    ghost predicate Used(before: seq<bool>, isFull: bool)
      reads this
    {
      |full| <= |before| && (isFull ==> |full| < |before|)
    }

    method Take() returns (r: bool)
      modifies this
      ensures Used(old(full), r)
    {
      if full == [] {
        return false;
      }
      r := full[0];
      full := full[1..];
    }
  }

  datatype Outcome = Stored | NoSpace | Refused

  /** The entry of one output. */
  method StoreOut(txn: Txn, space: Space, tx: TxRec, n: nat) returns (err: Outcome)
    requires n < |tx.outs|
    requires PairOf(tx, n) !in txn.db.addr ==> Appends(txn.db.txo, tx.id, Rec(n, tx.outs[n].value))
    modifies txn, space
    ensures err != Refused && |space.full| <= |old(space.full)|
    ensures err == Stored ==> txn.db == AddOut(old(txn.db), tx, n)
    ensures err == NoSpace ==> |space.full| < |old(space.full)|
  {
    var code := txn.PutAddr(space, PairOf(tx, n));
    if code == MapFull {
      return NoSpace;
    }
    if code == KeyExist {
      return Stored;
    }
    code := txn.AppendTxo(space, tx.id, Rec(n, tx.outs[n].value));
    if code == MapFull {
      return NoSpace;
    }
    if code == KeyExist {
      return Refused;
    }
    err := Stored;
  }

  /** The output loop of one transaction. */
  method StoreOuts(txn: Txn, space: Space, tx: TxRec, ghost T: set<TxRec>) returns (err: Outcome)
    requires Indexes(txn.db, T) && Consistent(T + {tx}) && Small(tx)
    modifies txn, space
    ensures err != Refused && |space.full| <= |old(space.full)|
    ensures err == Stored ==> txn.db == AddOuts(old(txn.db), tx, |tx.outs|)
    ensures err == NoSpace ==> |space.full| < |old(space.full)|
  {
    ghost var start := txn.db;
    for txop := 0 to |tx.outs|
      invariant txn.db == AddOuts(start, tx, txop) && |space.full| <= |old(space.full)|
    {
      if PairOf(tx, txop) !in txn.db.addr {
        NeverRefused(start, T, tx, txop);
      }
      err := StoreOut(txn, space, tx, txop);
      if err != Stored {
        return;
      }
    }
    err := Stored;
  }

  /** The transactions of a block. */
  method StoreTxs(txn: Txn, space: Space, txs: seq<TxRec>, ghost T: set<TxRec>) returns (err: Outcome)
    requires Indexes(txn.db, T) && Consistent(T + SetOf(txs)) && forall tx :: tx in SetOf(txs) ==> Small(tx)
    modifies txn, space
    ensures err != Refused && |space.full| <= |old(space.full)|
    ensures err == Stored ==> txn.db == AddTxs(old(txn.db), txs)
    ensures err == NoSpace ==> |space.full| < |old(space.full)|
  {
    ghost var start := txn.db;
    for i := 0 to |txs|
      invariant txn.db == AddTxs(start, txs[..i]) && |space.full| <= |old(space.full)|
    {
      NextTx(start, T, txs, i);
      err := StoreOuts(txn, space, txs[i], T + SetOf(txs[..i]));
      if err != Stored {
        return;
      }
    }
    assert txs[..|txs|] == txs;
    err := Stored;
  }

  lemma NextTx(db: Db, T: set<TxRec>, txs: seq<TxRec>, i: nat)
    requires Indexes(db, T) && Consistent(T + SetOf(txs)) && i < |txs|
    ensures Indexes(AddTxs(db, txs[..i]), T + SetOf(txs[..i])) && Consistent(T + SetOf(txs[..i]) + {txs[i]})
    ensures AddTxs(db, txs[..i + 1]) == AddOuts(AddTxs(db, txs[..i]), txs[i], |txs[i].outs|)
    ensures txs[i] in SetOf(txs)
  {
    assert SetOf(txs[..i]) <= SetOf(txs);
    AddTxsIndexes(db, T, txs[..i]);
    assert txs[..i + 1][..i] == txs[..i];
  }

  /** One attempt at the transaction of a block. */
  method TryBlock(txn: Txn, space: Space, b: Blk, mode: nat, ghost B: set<Blk>) returns (err: Outcome)
    requires Represents(txn.db, B) && ConsistentBlocks(B + {b})
    modifies txn, space
    ensures err != Refused && |space.full| <= |old(space.full)|
    ensures err == Stored ==> txn.db == AddBlock(old(txn.db), mode, b)
    ensures err == NoSpace ==> |space.full| < |old(space.full)|
  {
    ghost var start := txn.db;
    var code := txn.PutHeader(space, b);
    if code == MapFull {
      return NoSpace;
    }
    if mode == 1 {
      return Stored;
    }
    TxsOfAdd(B, b);
    IndexesSame(start, txn.db, TxsOf(B));
    err := StoreTxs(txn, space, b.txs, TxsOf(B));
  }

  class Env {
    var committed: Db

    constructor ()
      ensures committed == EMPTY
    {
      committed := EMPTY;
    }
  }

  /** Stores a block, starting over with a larger map whenever the map is full: whatever the
      pattern of aborts, the block is committed once and whole. */
  method StoreBlock(env: Env, space: Space, b: Blk, mode: nat, ghost B: set<Blk>)
    requires Represents(env.committed, B) && ConsistentBlocks(B + {b})
    modifies env, space
    ensures env.committed == AddBlock(old(env.committed), mode, b)
  {
    while true
      invariant env.committed == old(env.committed)
      decreases |space.full|
    {
      var txn := new Txn(env.committed);
      var err := TryBlock(txn, space, b, mode, B);
      if err == Stored {
        env.committed := txn.db;
        return;
      }
    }
  }
}
