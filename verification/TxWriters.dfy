/** serialize.h and transaction.h over CDataStream: what is written is what the formats encode. */
module TxWriters {
  import opened Wrappers
  import opened Wire
  import opened Transactions
  import opened DataStreams

  method WriteUnsigned(dst: DataStream, n: nat, v: nat)
    requires dst.Valid()
    modifies dst
    ensures dst.Valid() && dst.Unread() == old(dst.Unread()) + LeBytes(n, v)
  {
    dst.Write(LeBytes(n, v));
  }

  lemma Join(a: seq<byte>, b: seq<byte>, c: seq<byte>)
    ensures a + b + c == a + (b + c)
  {
  }

  lemma Join3(a: seq<byte>, b: seq<byte>, c: seq<byte>, d: seq<byte>)
    ensures a + b + c + d == a + (b + c + d)
  {
  }

  lemma Join4(a: seq<byte>, b: seq<byte>, c: seq<byte>, d: seq<byte>, e: seq<byte>)
    ensures a + b + c + d + e == a + (b + c + d + e)
  {
  }

  lemma JoinNone(a: seq<byte>)
    ensures a + [] == a
  {
  }

  method WriteCompactSize(dst: DataStream, n: nat)
    requires dst.Valid()
    modifies dst
    ensures dst.Valid() && dst.Unread() == old(dst.Unread()) + SizeEnc(n)
  {
    if n < 253 {
      dst.Write([n]);
    } else if n <= 0xFFFF {
      WriteMarked(dst, 253, 2, n);
    } else if n <= 0xFFFF_FFFF {
      WriteMarked(dst, 254, 4, n);
    } else {
      WriteMarked(dst, 255, 8, n);
    }
  }

  method WriteMarked(dst: DataStream, marker: byte, width: nat, n: nat)
    requires dst.Valid()
    modifies dst
    ensures dst.Valid() && dst.Unread() == old(dst.Unread()) + ([marker] + LeBytes(width, n))
  {
    Join(dst.Unread(), [marker], LeBytes(width, n));
    dst.Write([marker]);
    WriteUnsigned(dst, width, n);
  }

  // ---- Encodings of the parts ----

  lemma {:induction false} ManyEncBytes(v: seq<byte>)
    ensures ManyEnc(BYTE, v) == v
  {
    if v != [] {
      ManyEncBytes(v[1..]);
      assert v == [v[0]] + v[1..];
    }
  }

  lemma BytesEnc(v: seq<byte>)
    ensures BYTES.enc(v) == SizeEnc(|v|) + v
  {
    ManyEncBytes(v);
  }

  lemma TxInEnc(i: TxIn)
    ensures TXIN.enc(i) == i.prevout.hash + LeBytes(4, i.prevout.n) + BYTES.enc(i.scriptSig) + LeBytes(4, i.nSequence)
  {
    IsoEnc(Pair(OUTPOINT, Pair(BYTES, UINT32)), ToTxIn, FromTxIn, i);
    PairEncIs(OUTPOINT, Pair(BYTES, UINT32), i.prevout, (i.scriptSig, i.nSequence));
    PairEncIs(BYTES, UINT32, i.scriptSig, i.nSequence);
    IsoEnc(Pair(HASH, UINT32), ToOutPoint, FromOutPoint, i.prevout);
    PairEncIs(HASH, UINT32, i.prevout.hash, i.prevout.n);
    Join(i.prevout.hash + LeBytes(4, i.prevout.n), BYTES.enc(i.scriptSig), LeBytes(4, i.nSequence));
  }

  lemma TxOutEnc(o: TxOut)
    ensures TXOUT.enc(o) == LeBytes(8, UnsignedOf(0x1_0000_0000_0000_0000, o.nValue)) + BYTES.enc(o.scriptPubKey)
  {
    IsoEnc(Pair(INT64, BYTES), ToTxOut, FromTxOut, o);
    PairEncIs(INT64, BYTES, o.nValue, o.scriptPubKey);
  }

  lemma {:induction false} ManyEncSnoc<T>(g: Format<T>, xs: seq<T>, i: nat)
    requires i < |xs|
    ensures ManyEnc(g, xs[..i + 1]) == ManyEnc(g, xs[..i]) + g.enc(xs[i])
    decreases i
  {
    if i > 0 {
      ManyEncSnoc(g, xs[1..], i - 1);
      assert xs[1..][..i] == xs[..i + 1][1..] && xs[1..][..i - 1] == xs[..i][1..];
    } else {
      assert xs[..1][1..] == [];
    }
  }

  /** Inputs are encoded without regard to their witnesses. */
  lemma {:induction false} StripEnc(vin: seq<TxIn>)
    ensures ManyEnc(TXIN, Strip(vin)) == ManyEnc(TXIN, vin)
  {
    if vin != [] {
      StripEnc(vin[1..]);
      assert Strip(vin)[1..] == Strip(vin[1..]);
      TxInEnc(vin[0]);
      TxInEnc(vin[0].(scriptWitness := []));
    }
  }

  // ---- Writing them ----

  /** The writers are proved for any format g that encodes like the one they implement. */
  ghost predicate SameEnc<T(!new)>(g: Format<T>, h: Format<T>) {
    forall x {:trigger h.enc(x)} :: g.enc(x) == h.enc(x)
  }

  method WriteByteVector(dst: DataStream, v: seq<byte>, ghost g: Format<seq<byte>>)
    requires dst.Valid() && SameEnc(g, BYTES)
    modifies dst
    ensures dst.Valid() && dst.Unread() == old(dst.Unread()) + g.enc(v)
  {
    BytesEnc(v);
    Join(dst.Unread(), SizeEnc(|v|), v);
    JoinNone(dst.Unread() + SizeEnc(|v|));
    WriteCompactSize(dst, |v|);
    if v != [] {
      dst.Write(v);
    }
  }

  method WriteTxIn(dst: DataStream, i: TxIn, ghost g: Format<TxIn>)
    requires dst.Valid() && SameEnc(g, TXIN)
    modifies dst
    ensures dst.Valid() && dst.Unread() == old(dst.Unread()) + g.enc(i)
  {
    assert g.enc(i) == TXIN.enc(i);
    TxInEnc(i);
    WriteInParts(dst, i, BYTES);
  }

  method WriteInParts(dst: DataStream, i: TxIn, ghost g: Format<seq<byte>>)
    requires dst.Valid() && SameEnc(g, BYTES)
    modifies dst
    ensures dst.Valid()
    ensures dst.Unread() == old(dst.Unread())
         + (i.prevout.hash + LeBytes(4, i.prevout.n) + g.enc(i.scriptSig) + LeBytes(4, i.nSequence))
  {
    Join3(dst.Unread(), i.prevout.hash + LeBytes(4, i.prevout.n), g.enc(i.scriptSig), LeBytes(4, i.nSequence));
    WriteOutPoint(dst, i.prevout);
    WriteByteVector(dst, i.scriptSig, g);
    WriteUnsigned(dst, 4, i.nSequence);
  }

  method WriteOutPoint(dst: DataStream, o: OutPoint)
    requires dst.Valid()
    modifies dst
    ensures dst.Valid() && dst.Unread() == old(dst.Unread()) + (o.hash + LeBytes(4, o.n))
  {
    Join(dst.Unread(), o.hash, LeBytes(4, o.n));
    dst.Write(o.hash);
    WriteUnsigned(dst, 4, o.n);
  }

  method WriteTxOut(dst: DataStream, o: TxOut, ghost g: Format<TxOut>)
    requires dst.Valid() && SameEnc(g, TXOUT)
    modifies dst
    ensures dst.Valid() && dst.Unread() == old(dst.Unread()) + g.enc(o)
  {
    assert g.enc(o) == TXOUT.enc(o);
    TxOutEnc(o);
    WriteOutParts(dst, o, BYTES);
  }

  method WriteOutParts(dst: DataStream, o: TxOut, ghost g: Format<seq<byte>>)
    requires dst.Valid() && SameEnc(g, BYTES)
    modifies dst
    ensures dst.Valid()
    ensures dst.Unread() == old(dst.Unread())
         + (LeBytes(8, UnsignedOf(0x1_0000_0000_0000_0000, o.nValue)) + g.enc(o.scriptPubKey))
  {
    Join(dst.Unread(), LeBytes(8, UnsignedOf(0x1_0000_0000_0000_0000, o.nValue)), g.enc(o.scriptPubKey));
    WriteUnsigned(dst, 8, UnsignedOf(0x1_0000_0000_0000_0000, o.nValue));
    WriteByteVector(dst, o.scriptPubKey, g);
  }

  method WriteTxIns(dst: DataStream, vin: seq<TxIn>, ghost g: Format<TxIn>)
    requires dst.Valid() && SameEnc(g, TXIN)
    modifies dst
    ensures dst.Valid() && dst.Unread() == old(dst.Unread()) + VecEnc(g, vin)
  {
    WriteCompactSize(dst, |vin|);
    ghost var start := dst.Unread();
    JoinNone(start);
    for i := 0 to |vin|
      invariant dst.Valid() && dst.Unread() == start + ManyEnc(g, vin[..i])
    {
      ManyEncSnoc(g, vin, i);
      Join(start, ManyEnc(g, vin[..i]), g.enc(vin[i]));
      WriteTxIn(dst, vin[i], g);
    }
    assert vin[..|vin|] == vin;
    Join(old(dst.Unread()), SizeEnc(|vin|), ManyEnc(g, vin));
  }

  method WriteTxOuts(dst: DataStream, vout: seq<TxOut>, ghost g: Format<TxOut>)
    requires dst.Valid() && SameEnc(g, TXOUT)
    modifies dst
    ensures dst.Valid() && dst.Unread() == old(dst.Unread()) + VecEnc(g, vout)
  {
    WriteCompactSize(dst, |vout|);
    ghost var start := dst.Unread();
    JoinNone(start);
    for i := 0 to |vout|
      invariant dst.Valid() && dst.Unread() == start + ManyEnc(g, vout[..i])
    {
      ManyEncSnoc(g, vout, i);
      Join(start, ManyEnc(g, vout[..i]), g.enc(vout[i]));
      WriteTxOut(dst, vout[i], g);
    }
    assert vout[..|vout|] == vout;
    Join(old(dst.Unread()), SizeEnc(|vout|), ManyEnc(g, vout));
  }

  method WriteStack(dst: DataStream, stack: seq<seq<byte>>, ghost g: Format<seq<byte>>)
    requires dst.Valid() && SameEnc(g, BYTES)
    modifies dst
    ensures dst.Valid() && dst.Unread() == old(dst.Unread()) + VecEnc(g, stack)
  {
    WriteCompactSize(dst, |stack|);
    ghost var start := dst.Unread();
    JoinNone(start);
    for i := 0 to |stack|
      invariant dst.Valid() && dst.Unread() == start + ManyEnc(g, stack[..i])
    {
      ManyEncSnoc(g, stack, i);
      Join(start, ManyEnc(g, stack[..i]), g.enc(stack[i]));
      WriteByteVector(dst, stack[i], g);
    }
    assert stack[..|stack|] == stack;
    Join(old(dst.Unread()), SizeEnc(|stack|), ManyEnc(g, stack));
  }

  method WriteWitnesses(dst: DataStream, vin: seq<TxIn>, ghost g: Format<seq<seq<byte>>>, ghost b: Format<seq<byte>>)
    requires dst.Valid() && SameEnc(b, BYTES) && forall x :: g.enc(x) == VecEnc(b, x)
    modifies dst
    ensures dst.Valid() && dst.Unread() == old(dst.Unread()) + ManyEnc(g, Stacks(vin))
  {
    ghost var stacks, start := Stacks(vin), dst.Unread();
    JoinNone(start);
    for i := 0 to |vin|
      invariant dst.Valid() && dst.Unread() == start + ManyEnc(g, stacks[..i])
    {
      ManyEncSnoc(g, stacks, i);
      Join(start, ManyEnc(g, stacks[..i]), g.enc(stacks[i]));
      WriteStack(dst, vin[i].scriptWitness, b);
    }
    assert stacks[..|vin|] == stacks;
  }

  method TestWitness(tx: Tx) returns (r: bool)
    ensures r == HasWitness(tx)
  {
    for i := 0 to |tx.vin|
      invariant forall j :: 0 <= j < i ==> tx.vin[j].scriptWitness == []
    {
      if tx.vin[i].scriptWitness != [] {
        return true;
      }
    }
    r := false;
  }

  /** The formats of a transaction's parts, made from those of their elements. */
  ghost predicate Made(K: TxFormats, i: Format<TxIn>, o: Format<TxOut>, b: Format<seq<byte>>) {
    && (forall x {:trigger K.version.enc(x)} :: K.version.enc(x) == LeBytes(4, UnsignedOf(0x1_0000_0000, x)))
    && (forall x {:trigger K.lockTime.enc(x)} :: K.lockTime.enc(x) == LeBytes(4, x))
    && (forall x {:trigger K.vin.enc(x)} :: K.vin.enc(x) == VecEnc(i, x))
    && (forall x {:trigger K.vout.enc(x)} :: K.vout.enc(x) == VecEnc(o, x))
    && (forall x {:trigger K.stack.enc(x)} :: K.stack.enc(x) == VecEnc(b, x))
    && SameEnc(i, TXIN) && SameEnc(o, TXOUT) && SameEnc(b, BYTES)
    && (forall vin {:trigger VecEnc(i, Strip(vin))} :: VecEnc(i, Strip(vin)) == VecEnc(i, vin))
  }

  lemma TxMade()
    ensures Made(TX, TXIN, TXOUT, BYTES)
  {
    forall x: int ensures INT32.enc(x) == LeBytes(4, UnsignedOf(0x1_0000_0000, x)) {
      IsoEnc(Unsigned(4), (v: nat) => SignedOf(0x1_0000_0000, v), (v: int) => UnsignedOf(0x1_0000_0000, v), x);
    }
    forall vin ensures VecEnc(TXIN, Strip(vin)) == VecEnc(TXIN, vin) {
      StripEnc(vin);
    }
  }

  method SerializeTransaction(tx: Tx, dst: DataStream, allow: bool)
    requires dst.Valid()
    modifies dst
    ensures dst.Valid() && dst.Unread() == old(dst.Unread()) + EncodeTx(TX, allow, tx)
  {
    TxMade();
    SerializeAs(tx, dst, allow, TX, TXIN, TXOUT, BYTES);
  }

  method SerializeAs(tx: Tx, dst: DataStream, allow: bool,
                     ghost K: TxFormats, ghost gi: Format<TxIn>, ghost go: Format<TxOut>, ghost gb: Format<seq<byte>>)
    requires dst.Valid() && Made(K, gi, go, gb)
    modifies dst
    ensures dst.Valid() && dst.Unread() == old(dst.Unread()) + EncodeTx(K, allow, tx)
  {
    var flags := WriteHead(tx, dst, allow, gi);
    WriteRest(tx, dst, flags, K, gi, go, gb);
    Parts(K, allow, tx, gi, go, gb);
    Join(old(dst.Unread()), Head(tx, flags), RestOf(K, tx, flags, gi, go));
  }

  function Head(tx: Tx, flags: byte): seq<byte> {
    LeBytes(4, UnsignedOf(0x1_0000_0000, tx.nVersion)) + if flags != 0 then [0, flags] else []
  }

  function WitnessPart(K: TxFormats, tx: Tx, flags: byte): seq<byte> {
    if flags % 2 == 1 then ManyEnc(K.stack, Stacks(tx.vin)) else []
  }

  function RestOf(K: TxFormats, tx: Tx, flags: byte, gi: Format<TxIn>, go: Format<TxOut>): seq<byte> {
    VecEnc(gi, tx.vin) + VecEnc(go, tx.vout) + WitnessPart(K, tx, flags) + LeBytes(4, tx.nLockTime)
  }

  /** The parts of a transaction as they are written. */
  ghost predicate WrittenParts(K: TxFormats, tx: Tx, gi: Format<TxIn>, go: Format<TxOut>) {
    && K.version.enc(tx.nVersion) == LeBytes(4, UnsignedOf(0x1_0000_0000, tx.nVersion))
    && Body(K, tx) == VecEnc(gi, tx.vin) + VecEnc(go, tx.vout)
    && K.lockTime.enc(tx.nLockTime) == LeBytes(4, tx.nLockTime)
  }

  lemma MadeParts(K: TxFormats, tx: Tx, gi: Format<TxIn>, go: Format<TxOut>, gb: Format<seq<byte>>)
    requires Made(K, gi, go, gb)
    ensures WrittenParts(K, tx, gi, go)
  {
    assert VecEnc(gi, Strip(tx.vin)) == VecEnc(gi, tx.vin);
  }

  lemma BasicParts(K: TxFormats, tx: Tx, gi: Format<TxIn>, go: Format<TxOut>)
    requires WrittenParts(K, tx, gi, go)
    ensures Basic(K, tx) == Head(tx, 0) + RestOf(K, tx, 0, gi, go)
  {
    var version, body := K.version.enc(tx.nVersion), Body(K, tx);
    JoinNone(version);
    JoinNone(body);
    Join(version, body, K.lockTime.enc(tx.nLockTime));
  }

  lemma ExtendedParts(K: TxFormats, tx: Tx, gi: Format<TxIn>, go: Format<TxOut>)
    requires WrittenParts(K, tx, gi, go)
    ensures Extended(K, tx) == Head(tx, 1) + RestOf(K, tx, 1, gi, go)
  {
    var flagged: seq<byte> := K.version.enc(tx.nVersion) + [0, 1];
    Join3(flagged, Body(K, tx), WitnessPart(K, tx, 1), K.lockTime.enc(tx.nLockTime));
  }

  lemma Parts(K: TxFormats, allow: bool, tx: Tx, gi: Format<TxIn>, go: Format<TxOut>, gb: Format<seq<byte>>)
    requires Made(K, gi, go, gb)
    ensures var flags: byte := if allow && HasWitness(tx) then 1 else 0;
      EncodeTx(K, allow, tx) == Head(tx, flags) + RestOf(K, tx, flags, gi, go)
  {
    MadeParts(K, tx, gi, go, gb);
    if allow && HasWitness(tx) {
      ExtendedParts(K, tx, gi, go);
    } else {
      BasicParts(K, tx, gi, go);
    }
  }

  method WriteHead(tx: Tx, dst: DataStream, allow: bool, ghost gi: Format<TxIn>) returns (flags: byte)
    requires dst.Valid() && SameEnc(gi, TXIN)
    modifies dst
    ensures dst.Valid() && flags == (if allow && HasWitness(tx) then 1 else 0)
    ensures dst.Unread() == old(dst.Unread()) + Head(tx, flags)
  {
    WriteUnsigned(dst, 4, UnsignedOf(0x1_0000_0000, tx.nVersion));
    flags := 0;
    if allow {
      var has := TestWitness(tx);
      if has {
        flags := 1;
      }
    }
    if flags != 0 {
      WriteTxIns(dst, [], gi);
      dst.Write([flags]);
    }
  }

  method WriteRest(tx: Tx, dst: DataStream, flags: byte,
                   ghost K: TxFormats, ghost gi: Format<TxIn>, ghost go: Format<TxOut>, ghost gb: Format<seq<byte>>)
    requires dst.Valid() && Made(K, gi, go, gb)
    modifies dst
    ensures dst.Valid() && dst.Unread() == old(dst.Unread()) + RestOf(K, tx, flags, gi, go)
  {
    Join4(dst.Unread(), VecEnc(gi, tx.vin), VecEnc(go, tx.vout), WitnessPart(K, tx, flags), LeBytes(4, tx.nLockTime));
    JoinNone(dst.Unread() + VecEnc(gi, tx.vin) + VecEnc(go, tx.vout));
    WriteTxIns(dst, tx.vin, gi);
    WriteTxOuts(dst, tx.vout, go);
    if flags % 2 == 1 {
      WriteWitnesses(dst, tx.vin, K.stack, gb);
    }
    WriteUnsigned(dst, 4, tx.nLockTime);
  }
}
