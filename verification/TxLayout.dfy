/**
 The transaction format written out in bytes, and the ranges of the fields: what is accepted
 said without the formats of the parts.
 */
module TxLayouts {
  import opened Wrappers
  import opened Wire
  import opened Transactions
  import opened Blocks
  import opened TxWriters
  import opened Layouts

  // ---- Ranges ----

  ghost predicate VectorInRange(v: seq<byte>) {
    |v| <= 0x200_0000
  }

  ghost predicate StackInRange(stack: seq<seq<byte>>) {
    |stack| <= 0x200_0000 && forall i :: 0 <= i < |stack| ==> VectorInRange(stack[i])
  }

  ghost predicate InputInRange(i: TxIn) {
    && |i.prevout.hash| == 32 && i.prevout.n < 0x1_0000_0000
    && VectorInRange(i.scriptSig) && i.nSequence < 0x1_0000_0000
  }

  ghost predicate OutputInRange(o: TxOut) {
    -0x8000_0000_0000_0000 <= o.nValue < 0x8000_0000_0000_0000 && VectorInRange(o.scriptPubKey)
  }

  /** The ranges of the C++ types, and of sizes. */
  ghost predicate InRange(tx: Tx) {
    && -0x8000_0000 <= tx.nVersion < 0x8000_0000 && tx.nLockTime < 0x1_0000_0000
    && |tx.vin| <= 0x200_0000
    && (forall i {:trigger tx.vin[i]} :: 0 <= i < |tx.vin| ==>
          InputInRange(tx.vin[i]) && StackInRange(tx.vin[i].scriptWitness))
    && |tx.vout| <= 0x200_0000 && (forall i :: 0 <= i < |tx.vout| ==> OutputInRange(tx.vout[i]))
  }

  lemma SignedValid(n: nat, range: nat, v: int)
    requires range > 0 && Unsigned(n).valid(range - 1) && !Unsigned(n).valid(range) && range % 2 == 0
    ensures Signed(n, range).valid(v) <==> -(range / 2) <= v < range / 2
  {
    IsoValid(Unsigned(n), (v: nat) => SignedOf(range, v), (v: int) => UnsignedOf(range, v), v);
  }

  lemma FieldsValid()
    ensures forall v {:trigger UINT32.valid(v)} :: UINT32.valid(v) <==> v < 0x1_0000_0000
    ensures forall v {:trigger INT32.valid(v)} :: INT32.valid(v) <==> -0x8000_0000 <= v < 0x8000_0000
  {
    Pow256();
    forall v ensures INT32.valid(v) <==> -0x8000_0000 <= v < 0x8000_0000 {
      SignedValid(4, 0x1_0000_0000, v);
    }
  }

  lemma AmountValid(v: int)
    ensures INT64.valid(v) <==> -0x8000_0000_0000_0000 <= v < 0x8000_0000_0000_0000
  {
    Pow256();
    SignedValid(8, 0x1_0000_0000_0000_0000, v);
  }

  lemma BytesValid(v: seq<byte>)
    ensures BYTES.valid(v) <==> VectorInRange(v)
  {
    assert AllValid(BYTE, v);
  }

  lemma StackValid(stack: seq<seq<byte>>)
    ensures Vec(BYTES).valid(stack) <==> StackInRange(stack)
  {
    forall i | 0 <= i < |stack| ensures BYTES.valid(stack[i]) <==> VectorInRange(stack[i]) {
      BytesValid(stack[i]);
    }
  }

  lemma InputValid(i: TxIn)
    ensures TXIN.valid(i) <==> InputInRange(i) && i.scriptWitness == []
  {
    IsoValid(Pair(OUTPOINT, Pair(BYTES, UINT32)), ToTxIn, FromTxIn, i);
    PairValid(OUTPOINT, Pair(BYTES, UINT32), i.prevout, (i.scriptSig, i.nSequence));
    PairValid(BYTES, UINT32, i.scriptSig, i.nSequence);
    IsoValid(Pair(HASH, UINT32), ToOutPoint, FromOutPoint, i.prevout);
    PairValid(HASH, UINT32, i.prevout.hash, i.prevout.n);
    BytesValid(i.scriptSig);
    FieldsValid();
  }

  lemma OutputValid(o: TxOut)
    ensures TXOUT.valid(o) <==> OutputInRange(o)
  {
    IsoValid(Pair(INT64, BYTES), ToTxOut, FromTxOut, o);
    PairValid(INT64, BYTES, o.nValue, o.scriptPubKey);
    AmountValid(o.nValue);
    BytesValid(o.scriptPubKey);
  }

  lemma InputsValid(vin: seq<TxIn>)
    ensures Vec(TXIN).valid(Strip(vin)) <==>
      |vin| <= 0x200_0000 && forall i {:trigger vin[i]} :: 0 <= i < |vin| ==> InputInRange(vin[i])
  {
    var s := Strip(vin);
    forall i {:trigger vin[i]} | 0 <= i < |vin| ensures TXIN.valid(s[i]) <==> InputInRange(vin[i]) {
      InputValid(s[i]);
    }
    assert Vec(TXIN).valid(s) <==> |s| <= MAX_SIZE && AllValid(TXIN, s);
  }

  lemma OutputsValid(vout: seq<TxOut>)
    ensures Vec(TXOUT).valid(vout) <==>
      |vout| <= 0x200_0000 && forall i :: 0 <= i < |vout| ==> OutputInRange(vout[i])
  {
    forall i | 0 <= i < |vout| ensures TXOUT.valid(vout[i]) <==> OutputInRange(vout[i]) {
      OutputValid(vout[i]);
    }
  }

  lemma StacksValid(vin: seq<TxIn>)
    ensures AllValid(Vec(BYTES), Stacks(vin)) <==>
      forall i {:trigger vin[i]} :: 0 <= i < |vin| ==> StackInRange(vin[i].scriptWitness)
  {
    var f, s := Vec(BYTES), Stacks(vin);
    forall i {:trigger vin[i]} | 0 <= i < |vin| ensures f.valid(s[i]) <==> StackInRange(vin[i].scriptWitness) {
      StackValid(vin[i].scriptWitness);
    }
  }

  /** A transaction is valid exactly when every field is in its range. */
  lemma ValidIff(tx: Tx)
    ensures Valid(TX, tx) <==> InRange(tx)
  {
    FieldsValid();
    InputsValid(tx.vin);
    OutputsValid(tx.vout);
    StacksValid(tx.vin);
  }

  // ---- Bytes ----

  function Bytes2(v: nat): seq<byte> {
    [v % 0x100, v / 0x100 % 0x100]
  }

  function Bytes4(v: nat): seq<byte> {
    [v % 0x100, v / 0x100 % 0x100, v / 0x1_0000 % 0x100, v / 0x100_0000 % 0x100]
  }

  function Bytes8(v: nat): seq<byte> {
    Bytes4(v) + Bytes4(v / 0x1_0000_0000)
  }

  function SizeBytes(n: nat): seq<byte> {
    if n <= 252 then [n]
    else if n <= 0xFFFF then [253] + Bytes2(n)
    else if n <= 0xFFFF_FFFF then [254] + Bytes4(n)
    else [255] + Bytes8(n)
  }

  function VectorBytes(v: seq<byte>): seq<byte> {
    SizeBytes(|v|) + v
  }

  function InputBytes(i: TxIn): seq<byte> {
    i.prevout.hash + Bytes4(i.prevout.n) + VectorBytes(i.scriptSig) + Bytes4(i.nSequence)
  }

  function OutputBytes(o: TxOut): seq<byte> {
    Bytes8(o.nValue % 0x1_0000_0000_0000_0000) + VectorBytes(o.scriptPubKey)
  }

  function InputsBytes(vin: seq<TxIn>): seq<byte> {
    if vin == [] then [] else InputBytes(vin[0]) + InputsBytes(vin[1..])
  }

  function OutputsBytes(vout: seq<TxOut>): seq<byte> {
    if vout == [] then [] else OutputBytes(vout[0]) + OutputsBytes(vout[1..])
  }

  function ItemsBytes(stack: seq<seq<byte>>): seq<byte> {
    if stack == [] then [] else VectorBytes(stack[0]) + ItemsBytes(stack[1..])
  }

  function WitnessBytes(vin: seq<TxIn>): seq<byte> {
    if vin == [] then [] else
      SizeBytes(|vin[0].scriptWitness|) + ItemsBytes(vin[0].scriptWitness) + WitnessBytes(vin[1..])
  }

  /** Version, marker and flag, inputs, outputs, witnesses and lock time. */
  function TxBytes(tx: Tx, marked: bool): seq<byte> {
    Bytes4(tx.nVersion % 0x1_0000_0000) + (if marked then [0, 1] else [])
    + (SizeBytes(|tx.vin|) + InputsBytes(tx.vin) + (SizeBytes(|tx.vout|) + OutputsBytes(tx.vout))
       + (if marked then WitnessBytes(tx.vin) else []) + Bytes4(tx.nLockTime))
  }

  lemma LeNext(n: nat, v: nat)
    ensures LeBytes(n + 1, v) == [v % 256] + LeBytes(n, v / 256)
  {
  }

  lemma LeNone(v: nat)
    ensures LeBytes(0, v) == []
  {
  }

  lemma Halve(v: nat)
    ensures v / 0x100 / 0x100 == v / 0x1_0000 && v / 0x1_0000 / 0x100 == v / 0x100_0000
    ensures v / 0x100_0000 / 0x100 == v / 0x1_0000_0000
  {
  }

  lemma LeTwo(n: nat, v: nat)
    ensures LeBytes(n + 2, v) == Bytes2(v) + LeBytes(n, v / 0x1_0000)
  {
    LeNext(n + 1, v);
    LeNext(n, v / 0x100);
    Halve(v);
    assert [v % 256] + ([v / 256 % 256] + LeBytes(n, v / 0x1_0000)) == Bytes2(v) + LeBytes(n, v / 0x1_0000);
  }

  lemma LeFourBytes(n: nat, v: nat)
    ensures LeBytes(n + 4, v) == Bytes4(v) + LeBytes(n, v / 0x1_0000_0000)
  {
    LeTwo(n + 2, v);
    LeTwo(n, v / 0x1_0000);
    Halve(v);
    Halve(v / 0x1_0000);
    assert Bytes4(v) == Bytes2(v) + Bytes2(v / 0x1_0000);
    Join(Bytes2(v), Bytes2(v / 0x1_0000), LeBytes(n, v / 0x1_0000 / 0x1_0000));
    assert v / 0x1_0000 / 0x1_0000 == v / 0x1_0000_0000;
  }

  lemma LeAre(v: nat)
    ensures LeBytes(2, v) == Bytes2(v) && LeBytes(4, v) == Bytes4(v) && LeBytes(8, v) == Bytes8(v)
  {
    LeTwo(0, v);
    LeFourBytes(0, v);
    LeFourBytes(4, v);
    LeFourBytes(0, v / 0x1_0000_0000);
    LeNone(v / 0x1_0000);
    LeNone(v / 0x1_0000_0000);
    LeNone(v / 0x1_0000_0000 / 0x1_0000_0000);
    JoinNone(Bytes2(v));
    JoinNone(Bytes4(v));
    JoinNone(Bytes4(v / 0x1_0000_0000));
  }

  lemma SizeIs(n: nat)
    ensures SizeEnc(n) == SizeBytes(n)
  {
    LeAre(n);
  }

  lemma VectorIs(v: seq<byte>)
    ensures BYTES.enc(v) == VectorBytes(v)
  {
    BytesEnc(v);
    SizeIs(|v|);
  }

  lemma InputIs(i: TxIn)
    ensures TXIN.enc(i) == InputBytes(i)
  {
    TxInEnc(i);
    LeAre(i.prevout.n);
    LeAre(i.nSequence);
    VectorIs(i.scriptSig);
  }

  lemma AmountIs(v: int)
    requires -0x8000_0000_0000_0000 <= v < 0x8000_0000_0000_0000
    ensures LeBytes(8, UnsignedOf(0x1_0000_0000_0000_0000, v)) == Bytes8(v % 0x1_0000_0000_0000_0000)
  {
    assert UnsignedOf(0x1_0000_0000_0000_0000, v) == v % 0x1_0000_0000_0000_0000;
    LeAre(v % 0x1_0000_0000_0000_0000);
  }

  lemma VersionIs(v: int)
    requires -0x8000_0000 <= v < 0x8000_0000
    ensures LeBytes(4, UnsignedOf(0x1_0000_0000, v)) == Bytes4(v % 0x1_0000_0000)
  {
    assert UnsignedOf(0x1_0000_0000, v) == v % 0x1_0000_0000;
    LeAre(v % 0x1_0000_0000);
  }

  lemma OutputIs(o: TxOut)
    requires OutputInRange(o)
    ensures TXOUT.enc(o) == OutputBytes(o)
  {
    TxOutEnc(o);
    AmountIs(o.nValue);
    VectorIs(o.scriptPubKey);
  }

  lemma {:induction false} InputsAre(vin: seq<TxIn>)
    ensures ManyEnc(TXIN, vin) == InputsBytes(vin)
  {
    if vin != [] {
      InputIs(vin[0]);
      InputsAre(vin[1..]);
    }
  }

  lemma {:induction false} OutputsAre(vout: seq<TxOut>)
    requires forall i :: 0 <= i < |vout| ==> OutputInRange(vout[i])
    ensures ManyEnc(TXOUT, vout) == OutputsBytes(vout)
  {
    if vout != [] {
      OutputIs(vout[0]);
      OutputsAre(vout[1..]);
    }
  }

  lemma {:induction false} ItemsAre(stack: seq<seq<byte>>)
    ensures ManyEnc(BYTES, stack) == ItemsBytes(stack)
  {
    if stack != [] {
      VectorIs(stack[0]);
      ItemsAre(stack[1..]);
    }
  }

  lemma StackIs(stack: seq<seq<byte>>)
    ensures Vec(BYTES).enc(stack) == SizeBytes(|stack|) + ItemsBytes(stack)
  {
    ItemsAre(stack);
    SizeIs(|stack|);
  }

  lemma {:induction false} WitnessIs(vin: seq<TxIn>)
    ensures ManyEnc(Vec(BYTES), Stacks(vin)) == WitnessBytes(vin)
  {
    if vin != [] {
      StackIs(vin[0].scriptWitness);
      WitnessIs(vin[1..]);
      assert Stacks(vin)[1..] == Stacks(vin[1..]);
    }
  }

  lemma BodyIs(tx: Tx)
    requires InRange(tx)
    ensures VecEnc(TXIN, tx.vin) + VecEnc(TXOUT, tx.vout) ==
      SizeBytes(|tx.vin|) + InputsBytes(tx.vin) + (SizeBytes(|tx.vout|) + OutputsBytes(tx.vout))
  {
    InputsAre(tx.vin);
    OutputsAre(tx.vout);
    SizeIs(|tx.vin|);
    SizeIs(|tx.vout|);
  }

  /** The bytes of both forms. */
  lemma FormsAre(tx: Tx)
    requires InRange(tx)
    ensures Basic(TX, tx) == TxBytes(tx, false) && Extended(TX, tx) == TxBytes(tx, true)
  {
    TxMade();
    MadeParts(TX, tx, TXIN, TXOUT, BYTES);
    BasicParts(TX, tx, TXIN, TXOUT);
    ExtendedParts(TX, tx, TXIN, TXOUT);
    BodyIs(tx);
    VersionIs(tx.nVersion);
    LeAre(tx.nLockTime);
    WitnessIs(tx.vin);
    JoinNone(Bytes4(tx.nVersion % 0x1_0000_0000));
  }

  /** Some input has a witness. */
  ghost predicate Witnessed(tx: Tx) {
    exists i :: 0 <= i < |tx.vin| && tx.vin[i].scriptWitness != []
  }

  /** What is written for a transaction, and hashed with allow false. */
  lemma EncodedIs(allow: bool, tx: Tx)
    requires InRange(tx)
    ensures EncodeTx(TX, allow, tx) == TxBytes(tx, allow && Witnessed(tx))
  {
    FormsAre(tx);
  }

  /** Exactly which bytes are read as which transaction and rest. */
  lemma AcceptsBytes(allow: bool, s: seq<byte>, tx: Tx, rest: seq<byte>)
    ensures DecodeTx(TX, allow, s) == Good(tx, rest) <==>
      && InRange(tx)
      && (|| (allow && s == TxBytes(tx, true) + rest)
          || (!Witnessed(tx) && (allow && tx.vin == [] ==> tx.vout == []) && s == TxBytes(tx, false) + rest))
  {
    AcceptsIff(allow, s, tx, rest);
    ValidIff(tx);
    if InRange(tx) {
      FormsAre(tx);
    }
  }

  // ---- Blocks ----

  ghost function TxsBytes(vtx: seq<Tx>): seq<byte> {
    if vtx == [] then [] else TxBytes(vtx[0], Witnessed(vtx[0])) + TxsBytes(vtx[1..])
  }

  /** Fields in range, and no transaction that would be read as another. */
  ghost predicate BlockInRange(b: Block) {
    && HeaderInRange(b.header) && |b.vtx| <= 0x200_0000
    && forall i {:trigger b.vtx[i]} :: 0 <= i < |b.vtx| ==>
         InRange(b.vtx[i]) && (b.vtx[i].vin != [] || b.vtx[i].vout == [])
  }

  lemma TxRefValid(tx: Tx)
    ensures TXREF.valid(tx) <==> InRange(tx) && (tx.vin != [] || tx.vout == [])
  {
    ValidIff(tx);
  }

  lemma TxRefsValid(vtx: seq<Tx>)
    ensures AllValid(TXREF, vtx) <==>
      forall i {:trigger vtx[i]} :: 0 <= i < |vtx| ==> InRange(vtx[i]) && (vtx[i].vin != [] || vtx[i].vout == [])
  {
    forall i {:trigger vtx[i]} | 0 <= i < |vtx|
      ensures TXREF.valid(vtx[i]) <==> InRange(vtx[i]) && (vtx[i].vin != [] || vtx[i].vout == [])
    {
      TxRefValid(vtx[i]);
    }
  }

  lemma TxVecValid(vtx: seq<Tx>)
    ensures Vec(TXREF).valid(vtx) <==> |vtx| <= 0x200_0000 && AllValid(TXREF, vtx)
  {
  }

  /** The blocks that are read back. */
  lemma BlockValidIff(b: Block)
    ensures BLOCK.valid(b) <==> BlockInRange(b)
  {
    IsoValid(Pair(HEADER, Vec(TXREF)), ToBlock, FromBlock, b);
    PairValid(HEADER, Vec(TXREF), b.header, b.vtx);
    HeaderValid(b.header);
    TxVecValid(b.vtx);
    TxRefsValid(b.vtx);
  }

  lemma TxRefEnc(tx: Tx)
    requires InRange(tx)
    ensures TXREF.enc(tx) == TxBytes(tx, Witnessed(tx))
  {
    EncodedIs(true, tx);
  }

  lemma {:induction false} TxsAre(vtx: seq<Tx>)
    requires forall i {:trigger vtx[i]} :: 0 <= i < |vtx| ==> InRange(vtx[i])
    ensures ManyEnc(TXREF, vtx) == TxsBytes(vtx)
  {
    if vtx != [] {
      TxRefEnc(vtx[0]);
      TxsAre(vtx[1..]);
    }
  }

  /** What is written for a block: the header, and the transactions with their witnesses. */
  lemma BlockIs(b: Block)
    requires BlockInRange(b)
    ensures BLOCK.enc(b) == HEADER.enc(b.header) + (SizeBytes(|b.vtx|) + TxsBytes(b.vtx))
  {
    BlockEnc(b);
    SizeIs(|b.vtx|);
    TxsAre(b.vtx);
  }
}
