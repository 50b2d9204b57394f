/**
 transaction.h: the transaction wire format (BIP 144, section "Serialization"). An empty
 input vector marks the extended form, so the accepted byte strings and the encoder's
 image differ; AcceptsIff says exactly how.
 */
module Transactions {
  import opened Wrappers
  import opened Wire
  import opened Radix

  datatype OutPoint = OutPoint(hash: seq<byte>, n: nat)

  datatype TxIn = TxIn(prevout: OutPoint, scriptSig: seq<byte>, nSequence: nat, scriptWitness: seq<seq<byte>>)

  datatype TxOut = TxOut(nValue: int, scriptPubKey: seq<byte>)

  datatype Tx = Tx(nVersion: int, vin: seq<TxIn>, vout: seq<TxOut>, nLockTime: nat)

  // ---- The formats of the fields ----

  function SignedOf(range: nat, v: nat): int {
    if 2 * v < range then v else v - range
  }

  function UnsignedOf(range: nat, v: int): nat {
    if v >= 0 then v else if v + range >= 0 then v + range else 0
  }

  /** A two's complement integer of n bytes. */
  function Signed(n: nat, range: nat): Format<int> {
    Iso(Unsigned(n), (v: nat) => SignedOf(range, v), (v: int) => UnsignedOf(range, v))
  }

  lemma SignedExact(n: nat, range: nat)
    requires range == Pow(256, n)
    ensures Exact(Signed(n, range))
  {
    UnsignedExact(n);
    IsoExact(Unsigned(n), (v: nat) => SignedOf(range, v), (v: int) => UnsignedOf(range, v));
  }

  function ByteDec(s: seq<byte>): Dec<byte> {
    if s == [] then Bad([]) else Good(s[0], s[1..])
  }

  const BYTE: Format<byte> := Format((b: byte) => [b], s => ByteDec(s), (b: byte) => true)

  lemma ByteExact()
    ensures Exact(BYTE)
  {
    forall b: byte, rest: seq<byte> ensures ByteDec([b] + rest) == Good(b, rest) {
      assert ([b] + rest)[1..] == rest;
    }
  }

  const UINT32: Format<nat> := Unsigned(4)
  const INT32: Format<int> := Signed(4, 0x1_0000_0000)
  const INT64: Format<int> := Signed(8, 0x1_0000_0000_0000_0000)
  const HASH: Format<seq<byte>> := Fixed(32)
  const BYTES: Format<seq<byte>> := Vec(BYTE)

  function ToOutPoint(p: (seq<byte>, nat)): OutPoint {
    OutPoint(p.0, p.1)
  }

  function FromOutPoint(o: OutPoint): (seq<byte>, nat) {
    (o.hash, o.n)
  }

  function ToTxIn(p: (OutPoint, (seq<byte>, nat))): TxIn {
    TxIn(p.0, p.1.0, p.1.1, [])
  }

  function FromTxIn(i: TxIn): (OutPoint, (seq<byte>, nat)) {
    (i.prevout, (i.scriptSig, i.nSequence))
  }

  function ToTxOut(p: (int, seq<byte>)): TxOut {
    TxOut(p.0, p.1)
  }

  function FromTxOut(o: TxOut): (int, seq<byte>) {
    (o.nValue, o.scriptPubKey)
  }

  const OUTPOINT: Format<OutPoint> := Iso(Pair(HASH, UINT32), ToOutPoint, FromOutPoint)
  /** The witness is stored apart from the input. */
  const TXIN: Format<TxIn> := Iso(Pair(OUTPOINT, Pair(BYTES, UINT32)), ToTxIn, FromTxIn)
  const TXOUT: Format<TxOut> := Iso(Pair(INT64, BYTES), ToTxOut, FromTxOut)

  lemma FieldsExact()
    ensures Exact(UINT32) && Exact(INT32) && Exact(INT64) && Exact(HASH) && Exact(BYTES)
  {
    Pow256();
    UnsignedExact(4);
    SignedExact(4, 0x1_0000_0000);
    SignedExact(8, 0x1_0000_0000_0000_0000);
    FixedExact(32);
    ByteExact();
    VecExact(BYTE);
  }

  lemma OutPointExact()
    ensures Exact(OUTPOINT)
  {
    FieldsExact();
    PairExact(HASH, UINT32);
    IsoExact(Pair(HASH, UINT32), ToOutPoint, FromOutPoint);
  }

  lemma TxInExact()
    ensures Exact(TXIN)
  {
    FieldsExact();
    OutPointExact();
    PairExact(BYTES, UINT32);
    PairExact(OUTPOINT, Pair(BYTES, UINT32));
    IsoExact(Pair(OUTPOINT, Pair(BYTES, UINT32)), ToTxIn, FromTxIn);
  }

  lemma TxOutExact()
    ensures Exact(TXOUT)
  {
    FieldsExact();
    PairExact(INT64, BYTES);
    IsoExact(Pair(INT64, BYTES), ToTxOut, FromTxOut);
  }

  // ---- Transactions over any formats of their parts ----

  datatype TxFormats = TxFormats(
    version: Format<int>,
    vin: Format<seq<TxIn>>,
    vout: Format<seq<TxOut>>,
    stack: Format<seq<seq<byte>>>,
    lockTime: Format<nat>)

  const TX: TxFormats := TxFormats(INT32, Vec(TXIN), Vec(TXOUT), Vec(BYTES), UINT32)

  ghost predicate Lawful(K: TxFormats) {
    && Exact(K.version) && Exact(K.vin) && Exact(K.vout) && Exact(K.stack) && Exact(K.lockTime)
    && K.vin.enc([]) == [0] && K.vin.valid([]) && K.vout.enc([]) == [0] && K.vout.valid([])
    && K.stack.enc([]) == [0] && K.stack.valid([])
    && (forall vin {:trigger K.vin.valid(vin)} :: K.vin.valid(vin) ==> Strip(vin) == vin)
  }

  lemma TxLawful()
    ensures Lawful(TX)
  {
    FieldsExact();
    TxInExact();
    TxOutExact();
    VecExact(TXIN);
    VecExact(TXOUT);
    VecExact(BYTES);
    forall vin | TX.vin.valid(vin) ensures Strip(vin) == vin {
      forall i | 0 <= i < |vin| ensures Strip(vin)[i] == vin[i] {
        assert TXIN.valid(vin[i]);
        assert ToTxIn(FromTxIn(vin[i])) == vin[i];
      }
    }
  }

  /** The inputs without their witnesses. */
  function Strip(vin: seq<TxIn>): (r: seq<TxIn>)
    ensures |r| == |vin| && forall i :: 0 <= i < |vin| ==> r[i] == vin[i].(scriptWitness := [])
  {
    if vin == [] then [] else [vin[0].(scriptWitness := [])] + Strip(vin[1..])
  }

  function Stacks(vin: seq<TxIn>): (r: seq<seq<seq<byte>>>)
    ensures |r| == |vin| && forall i :: 0 <= i < |vin| ==> r[i] == vin[i].scriptWitness
  {
    if vin == [] then [] else [vin[0].scriptWitness] + Stacks(vin[1..])
  }

  function WithStacks(vin: seq<TxIn>, stacks: seq<seq<seq<byte>>>): (r: seq<TxIn>)
    requires |vin| == |stacks|
    ensures |r| == |vin| && forall i :: 0 <= i < |vin| ==> r[i] == vin[i].(scriptWitness := stacks[i])
  {
    if vin == [] then [] else [vin[0].(scriptWitness := stacks[0])] + WithStacks(vin[1..], stacks[1..])
  }

  predicate HasWitness(tx: Tx) {
    exists i :: 0 <= i < |tx.vin| && tx.vin[i].scriptWitness != []
  }

  /** Every field is in the range of its type and every vector within MAX_SIZE. */
  predicate Valid(K: TxFormats, tx: Tx) {
    && K.version.valid(tx.nVersion) && K.vin.valid(Strip(tx.vin)) && K.vout.valid(tx.vout)
    && K.lockTime.valid(tx.nLockTime) && AllValid(K.stack, Stacks(tx.vin))
  }

  function Body(K: TxFormats, tx: Tx): seq<byte> {
    K.vin.enc(Strip(tx.vin)) + K.vout.enc(tx.vout)
  }

  function Basic(K: TxFormats, tx: Tx): seq<byte> {
    K.version.enc(tx.nVersion) + Body(K, tx) + K.lockTime.enc(tx.nLockTime)
  }

  /** With marker, flag and witnesses. */
  function Extended(K: TxFormats, tx: Tx): seq<byte> {
    K.version.enc(tx.nVersion) + [0, 1] + Body(K, tx) + ManyEnc(K.stack, Stacks(tx.vin)) + K.lockTime.enc(tx.nLockTime)
  }

  /** SerializeTransaction */
  function EncodeTx(K: TxFormats, allow: bool, tx: Tx): seq<byte> {
    if allow && HasWitness(tx) then Extended(K, tx) else Basic(K, tx)
  }

  /** UnserializeTransaction */
  function DecodeTx(K: TxFormats, allow: bool, s: seq<byte>): Dec<Tx> {
    match K.version.dec(s)
    case Bad(r) => Bad(r)
    case Good(version, r) => DecodeBody(K, allow, version, r)
  }

  /** After the version. */
  function DecodeBody(K: TxFormats, allow: bool, version: int, s: seq<byte>): Dec<Tx> {
    match K.vin.dec(s)
    case Bad(r) => Bad(r)
    case Good(vin, r) =>
      if vin == [] && allow then DecodeMarked(K, version, r) else DecodeOutputs(K, version, vin, r)
  }

  function DecodeOutputs(K: TxFormats, version: int, vin: seq<TxIn>, s: seq<byte>): Dec<Tx> {
    match K.vout.dec(s)
    case Bad(r) => Bad(r)
    case Good(vout, r) => DecodeEnd(K, version, vin, vout, r)
  }

  function DecodeEnd(K: TxFormats, version: int, vin: seq<TxIn>, vout: seq<TxOut>, s: seq<byte>): Dec<Tx> {
    match K.lockTime.dec(s)
    case Bad(r) => Bad(r)
    case Good(lockTime, r) => Good(Tx(version, vin, vout, lockTime), r)
  }

  function DecodeMarked(K: TxFormats, version: int, s: seq<byte>): Dec<Tx> {
    match ByteDec(s)
    case Bad(r) => Bad(r)
    case Good(flags, r) => if flags != 0 then DecodeExtended(K, version, flags, r) else DecodeEnd(K, version, [], [], r)
  }

  function DecodeExtended(K: TxFormats, version: int, flags: byte, s: seq<byte>): Dec<Tx> {
    match K.vin.dec(s)
    case Bad(r) => Bad(r)
    case Good(vin, s1) =>
      match K.vout.dec(s1)
      case Bad(r) => Bad(r)
      case Good(vout, s2) => if flags % 2 == 1 then DecodeWitness(K, version, flags, vin, vout, s2) else Bad(s2)
  }

  function DecodeWitness(K: TxFormats, version: int, flags: byte, vin: seq<TxIn>, vout: seq<TxOut>,
          s: seq<byte>): Dec<Tx>
  {
    match ManyDec(K.stack, |vin|, s)
    case Bad(r) => Bad(r)
    case Good(stacks, r) =>
      if flags != 1 || |stacks| != |vin| then Bad(r)
      else DecodeEnd(K, version, WithStacks(vin, stacks), vout, r)
  }

  // ---- What is accepted ----

  lemma Zip(vin: seq<TxIn>, stacks: seq<seq<seq<byte>>>)
    requires |vin| == |stacks| && Strip(vin) == vin
    ensures Strip(WithStacks(vin, stacks)) == vin && Stacks(WithStacks(vin, stacks)) == stacks
  {
  }

  lemma Unzip(vin: seq<TxIn>)
    ensures WithStacks(Strip(vin), Stacks(vin)) == vin
  {
  }

  /** A value of an exact format is read exactly from its encoding. */
  lemma ReadsIff<T(!new)>(f: Format<T>, s: seq<byte>, x: T, rest: seq<byte>)
    requires Exact(f)
    ensures f.dec(s) == Good(x, rest) <==> f.valid(x) && s == f.enc(x) + rest
  {
    assert f.dec(s).Good? ==> f.valid(f.dec(s).value) && s == f.enc(f.dec(s).value) + f.dec(s).rest;
    assert f.valid(x) ==> f.dec(f.enc(x) + rest) == Good(x, rest);
  }

  /** The end of a transaction whose other parts have been read. */
  lemma EndIff(K: TxFormats, version: int, vin: seq<TxIn>, vout: seq<TxOut>, s: seq<byte>, tx: Tx, rest: seq<byte>)
    requires Lawful(K)
    ensures DecodeEnd(K, version, vin, vout, s) == Good(tx, rest) <==>
      && tx.nVersion == version && tx.vin == vin && tx.vout == vout
      && K.lockTime.valid(tx.nLockTime) && s == K.lockTime.enc(tx.nLockTime) + rest
  {
    ReadsIff(K.lockTime, s, tx.nLockTime, rest);
  }

  ghost predicate OutputsForm(K: TxFormats, version: int, vin: seq<TxIn>, s: seq<byte>, tx: Tx, rest: seq<byte>) {
    && tx.nVersion == version && tx.vin == vin && K.vout.valid(tx.vout) && K.lockTime.valid(tx.nLockTime)
    && s == K.vout.enc(tx.vout) + (K.lockTime.enc(tx.nLockTime) + rest)
  }

  lemma OutputsIff(K: TxFormats, version: int, vin: seq<TxIn>, s: seq<byte>, tx: Tx, rest: seq<byte>)
    requires Lawful(K)
    ensures DecodeOutputs(K, version, vin, s) == Good(tx, rest) <==> OutputsForm(K, version, vin, s, tx, rest)
  {
    var tail := K.lockTime.enc(tx.nLockTime) + rest;
    ReadsIff(K.vout, s, tx.vout, tail);
    var d := K.vout.dec(s);
    if d.Good? {
      EndIff(K, version, vin, d.value, d.rest, tx, rest);
    }
  }

  ghost predicate WitnessForm(K: TxFormats, version: int, vin: seq<TxIn>, vout: seq<TxOut>, s: seq<byte>, tx: Tx,
          rest: seq<byte>)
  {
    && tx.nVersion == version && Strip(tx.vin) == vin && tx.vout == vout && K.lockTime.valid(tx.nLockTime)
    && AllValid(K.stack, Stacks(tx.vin))
    && s == ManyEnc(K.stack, Stacks(tx.vin)) + (K.lockTime.enc(tx.nLockTime) + rest)
  }

  lemma WitnessIff(K: TxFormats, version: int, flags: byte, vin: seq<TxIn>, vout: seq<TxOut>, s: seq<byte>, tx: Tx,
          rest: seq<byte>)
    requires Lawful(K) && Strip(vin) == vin
    ensures DecodeWitness(K, version, flags, vin, vout, s) == Good(tx, rest) <==>
      flags == 1 && WitnessForm(K, version, vin, vout, s, tx, rest)
  {
    var d := ManyDec(K.stack, |vin|, s);
    ManyCanonical(K.stack, |vin|, s);
    if d.Good? {
      Zip(vin, d.value);
      EndIff(K, version, WithStacks(vin, d.value), vout, d.rest, tx, rest);
    }
    if WitnessForm(K, version, vin, vout, s, tx, rest) {
      Unzip(tx.vin);
      ManyRoundTrip(K.stack, Stacks(tx.vin), K.lockTime.enc(tx.nLockTime) + rest);
    }
  }

  ghost predicate ExtendedForm(K: TxFormats, version: int, s: seq<byte>, tx: Tx, rest: seq<byte>) {
    && tx.nVersion == version && Valid(K, tx)
    && s == K.vin.enc(Strip(tx.vin)) + (K.vout.enc(tx.vout)
          + (ManyEnc(K.stack, Stacks(tx.vin)) + (K.lockTime.enc(tx.nLockTime) + rest)))
  }

  lemma ExtendedSound(K: TxFormats, version: int, flags: byte, s: seq<byte>, tx: Tx, rest: seq<byte>)
    requires Lawful(K) && K.version.valid(version) && DecodeExtended(K, version, flags, s) == Good(tx, rest)
    ensures flags == 1 && ExtendedForm(K, version, s, tx, rest)
  {
    var d := K.vin.dec(s);
    var e := K.vout.dec(d.rest);
    ReadsIff(K.vin, s, d.value, d.rest);
    ReadsIff(K.vout, d.rest, e.value, e.rest);
    WitnessIff(K, version, flags, d.value, e.value, e.rest, tx, rest);
  }

  lemma ExtendedComplete(K: TxFormats, version: int, s: seq<byte>, tx: Tx, rest: seq<byte>)
    requires Lawful(K) && ExtendedForm(K, version, s, tx, rest)
    ensures DecodeExtended(K, version, 1, s) == Good(tx, rest)
  {
    var s2 := ManyEnc(K.stack, Stacks(tx.vin)) + (K.lockTime.enc(tx.nLockTime) + rest);
    var s1 := K.vout.enc(tx.vout) + s2;
    ReadsIff(K.vin, s, Strip(tx.vin), s1);
    ReadsIff(K.vout, s1, tx.vout, s2);
    WitnessIff(K, version, 1, Strip(tx.vin), tx.vout, s2, tx, rest);
  }

  ghost predicate MarkedForm(K: TxFormats, version: int, s: seq<byte>, tx: Tx, rest: seq<byte>) {
    || (s != [] && s[0] == 1 && ExtendedForm(K, version, s[1..], tx, rest))
    || (s != [] && s[0] == 0 && tx.vin == [] && tx.vout == [] && tx.nVersion == version
        && K.lockTime.valid(tx.nLockTime) && s[1..] == K.lockTime.enc(tx.nLockTime) + rest)
  }

  lemma MarkedIff(K: TxFormats, version: int, s: seq<byte>, tx: Tx, rest: seq<byte>)
    requires Lawful(K) && K.version.valid(version)
    ensures DecodeMarked(K, version, s) == Good(tx, rest) <==> MarkedForm(K, version, s, tx, rest)
  {
    if s != [] {
      var r := s[1..];
      EndIff(K, version, [], [], r, tx, rest);
      if s[0] != 0 && DecodeExtended(K, version, s[0], r) == Good(tx, rest) {
        ExtendedSound(K, version, s[0], r, tx, rest);
      }
      if ExtendedForm(K, version, r, tx, rest) {
        ExtendedComplete(K, version, r, tx, rest);
      }
    }
  }

  lemma BasicIs(K: TxFormats, tx: Tx, rest: seq<byte>)
    ensures Basic(K, tx) + rest == K.version.enc(tx.nVersion)
      + (K.vin.enc(Strip(tx.vin)) + (K.vout.enc(tx.vout) + (K.lockTime.enc(tx.nLockTime) + rest)))
  {
  }

  lemma ExtendedIs(K: TxFormats, tx: Tx, rest: seq<byte>)
    ensures Extended(K, tx) + rest == K.version.enc(tx.nVersion) + ([0] + ([1]
      + (K.vin.enc(Strip(tx.vin)) + (K.vout.enc(tx.vout)
      + (ManyEnc(K.stack, Stacks(tx.vin)) + (K.lockTime.enc(tx.nLockTime) + rest))))))
  {
  }

  /** The byte strings the decoder accepts as tx followed by rest: the extended form of any
      transaction, and the basic form of one without witnesses whose outputs would not be
      taken for flags. */
  ghost predicate Accepted(K: TxFormats, allow: bool, s: seq<byte>, tx: Tx, rest: seq<byte>) {
    && Valid(K, tx)
    && (|| (!HasWitness(tx) && (allow && tx.vin == [] ==> tx.vout == []) && s == Basic(K, tx) + rest)
        || (allow && s == Extended(K, tx) + rest))
  }

  lemma NoWitness(tx: Tx)
    ensures HasWitness(tx) <==> Strip(tx.vin) != tx.vin
  {
    if !HasWitness(tx) {
      forall i | 0 <= i < |tx.vin| ensures Strip(tx.vin)[i] == tx.vin[i] {
      }
    }
  }

  lemma EmptyStacks(K: TxFormats, tx: Tx)
    requires Lawful(K) && !HasWitness(tx)
    ensures AllValid(K.stack, Stacks(tx.vin))
  {
  }

  lemma DecodeSound(K: TxFormats, allow: bool, s: seq<byte>, tx: Tx, rest: seq<byte>)
    requires Lawful(K) && DecodeTx(K, allow, s) == Good(tx, rest)
    ensures Accepted(K, allow, s, tx, rest)
  {
    var v := K.version.dec(s);
    var i := K.vin.dec(v.rest);
    ReadsIff(K.version, s, v.value, v.rest);
    ReadsIff(K.vin, v.rest, i.value, i.rest);
    NoWitness(tx);
    BasicIs(K, tx, rest);
    if i.value == [] && allow {
      MarkedIff(K, v.value, i.rest, tx, rest);
      ExtendedIs(K, tx, rest);
      assert i.rest == [i.rest[0]] + i.rest[1..];
    } else {
      OutputsIff(K, v.value, i.value, i.rest, tx, rest);
      EmptyStacks(K, tx);
    }
  }

  lemma DecodeComplete(K: TxFormats, allow: bool, s: seq<byte>, tx: Tx, rest: seq<byte>)
    requires Lawful(K) && Accepted(K, allow, s, tx, rest)
    ensures DecodeTx(K, allow, s) == Good(tx, rest)
  {
    NoWitness(tx);
    var tail := K.lockTime.enc(tx.nLockTime) + rest;
    if s == Basic(K, tx) + rest && !HasWitness(tx) && (allow && tx.vin == [] ==> tx.vout == []) {
      BasicIs(K, tx, rest);
      var s2 := K.vout.enc(tx.vout) + tail;
      var s1 := K.vin.enc(tx.vin) + s2;
      ReadsIff(K.version, s, tx.nVersion, s1);
      ReadsIff(K.vin, s1, tx.vin, s2);
      assert tx.vout == [] ==> s2[0] == 0 && s2[1..] == tail;
      MarkedIff(K, tx.nVersion, s2, tx, rest);
      OutputsIff(K, tx.nVersion, tx.vin, s2, tx, rest);
    } else {
      ExtendedIs(K, tx, rest);
      var s3 := K.vin.enc(Strip(tx.vin)) + (K.vout.enc(tx.vout) + (ManyEnc(K.stack, Stacks(tx.vin)) + tail));
      var s2 := [1] + s3;
      var s1 := [0] + s2;
      ReadsIff(K.version, s, tx.nVersion, s1);
      ReadsIff(K.vin, s1, [], s2);
      assert s2[1..] == s3;
      MarkedIff(K, tx.nVersion, s2, tx, rest);
    }
  }

  // ---- The transaction format of the program ----

  /** Exactly which bytes are read as which transaction. */
  lemma AcceptsIff(allow: bool, s: seq<byte>, tx: Tx, rest: seq<byte>)
    ensures DecodeTx(TX, allow, s) == Good(tx, rest) <==> Accepted(TX, allow, s, tx, rest)
  {
    TxLawful();
    if DecodeTx(TX, allow, s) == Good(tx, rest) {
      DecodeSound(TX, allow, s, tx, rest);
    }
    if Accepted(TX, allow, s, tx, rest) {
      DecodeComplete(TX, allow, s, tx, rest);
    }
  }

  lemma ExtendedLonger(K: TxFormats, tx: Tx, rest: seq<byte>)
    ensures |Extended(K, tx)| >= |Basic(K, tx)| + 2 && Extended(K, tx) + rest != Basic(K, tx) + rest
  {
  }

  /** What is encoded with witnesses is read back, whatever follows, exactly for valid
      transactions that have an input or no output. */
  lemma RoundTripIff(tx: Tx, rest: seq<byte>)
    ensures DecodeTx(TX, true, EncodeTx(TX, true, tx) + rest) == Good(tx, rest) <==>
      Valid(TX, tx) && (tx.vin != [] || tx.vout == [])
  {
    AcceptsIff(true, EncodeTx(TX, true, tx) + rest, tx, rest);
    ExtendedLonger(TX, tx, rest);
  }

  /** A transaction with an output and no input. */
  const NO_INPUT := Tx(2, [], [TxOut(0, [])], 0)

  lemma EmptyOutValid(out: TxOut)
    requires out == TxOut(0, [])
    ensures TXOUT.valid(out)
  {
    Pow256();
    IsoValid(Pair(INT64, BYTES), ToTxOut, FromTxOut, out);
    PairValid(INT64, BYTES, 0, []);
  }

  lemma NoInputValid(tx: Tx)
    requires tx.nVersion == 2 && tx.vin == [] && |tx.vout| == 1 && TXOUT.valid(tx.vout[0]) && tx.nLockTime == 0
    ensures Valid(TX, tx)
  {
    Pow256();
    assert Vec(TXIN).valid(Strip(tx.vin)) && Vec(TXOUT).valid(tx.vout);
  }

  /** Its fields are in range, and it is not read back: its encoding begins like one with
      witnesses. */
  lemma NoInput(rest: seq<byte>)
    ensures Valid(TX, NO_INPUT)
    ensures DecodeTx(TX, true, EncodeTx(TX, true, NO_INPUT) + rest) != Good(NO_INPUT, rest)
  {
    EmptyOutValid(NO_INPUT.vout[0]);
    NoInputValid(NO_INPUT);
    RoundTripIff(NO_INPUT, rest);
  }

  function Stripped(tx: Tx): Tx {
    tx.(vin := Strip(tx.vin))
  }

  lemma StrippedBasic(K: TxFormats, tx: Tx)
    ensures Basic(K, Stripped(tx)) == Basic(K, tx) && !HasWitness(Stripped(tx))
  {
    assert Strip(Strip(tx.vin)) == Strip(tx.vin);
  }

  /** Without witnesses every transaction in range is read back, its witnesses stripped. */
  lemma NoWitnessRoundTrip(tx: Tx, rest: seq<byte>)
    ensures DecodeTx(TX, false, EncodeTx(TX, false, tx) + rest) == Good(Stripped(tx), rest) <==> Valid(TX, Stripped(tx))
  {
    StrippedBasic(TX, tx);
    AcceptsIff(false, EncodeTx(TX, false, tx) + rest, Stripped(tx), rest);
  }

  /** So the bytes that are hashed into a transaction's id determine all but its witnesses. */
  lemma NoWitnessInjective(t: Tx, u: Tx)
    requires Valid(TX, Stripped(t)) && Valid(TX, Stripped(u)) && EncodeTx(TX, false, t) == EncodeTx(TX, false, u)
    ensures Stripped(t) == Stripped(u)
  {
    NoWitnessRoundTrip(t, []);
    NoWitnessRoundTrip(u, []);
  }

  function ZeroBytes(n: nat): (bs: seq<byte>)
    ensures |bs| == n
  {
    if n == 0 then [] else [0] + ZeroBytes(n - 1)
  }

  lemma {:induction false} EmptyStacksEnc(K: TxFormats, vin: seq<TxIn>)
    requires K.stack.enc([]) == [0] && forall i :: 0 <= i < |vin| ==> vin[i].scriptWitness == []
    ensures ManyEnc(K.stack, Stacks(vin)) == ZeroBytes(|vin|)
  {
    if vin != [] {
      EmptyStacksEnc(K, vin[1..]);
      assert Stacks(vin)[1..] == Stacks(vin[1..]);
    }
  }

  /** Encoding what was read gives back the bytes consumed, except that an extended form
      whose witness stacks are all empty loses the marker, the flag and those stacks. */
  lemma ReencodeIs(allow: bool, s: seq<byte>, tx: Tx, rest: seq<byte>)
    requires DecodeTx(TX, allow, s) == Good(tx, rest)
    ensures
      || s == EncodeTx(TX, allow, tx) + rest
      || (&& allow && !HasWitness(tx)
          && EncodeTx(TX, allow, tx) == TX.version.enc(tx.nVersion) + Body(TX, tx) + TX.lockTime.enc(tx.nLockTime)
          && s == TX.version.enc(tx.nVersion) + [0, 1] + Body(TX, tx) + ZeroBytes(|tx.vin|)
                  + TX.lockTime.enc(tx.nLockTime) + rest)
  {
    AcceptsIff(allow, s, tx, rest);
    if !HasWitness(tx) {
      assert forall i :: 0 <= i < |tx.vin| ==> tx.vin[i].scriptWitness == [];
      TxLawful();
      EmptyStacksEnc(TX, tx.vin);
    }
  }

  // ---- The decoder never reads backwards ----

  lemma EndShrinks(K: TxFormats, version: int, vin: seq<TxIn>, vout: seq<TxOut>, s: seq<byte>)
    requires Lawful(K)
    ensures |DecodeEnd(K, version, vin, vout, s).rest| <= |s|
  {
    assert |K.lockTime.dec(s).rest| <= |s|;
  }

  lemma ExtendedShrinks(K: TxFormats, version: int, flags: byte, s: seq<byte>)
    requires Lawful(K)
    ensures |DecodeExtended(K, version, flags, s).rest| <= |s|
  {
    var i := K.vin.dec(s);
    var o := K.vout.dec(i.rest);
    assert |i.rest| <= |s| && |o.rest| <= |i.rest|;
    if i.Good? && o.Good? {
      ManyShrinks(K.stack, |i.value|, o.rest);
      var d := ManyDec(K.stack, |i.value|, o.rest);
      if d.Good? && |d.value| == |i.value| {
        EndShrinks(K, version, WithStacks(i.value, d.value), o.value, d.rest);
      }
    }
  }

  lemma DecodeShrinks(K: TxFormats, allow: bool, s: seq<byte>)
    requires Lawful(K)
    ensures |DecodeTx(K, allow, s).rest| <= |s|
  {
    var v := K.version.dec(s);
    var i := K.vin.dec(v.rest);
    assert |v.rest| <= |s| && |i.rest| <= |v.rest|;
    if v.Good? && i.Good? {
      if i.value == [] && allow {
        if i.rest != [] {
          ExtendedShrinks(K, v.value, i.rest[0], i.rest[1..]);
          EndShrinks(K, v.value, [], [], i.rest[1..]);
        }
      } else {
        var o := K.vout.dec(i.rest);
        assert |o.rest| <= |i.rest|;
        if o.Good? {
          EndShrinks(K, v.value, i.value, o.value, o.rest);
        }
      }
    }
  }
}
