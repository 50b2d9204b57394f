/** block.h: block headers and blocks on the wire. */
module Blocks {
  import opened Wrappers
  import opened Wire
  import opened Transactions

  datatype Header = Header(
    nVersion: int, hashPrevBlock: seq<byte>, hashMerkleRoot: seq<byte>, nTime: nat, nBits: nat, nNonce: nat)

  datatype Block = Block(header: Header, vtx: seq<Tx>)

  type HeaderTuple = (int, (seq<byte>, (seq<byte>, (nat, (nat, nat)))))

  function ToHeader(p: HeaderTuple): Header {
    Header(p.0, p.1.0, p.1.1.0, p.1.1.1.0, p.1.1.1.1.0, p.1.1.1.1.1)
  }

  function FromHeader(h: Header): HeaderTuple {
    (h.nVersion, (h.hashPrevBlock, (h.hashMerkleRoot, (h.nTime, (h.nBits, h.nNonce)))))
  }

  function ToBlock(p: (Header, seq<Tx>)): Block {
    Block(p.0, p.1)
  }

  function FromBlock(b: Block): (Header, seq<Tx>) {
    (b.header, b.vtx)
  }

  const TIMES: Format<(nat, (nat, nat))> := Pair(UINT32, Pair(UINT32, UINT32))
  const HEADER_TUPLE: Format<HeaderTuple> := Pair(INT32, Pair(HASH, Pair(HASH, TIMES)))
  const HEADER: Format<Header> := Iso(HEADER_TUPLE, ToHeader, FromHeader)

  /** A transaction in a block, with its witnesses; valid when it is read back. */
  const TXREF: Format<Tx> := Format(
    (tx: Tx) => EncodeTx(TX, true, tx),
    s => DecodeTx(TX, true, s),
    (tx: Tx) => Valid(TX, tx) && (tx.vin != [] || tx.vout == []))

  const BLOCK: Format<Block> := Iso(Pair(HEADER, Vec(TXREF)), ToBlock, FromBlock)

  lemma HeaderExact()
    ensures Exact(HEADER)
  {
    FieldsExact();
    PairExact(UINT32, UINT32);
    PairExact(UINT32, Pair(UINT32, UINT32));
    PairExact(HASH, TIMES);
    PairExact(HASH, Pair(HASH, TIMES));
    PairExact(INT32, Pair(HASH, Pair(HASH, TIMES)));
    IsoExact(HEADER_TUPLE, ToHeader, FromHeader);
  }

  /** The 80 bytes of a header. */
  lemma HeaderWide()
    ensures Wide(HEADER, 80)
  {
    PairWide(UINT32, UINT32, 4, 4);
    PairWide(UINT32, Pair(UINT32, UINT32), 4, 8);
    PairWide(HASH, TIMES, 32, 12);
    PairWide(HASH, Pair(HASH, TIMES), 32, 44);
    IsoWide(Unsigned(4), (v: nat) => SignedOf(0x1_0000_0000, v), (v: int) => UnsignedOf(0x1_0000_0000, v), 4);
    PairWide(INT32, Pair(HASH, Pair(HASH, TIMES)), 4, 76);
    IsoWide(HEADER_TUPLE, ToHeader, FromHeader, 80);
  }

  lemma TxRefReadable()
    ensures Readable(TXREF)
  {
    forall tx, rest | TXREF.valid(tx) ensures TXREF.dec(TXREF.enc(tx) + rest) == Good(tx, rest) {
      RoundTripIff(tx, rest);
    }
    TxLawful();
    forall s ensures |TXREF.dec(s).rest| <= |s| {
      DecodeShrinks(TX, true, s);
    }
  }

  /** A block whose transactions are read back is read back. */
  lemma BlockReadable()
    ensures Readable(BLOCK)
  {
    HeaderExact();
    TxRefReadable();
    VecRoundTrips(TXREF);
    VecShrinks(TXREF);
    PairReadable(HEADER, Vec(TXREF));
    IsoReadable(Pair(HEADER, Vec(TXREF)), ToBlock, FromBlock);
  }

  lemma BlockEnc(b: Block)
    ensures BLOCK.enc(b) == HEADER.enc(b.header) + VecEnc(TXREF, b.vtx)
  {
    IsoEnc(Pair(HEADER, Vec(TXREF)), ToBlock, FromBlock, b);
    PairEncIs(HEADER, Vec(TXREF), b.header, b.vtx);
  }

  /** A header and the size of the transactions are the least a block takes. */
  lemma ShortBlock(s: seq<byte>)
    requires |s| <= 80
    ensures BLOCK.dec(s) == Bad([])
  {
    HeaderWide();
    IsoDecIs(Pair(HEADER, Vec(TXREF)), ToBlock, FromBlock, s);
    PairDecIs(HEADER, Vec(TXREF), s);
    if |s| == 80 {
      assert HEADER.dec(s).rest == [];
      assert Vec(TXREF).dec([]) == Bad([]);
    }
  }
}
