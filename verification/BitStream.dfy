/** BitStreamWriter and BitStreamReader: bits packed into bytes, high bit first. */
module BitStreams {
  import opened Wrappers
  import opened BitOps
  import opened DataStreams

  lemma Byte()
    ensures Pow2(8) == 256
  {
    assert Pow2(4) == 16;
  }

  function Min(a: nat, b: nat): nat {
    if a < b then a else b
  }

  class BitStreamWriter {
    const m_ostream: DataStream
    var m_buffer: byte
    var m_offset: nat

    /** The buffer's free low bits are clear. */
    ghost predicate Valid()
      reads this, m_ostream
    {
      && m_ostream.Valid()
      && m_offset < 8
      && Bits(8, m_buffer)[m_offset..] == Zeros(8 - m_offset)
    }

    /** Every bit written so far that is still unread on the output stream. */
    ghost function Written(): seq<bool>
      requires m_ostream.Valid() && m_offset <= 8
      reads this, m_ostream
    {
      Flat(8, m_ostream.Unread()) + Bits(8, m_buffer)[..m_offset]
    }

    constructor (ostream: DataStream)
      requires ostream.Valid()
      ensures Valid() && m_ostream == ostream && m_offset == 0
      ensures Written() == Flat(8, ostream.Unread())
    {
      m_ostream := ostream;
      m_buffer := 0;
      m_offset := 0;
      new;
      BitsZero(8);
    }

    /** Appends the nbits low bits of a 64-bit value. */
    method Write(data: nat, nbits: int) returns (r: Result<()>)
      requires Valid()
      modifies this, m_ostream
      ensures Valid()
      ensures r.Ok? <==> 0 <= nbits <= 64
      ensures Written() == old(Written()) + if r.Ok? then Bits(nbits, data) else []
    {
      if nbits < 0 || nbits > 64 {
        assert old(Written()) + [] == old(Written());
        return Thrown;
      }
      var n: nat := nbits;
      assert old(Written()) + Bits(n, data) == Written() + Bits(n, data);
      while n > 0
        invariant 0 <= n <= 64 && Valid()
        invariant Written() + Bits(n, data) == old(Written()) + Bits(nbits, data)
      {
        n := Put(data, n);
      }
      assert Written() + Bits(0, data) == Written();
      r := Ok(());
    }

    /** The body of Write's loop: fills the buffer, and sends it when it is full. */
    method Put(data: nat, n: nat) returns (n': nat)
      requires 0 < n <= 64 && Valid()
      modifies this, m_ostream
      ensures n' < n && Valid()
      ensures Written() + Bits(n', data) == old(Written()) + Bits(n, data)
    {
      var bits := Min(8 - m_offset, n);
      PutBits(Flat(8, m_ostream.Unread()), m_buffer, m_offset, data, n);
      m_buffer := Or(m_buffer, Chunk(data, n, m_offset));
      m_offset := m_offset + bits;
      n' := n - bits;
      SendFull();
    }

    /** Sends the buffer when it is full. */
    method SendFull()
      requires m_ostream.Valid() && m_offset <= 8
      requires Bits(8, m_buffer)[m_offset..] == Zeros(8 - m_offset)
      modifies this, m_ostream
      ensures Valid() && Written() == old(Written())
    {
      if m_offset == 8 {
        assert Bits(8, m_buffer)[..8] == Bits(8, m_buffer);
        SendBuffer();
      }
    }

    method SendBuffer()
      requires m_ostream.Valid()
      modifies this, m_ostream
      ensures Valid() && m_offset == 0
      ensures Written() == old(Flat(8, m_ostream.Unread()) + Bits(8, m_buffer))
    {
      FlatSnoc(8, m_ostream.Unread(), m_buffer);
      m_ostream.Write([m_buffer]);
      m_buffer := 0;
      m_offset := 0;
      BitsZero(8);
    }

    /** Sends a partly filled byte, its free bits zero. */
    method Flush()
      requires Valid()
      modifies this, m_ostream
      ensures Valid() && m_offset == 0
      ensures Written() == Flat(8, m_ostream.Unread())
      ensures Written() == old(Written()) + Zeros(if old(m_offset) == 0 then 0 else 8 - old(m_offset))
    {
      if m_offset == 0 {
        assert old(Written()) + Zeros(0) == old(Written());
        assert Bits(8, m_buffer)[..0] == [];
        return;
      }
      assert Bits(8, m_buffer) == Bits(8, m_buffer)[..m_offset] + Zeros(8 - m_offset);
      assert Flat(8, m_ostream.Unread()) + Bits(8, m_buffer) == Written() + Zeros(8 - m_offset);
      SendBuffer();
    }
  }

  /** `(data << (64 - nbits)) >> (64 - 8 + m_offset)` on 64-bit words. */
  function Chunk(data: nat, n: nat, offset: nat): nat
    requires n <= 64 && offset <= 8
  {
    Window(64, data, 64 - n, 8 - offset)
  }

  /** The chunk holds the next bits of the value, followed by zeros. */
  lemma ChunkBits(data: nat, n: nat, offset: nat)
    requires 0 < n <= 64 && offset < 8
    ensures Chunk(data, n, offset) < Pow2(8 - offset)
    ensures var bits := Min(8 - offset, n);
            Bits(8 - offset, Chunk(data, n, offset)) == Bits(n, data)[..bits] + Zeros(8 - offset - bits)
  {
    WordWindow(64, data, n, 8 - offset);
  }

  lemma WordWindow(width: nat, data: nat, n: nat, free: nat)
    requires n <= width && free <= width
    ensures Window(width, data, width - n, free) < Pow2(free)
    ensures var bits := Min(free, n);
            Bits(free, Window(width, data, width - n, free)) == Bits(n, data)[..bits] + Zeros(free - bits)
  {
    WindowBits(width, data, width - n, free);
    TakePadded(Bits(n, data), width - n, free);
  }

  lemma OrHead(width: nat, buffer: nat, offset: nat, chunk: nat, head: seq<bool>)
    requires buffer < Pow2(width) && offset + |head| <= width && Bits(width, buffer)[offset..] == Zeros(width - offset)
    requires chunk < Pow2(width - offset)
    requires Bits(width - offset, chunk) == head + Zeros(width - offset - |head|)
    ensures var filled := Or(buffer, chunk);
      && filled < Pow2(width)
      && Bits(width, filled)[..offset + |head|] == Bits(width, buffer)[..offset] + head
      && Bits(width, filled)[offset + |head|..] == Zeros(width - offset - |head|)
  {
    OrFree(width, buffer, offset, chunk);
  }

  /** Or-ing the chunk into the buffer puts the bits after those already there. */
  lemma FillBuffer(buffer: byte, offset: nat, data: nat, n: nat)
    requires 0 < n <= 64 && offset < 8 && Bits(8, buffer)[offset..] == Zeros(8 - offset)
    ensures var bits := Min(8 - offset, n);
      var filled := Or(buffer, Chunk(data, n, offset));
      && filled < 256
      && Bits(8, filled)[..offset + bits] == Bits(8, buffer)[..offset] + Bits(n, data)[..bits]
      && Bits(8, filled)[offset + bits..] == Zeros(8 - offset - bits)
  {
    ChunkBits(data, n, offset);
    Byte();
    OrHead(8, buffer, offset, Chunk(data, n, offset), Bits(n, data)[..Min(8 - offset, n)]);
  }

  lemma PutBits(sent: seq<bool>, buffer: byte, offset: nat, data: nat, n: nat)
    requires 0 < n <= 64 && offset < 8 && Bits(8, buffer)[offset..] == Zeros(8 - offset)
    ensures var bits := Min(8 - offset, n);
      var filled := Or(buffer, Chunk(data, n, offset));
      && filled < 256
      && Bits(8, filled)[offset + bits..] == Zeros(8 - offset - bits)
      && sent + Bits(8, filled)[..offset + bits] + Bits(n - bits, data) ==
         sent + Bits(8, buffer)[..offset] + Bits(n, data)
  {
    var bits := Min(8 - offset, n);
    var was := Bits(8, buffer)[..offset];
    FillBuffer(buffer, offset, data, n);
    SplitBits(n, bits, data);
    Regroup(sent, was, Bits(n, data)[..bits], Bits(n - bits, data));
  }

  lemma Regroup(sent: seq<bool>, was: seq<bool>, head: seq<bool>, tail: seq<bool>)
    ensures sent + (was + head) + tail == sent + was + (head + tail)
  {
  }

  lemma SplitBits(n: nat, k: nat, data: nat)
    requires k <= n
    ensures Bits(n, data) == Bits(n, data)[..k] + Bits(n - k, data)
  {
    ShrBits(k, n - k, data);
  }

  class BitStreamReader {
    const m_istream: DataStream
    var m_buffer: byte
    var m_offset: nat

    ghost predicate Valid()
      reads this, m_istream
    {
      m_istream.Valid() && m_offset <= 8
    }

    /** Every bit still to be read. */
    ghost function Remaining(): seq<bool>
      requires Valid()
      reads this, m_istream
    {
      Bits(8, m_buffer)[m_offset..] + Flat(8, m_istream.Unread())
    }

    constructor (istream: DataStream)
      requires istream.Valid()
      ensures Valid() && m_istream == istream
      ensures Remaining() == Flat(8, istream.Unread())
    {
      m_istream := istream;
      m_buffer := 0;
      m_offset := 8;
      new;
      assert Bits(8, m_buffer)[8..] == [];
    }

    /** Reads nbits bits as a number; throws at the end of the stream. */
    method Read(nbits: int) returns (r: Result<nat>)
      requires Valid()
      modifies this, m_istream
      ensures Valid()
      ensures !(0 <= nbits <= 64) ==> r == Thrown && Remaining() == old(Remaining())
      ensures 0 <= nbits <= 64 && nbits <= |old(Remaining())| ==>
                r == Ok(Number(old(Remaining())[..nbits])) && Remaining() == old(Remaining())[nbits..]
      ensures 0 <= nbits <= 64 && nbits > |old(Remaining())| ==> r == Thrown
    {
      if nbits < 0 || nbits > 64 { return Thrown; }
      var data: nat, n: nat := 0, nbits;
      ghost var all := Remaining();
      while n > 0
        invariant Valid() && 0 <= n <= nbits
        invariant nbits - n <= |all| && Remaining() == all[nbits - n..]
        invariant data < Pow2(nbits - n) && Bits(nbits - n, data) == all[..nbits - n]
      {
        ghost var done := nbits - n;
        var next := Pull(n);
        if next.Thrown? { return Thrown; }
        var (chunk, bits) := next.value;
        JoinBits(all, done, data, bits, chunk);
        data := Or(Shl(data, bits), chunk);
        n := n - bits;
      }
      NumberBits(nbits, data);
      r := Ok(data);
    }

    /** Buffers a byte if none is left. */
    method Refill() returns (r: Result<()>)
      requires Valid()
      modifies this, m_istream
      ensures Valid() && Remaining() == old(Remaining())
      ensures if r.Ok? then m_offset < 8 else Remaining() == []
    {
      if m_offset == 8 {
        assert Bits(8, m_buffer)[8..] == [];
        var ch := m_istream.Read(1);
        if ch.Thrown? { return Thrown; }
        m_buffer := ch.value[0];
        m_offset := 0;
      }
      r := Ok(());
    }

    /** The body of Read's loop: the next bits of the buffered byte, a new one if needed. */
    method Pull(n: nat) returns (r: Result<(nat, nat)>)
      requires 0 < n && Valid()
      modifies this, m_istream
      ensures Valid()
      ensures r.Thrown? <==> old(Remaining()) == []
      ensures r.Ok? ==> var (chunk, bits) := r.value;
                        && 0 < bits <= n && bits <= |old(Remaining())| && chunk < Pow2(bits)
                        && Bits(bits, chunk) == old(Remaining())[..bits]
                        && Remaining() == old(Remaining())[bits..]
    {
      var refilled := Refill();
      if refilled.Thrown? { return Thrown; }
      var bits := Min(8 - m_offset, n);
      PeekBits(m_buffer, m_offset, bits);
      var chunk := Peek(m_buffer, m_offset, bits);
      SliceFront(Bits(8, m_buffer), m_offset, bits, Flat(8, m_istream.Unread()));
      m_offset := m_offset + bits;
      r := Ok((chunk, bits));
    }
  }

  lemma SliceFront(bs: seq<bool>, offset: nat, bits: nat, more: seq<bool>)
    requires offset + bits <= |bs|
    ensures (bs[offset..] + more)[..bits] == bs[offset..offset + bits]
    ensures (bs[offset..] + more)[bits..] == bs[offset + bits..] + more
  {
  }

  /** `static_cast<uint8_t>(m_buffer << m_offset) >> (8 - bits)` */
  function Peek(buffer: byte, offset: nat, bits: nat): nat
    requires bits <= 8
  {
    Window(8, buffer, offset, bits)
  }

  lemma PeekBits(buffer: byte, offset: nat, bits: nat)
    requires offset + bits <= 8
    ensures Peek(buffer, offset, bits) < Pow2(bits)
    ensures Bits(bits, Peek(buffer, offset, bits)) == Bits(8, buffer)[offset..offset + bits]
  {
    BufferWindow(8, buffer, offset, bits);
  }

  lemma BufferWindow(n: nat, buffer: nat, offset: nat, bits: nat)
    requires offset + bits <= n
    ensures Window(n, buffer, offset, bits) < Pow2(bits)
    ensures Bits(bits, Window(n, buffer, offset, bits)) == Bits(n, buffer)[offset..offset + bits]
  {
    WindowBits(n, buffer, offset, bits);
    TakePadded(Bits(n - offset, buffer), offset, bits);
    SplitBits(n, offset, buffer);
    assert Bits(n, buffer)[offset..offset + bits] == Bits(n, buffer)[offset..][..bits];
  }

  /** Shifting the value read so far and or-ing the next chunk in appends its bits. */
  lemma JoinBits(all: seq<bool>, done: nat, data: nat, bits: nat, chunk: nat)
    requires done + bits <= |all|
    requires data < Pow2(done) && Bits(done, data) == all[..done]
    requires chunk < Pow2(bits) && Bits(bits, chunk) == all[done..][..bits]
    ensures var joined := Or(Shl(data, bits), chunk);
      joined < Pow2(done + bits) && Bits(done + bits, joined) == all[..done + bits]
    ensures all[done..][bits..] == all[done + bits..]
  {
    assert all[..done] + all[done..][..bits] == all[..done + bits];
    ShlOrBits(done, bits, data, chunk);
    ShlBound(data, done, bits);
    Pow2Monotone(bits, done + bits);
    OrBound(Shl(data, bits), chunk, done + bits);
  }

  /** A value and the number of its low bits to store. */
  datatype Item = Item(value: nat, width: nat)

  /** The bits a run of writes appends. */
  ghost function WrittenBits(items: seq<Item>): seq<bool> {
    if items == [] then [] else Bits(items[0].width, items[0].value) + WrittenBits(items[1..])
  }

  /** What a run of reads of the given widths returns from a bit string. */
  ghost function ReadBits(bs: seq<bool>, items: seq<Item>): seq<nat>
    requires |bs| >= |WrittenBits(items)|
    decreases |items|
  {
    if items == [] then [] else
      var w := items[0].width;
      [Number(bs[..w])] + ReadBits(bs[w..], items[1..])
  }

  /** Bit streams are inverse at every alignment: reading back the widths that were
      written returns each value modulo 2^width, whatever follows. */
  lemma {:induction false} ReadWrite(items: seq<Item>, padding: seq<bool>)
    ensures |ReadBits(WrittenBits(items) + padding, items)| == |items|
    ensures forall i :: 0 <= i < |items| ==>
              ReadBits(WrittenBits(items) + padding, items)[i] == items[i].value % Pow2(items[i].width)
  {
    if items != [] {
      var w := items[0].width;
      var bs := WrittenBits(items) + padding;
      assert bs[..w] == Bits(w, items[0].value);
      assert bs[w..] == WrittenBits(items[1..]) + padding;
      LowBits(w, items[0].value);
      ReadWrite(items[1..], padding);
    }
  }

  method WriteAll(items: seq<Item>, stream: DataStream) returns (ghost pad: nat)
    requires stream.Valid() && stream.Unread() == []
    requires forall i :: 0 <= i < |items| ==> items[i].width <= 64
    modifies stream
    ensures stream.Valid() && pad < 8 && Flat(8, stream.Unread()) == WrittenBits(items) + Zeros(pad)
  {
    var writer := new BitStreamWriter(stream);
    for i := 0 to |items|
      invariant writer.Valid() && writer.Written() == WrittenBits(items[..i])
    {
      var _ := writer.Write(items[i].value, items[i].width);
      WrittenSnoc(items, i);
    }
    assert items[..|items|] == items;
    pad := if writer.m_offset == 0 then 0 else 8 - writer.m_offset;
    writer.Flush();
  }

  lemma ReadBitsCons(bs: seq<bool>, items: seq<Item>, i: nat)
    requires i < |items| && |bs| >= |WrittenBits(items[i..])|
    ensures WrittenBits(items[i..]) == Bits(items[i].width, items[i].value) + WrittenBits(items[i + 1..])
    ensures ReadBits(bs, items[i..])
         == [Number(bs[..items[i].width])] + ReadBits(bs[items[i].width..], items[i + 1..])
  {
    assert items[i..][1..] == items[i + 1..];
  }

  lemma AppendFirst(done: seq<nat>, v: nat, later: seq<nat>)
    ensures done + ([v] + later) == done + [v] + later
  {
  }

  method ReadAll(items: seq<Item>, stream: DataStream) returns (vals: seq<nat>)
    requires stream.Valid() && |Flat(8, stream.Unread())| >= |WrittenBits(items)|
    requires forall i :: 0 <= i < |items| ==> items[i].width <= 64
    modifies stream
    ensures vals == ReadBits(old(Flat(8, stream.Unread())), items)
  {
    ghost var bs := Flat(8, stream.Unread());
    var reader := new BitStreamReader(stream);
    vals := [];
    for i := 0 to |items|
      invariant reader.Valid() && |reader.Remaining()| >= |WrittenBits(items[i..])|
      invariant vals + ReadBits(reader.Remaining(), items[i..]) == ReadBits(bs, items)
    {
      ghost var left := reader.Remaining();
      ReadBitsCons(left, items, i);
      var v := reader.Read(items[i].width);
      AppendFirst(vals, v.value, ReadBits(left[items[i].width..], items[i + 1..]));
      vals := vals + [v.value];
    }
  }

  /** A run of writes, flushed, then a run of reads of the same widths. */
  method Replay(items: seq<Item>) returns (vals: seq<nat>)
    requires forall i :: 0 <= i < |items| ==> items[i].width <= 64
    ensures |vals| == |items|
    ensures forall i :: 0 <= i < |items| ==> vals[i] == items[i].value % Pow2(items[i].width)
  {
    var stream := new DataStream(0);
    ghost var pad := WriteAll(items, stream);
    ReadWrite(items, Zeros(pad));
    vals := ReadAll(items, stream);
  }

  lemma {:induction false} WrittenSnoc(items: seq<Item>, i: nat)
    requires i < |items|
    ensures WrittenBits(items[..i + 1]) == WrittenBits(items[..i]) + Bits(items[i].width, items[i].value)
    decreases i
  {
    if i > 0 {
      WrittenSnoc(items[1..], i - 1);
      assert items[1..][..i] == items[..i + 1][1..];
      assert items[1..][..i - 1] == items[..i][1..];
    }
  }
}
