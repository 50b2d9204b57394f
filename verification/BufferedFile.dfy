/**
 streams.h: CBufferedFile, a ring buffer over a file that can be rewound by a guaranteed
 number of bytes. It refines direct access to the file's bytes.
 */
module BufferedFiles {
  import opened Wrappers
  import opened Radix

  function Min(a: int, b: int): int {
    if a <= b then a else b
  }

  function Max(a: int, b: int): int {
    if a >= b then a else b
  }

  /** A FILE open for reading. */
  class File {
    const content: seq<byte>
    var pos: nat
    var eof: bool

    constructor (content: seq<byte>)
      ensures this.content == content && pos == 0 && !eof
    {
      this.content := content;
      pos := 0;
      eof := false;
    }

    /** fread: the bytes that are there, at most n; sets the end-of-file flag when short. */
    method Read(n: nat) returns (bytes: seq<byte>)
      requires pos <= |content|
      modifies this
      ensures pos == Min(old(pos) + n, |content|) && bytes == content[old(pos)..pos]
      ensures eof == (old(eof) || old(pos) + n > |content|)
    {
      var end := Min(pos + n, |content|);
      if pos + n > |content| {
        eof := true;
      }
      bytes := content[pos..end];
      pos := end;
    }
  }

  lemma ModStep(a: nat, k: nat, m: nat)
    requires m > 0 && a % m + k < m
    ensures (a + k) % m == a % m + k
  {
    DivModUnique(a + k, m, a / m, a % m + k);
  }

  lemma SameResidue(i: nat, j: nat, m: nat)
    requires m > 0 && i < j && i % m == j % m
    ensures j - i >= m
  {
    var k := j / m - i / m;
    assert j - i == k * m by { Quotients(i, m); Quotients(j, m); }
    MulAtLeast(k, m);
  }

  lemma Quotients(i: nat, m: nat)
    requires m > 0
    ensures i == i / m * m + i % m
  {
  }

  /** The buffer holds the last |buf| bytes read from the file, each at its residue. */
  ghost predicate Ring(buf: seq<byte>, content: seq<byte>, srcPos: nat)
    requires buf != []
  {
    srcPos <= |content| &&
    forall i :: 0 <= i < srcPos && srcPos - |buf| <= i ==> buf[i % |buf|] == content[i]
  }

  /** Writing the next n bytes into the ring, up to its end. */
  lemma RingWrite(buf: seq<byte>, content: seq<byte>, srcPos: nat, n: nat, buf': seq<byte>)
    requires buf != [] && Ring(buf, content, srcPos)
    requires srcPos % |buf| + n <= |buf| && srcPos + n <= |content|
    requires buf' == buf[..srcPos % |buf|] + content[srcPos..srcPos + n] + buf[srcPos % |buf| + n..]
    ensures Ring(buf', content, srcPos + n)
  {
    var m := |buf|;
    var pos := srcPos % m;
    forall i | 0 <= i < srcPos + n && srcPos + n - m <= i ensures buf'[i % m] == content[i] {
      if i >= srcPos {
        ModStep(srcPos, i - srcPos, m);
      } else {
        if pos <= i % m < pos + n {
          ModStep(srcPos, i % m - pos, m);
          SameResidue(i, srcPos + (i % m - pos), m);
        }
      }
    }
  }

  /** A stretch that lies in the ring without wrapping. */
  lemma RingRead(buf: seq<byte>, content: seq<byte>, srcPos: nat, readPos: nat, n: nat)
    requires buf != [] && Ring(buf, content, srcPos)
    requires srcPos - |buf| <= readPos && readPos + n <= srcPos && readPos % |buf| + n <= |buf|
    ensures buf[readPos % |buf|..readPos % |buf| + n] == content[readPos..readPos + n]
  {
    var pos := readPos % |buf|;
    var inRing, inFile := buf[pos..pos + n], content[readPos..readPos + n];
    forall k | 0 <= k < n ensures inRing[k] == inFile[k] {
      ModStep(readPos, k, |buf|);
      assert buf[(readPos + k) % |buf|] == content[readPos + k];
    }
  }

  class BufferedFile {
    const src: File
    const vchBuf: array<byte>
    const nRewind: nat
    var nSrcPos: nat
    var nReadPos: nat
    var nReadLimit: nat
    /** The furthest read position so far. */
    ghost var furthest: nat

    ghost predicate Valid()
      reads this, src, vchBuf
    {
      && nRewind < vchBuf.Length
      && src.pos == nSrcPos && Ring(vchBuf[..], src.content, nSrcPos)
      && (src.eof ==> nSrcPos == |src.content|)
      && nReadPos <= furthest <= nSrcPos && nSrcPos + nRewind <= furthest + vchBuf.Length
    }

    /** The read position is not rewound further than guaranteed. */
    ghost predicate InWindow()
      reads this
    {
      furthest <= nReadPos + nRewind
    }

    /** The bytes of the file from the read position on. */
    ghost function Rest(): seq<byte>
      requires Valid()
      reads this, src, vchBuf
    {
      src.content[nReadPos..]
    }

    /** No limit: std::numeric_limits<uint64_t>::max() */
    static const NO_LIMIT: nat := 0xFFFF_FFFF_FFFF_FFFF

    constructor (file: File, nBufSize: nat, nRewindIn: nat)
      requires file.pos == 0 && !file.eof && nRewindIn < nBufSize
      ensures Valid() && InWindow() && fresh(vchBuf) && src == file && vchBuf.Length == nBufSize
      ensures nRewind == nRewindIn && nReadLimit == NO_LIMIT && nReadPos == 0 && Rest() == file.content
    {
      src := file;
      vchBuf := new byte[nBufSize](_ => 0);
      nRewind := nRewindIn;
      nSrcPos, nReadPos, nReadLimit, furthest := 0, 0, NO_LIMIT, 0;
    }

    /** Reads from the file into the free part of the ring; throws at the end of the file. */
    method Fill() returns (r: Result<()>)
      requires Valid() && nReadPos == nSrcPos
      modifies this`nSrcPos, src, vchBuf
      ensures Valid()
      ensures r.Ok? <==> old(nSrcPos) < |src.content|
      ensures r.Ok? ==> nSrcPos > old(nSrcPos)
      ensures r.Thrown? ==> nSrcPos == old(nSrcPos) && src.eof
    {
      var size := vchBuf.Length;
      var pos := nSrcPos % size;
      var readNow := size - pos;
      var nAvail := size - (nSrcPos - nReadPos) - nRewind;
      if nAvail < readNow {
        readNow := nAvail;
      }
      var bytes := src.Read(readNow);
      if |bytes| == 0 {
        return Thrown;
      }
      ghost var buf := vchBuf[..];
      forall k | 0 <= k < |bytes| {
        vchBuf[pos + k] := bytes[k];
      }
      assert vchBuf[..] == buf[..pos] + bytes + buf[pos + |bytes|..];
      RingWrite(buf, src.content, nSrcPos, |bytes|, vchBuf[..]);
      nSrcPos := nSrcPos + |bytes|;
      r := Ok(());
    }

    method Eof() returns (r: bool)
      requires Valid()
      ensures r == (nReadPos == nSrcPos && src.eof)
    {
      r := nReadPos == nSrcPos && src.eof;
    }

    /** Reads n bytes of the file, or throws: past the limit or larger than the buffer
        allows without moving, at the end of the file after moving there. */
    method Read(n: nat) returns (r: Result<seq<byte>>)
      requires Valid() && InWindow()
      modifies this`nSrcPos, this`nReadPos, this`furthest, src, vchBuf
      ensures Valid() && InWindow()
      ensures nReadLimit < n + old(nReadPos) || vchBuf.Length < n + nRewind ==>
                r == Thrown && nReadPos == old(nReadPos)
      ensures !(nReadLimit < n + old(nReadPos) || vchBuf.Length < n + nRewind) ==>
                r == (if n <= |old(Rest())| then Ok(old(Rest())[..n]) else Thrown) &&
                Rest() == (if n <= |old(Rest())| then old(Rest())[n..] else []) &&
                nReadPos == Min(old(nReadPos) + n, |src.content|) &&
                (r.Thrown? ==> src.eof && nReadPos == nSrcPos)
      ensures furthest == Max(old(furthest), nReadPos)
    {
      if n + nReadPos > nReadLimit {
        return Thrown;
      }
      if n + nRewind > vchBuf.Length {
        return Thrown;
      }
      var nSize := n;
      var pch := [];
      while nSize > 0
        invariant Valid() && InWindow() && 0 <= nSize <= n && nReadPos == old(nReadPos) + n - nSize
        invariant pch == src.content[old(nReadPos)..nReadPos] && furthest == Max(old(furthest), nReadPos)
        decreases nSize
      {
        var bytes :- ReadSome(nSize);
        pch := pch + bytes;
        nSize := nSize - |bytes|;
      }
      assert old(Rest())[..n] == src.content[old(nReadPos)..old(nReadPos) + n];
      r := Ok(pch);
    }

    /** One round of the read loop: at least one byte. */
    method ReadSome(nSize: nat) returns (r: Result<seq<byte>>)
      requires Valid() && InWindow() && nSize > 0
      modifies this`nSrcPos, this`nReadPos, this`furthest, src, vchBuf
      ensures Valid() && InWindow()
      ensures r.Ok? <==> old(nReadPos) < |src.content|
      ensures r.Thrown? ==> nReadPos == nSrcPos == |src.content| && src.eof
      ensures r.Ok? ==> 0 < |r.value| <= nSize && nReadPos == old(nReadPos) + |r.value|
      ensures r.Ok? ==> r.value == src.content[old(nReadPos)..nReadPos]
      ensures old(nReadPos) <= nReadPos && furthest == Max(old(furthest), nReadPos)
    {
      if nReadPos == nSrcPos {
        var _ :- Fill();
      }
      var pos := nReadPos % vchBuf.Length;
      var nNow := nSize;
      if nNow + pos > vchBuf.Length {
        nNow := vchBuf.Length - pos;
      }
      if nNow + nReadPos > nSrcPos {
        nNow := nSrcPos - nReadPos;
      }
      RingRead(vchBuf[..], src.content, nSrcPos, nReadPos, nNow);
      var bytes := vchBuf[pos..pos + nNow];
      nReadPos := nReadPos + nNow;
      furthest := Max(furthest, nReadPos);
      r := Ok(bytes);
    }

    function GetPos(): nat
      reads this
    {
      nReadPos
    }

    /** Moves the read position, not beyond what has been read from the file. */
    method SetPos(nPos: nat) returns (ok: bool)
      requires Valid()
      modifies this`nReadPos, this`furthest
      ensures Valid() && ok == (nPos <= nSrcPos) && nReadPos == Min(nPos, nSrcPos)
      ensures furthest == Max(old(furthest), nReadPos)
    {
      nReadPos := nPos;
      ok := true;
      if nReadPos > nSrcPos {
        nReadPos := nSrcPos;
        ok := false;
      }
      furthest := Max(furthest, nReadPos);
    }

    method SetLimit(nPos: nat) returns (ok: bool)
      requires Valid()
      modifies this`nReadLimit
      ensures Valid() && ok == (nPos >= nReadPos)
      ensures nReadLimit == if ok then nPos else old(nReadLimit)
    {
      if nPos < nReadPos {
        return false;
      }
      nReadLimit := nPos;
      ok := true;
    }

    /** The byte at the read position. */
    method Peek() returns (r: Result<byte>)
      requires Valid() && InWindow()
      modifies this`nSrcPos, src, vchBuf
      ensures Valid()
      ensures r == if nReadPos < |src.content| then Ok(src.content[nReadPos]) else Thrown
      ensures r.Ok? ==> nReadPos < nSrcPos
    {
      if nReadPos == nSrcPos {
        var _ :- Fill();
      }
      RingRead(vchBuf[..], src.content, nSrcPos, nReadPos, 1);
      r := Ok(vchBuf[nReadPos % vchBuf.Length]);
    }

    /** Moves to the first occurrence of ch, or to the end of the file and throws. */
    method FindByte(ch: byte) returns (r: Result<()>)
      requires Valid() && InWindow()
      modifies this`nSrcPos, this`nReadPos, this`furthest, src, vchBuf
      ensures Valid() && InWindow() && old(nReadPos) <= nReadPos
      ensures forall i :: old(nReadPos) <= i < nReadPos ==> src.content[i] != ch
      ensures r.Ok? ==> nReadPos < |src.content| && src.content[nReadPos] == ch
      ensures r.Thrown? ==> nReadPos == |src.content|
    {
      while true
        invariant Valid() && InWindow() && old(nReadPos) <= nReadPos
        invariant forall i :: old(nReadPos) <= i < nReadPos ==> src.content[i] != ch
        decreases |src.content| - nReadPos
      {
        var next :- Peek();
        if next == ch {
          return Ok(());
        }
        nReadPos := nReadPos + 1;
        furthest := Max(furthest, nReadPos);
      }
    }
  }

  // ---- Runs ----

  datatype Op = Take(n: nat) | Back(nPos: nat)

  /** Direct access to the bytes of a file: its position, and how far it has got. */
  datatype Plain = Plain(content: seq<byte>, pos: nat, furthest: nat)

  /** What limits single reads. */
  datatype Limits = Limits(bufSize: nat, rewind: nat, limit: nat)

  ghost function Step(l: Limits, p: Plain, op: Op): (Plain, Result<seq<byte>>)
    requires p.pos <= |p.content|
  {
    match op
    case Back(nPos) => (p.(pos := Min(nPos, |p.content|)), Ok([]))
    case Take(n) =>
      if l.limit < n + p.pos || l.bufSize < n + l.rewind then (p, Thrown)
      else
        var next := Min(p.pos + n, |p.content|);
        (p.(pos := next, furthest := Max(p.furthest, next)),
         if p.pos + n <= |p.content| then Ok(p.content[p.pos..next]) else Thrown)
  }

  ghost function Steps(l: Limits, p: Plain, ops: seq<Op>): seq<Result<seq<byte>>>
    requires p.pos <= |p.content|
    decreases |ops|
  {
    if ops == [] then [] else
      var (q, r) := Step(l, p, ops[0]);
      [r] + Steps(l, q, ops[1..])
  }

  /** Every rewind stays within the guarantee. */
  ghost predicate Guaranteed(l: Limits, p: Plain, ops: seq<Op>)
    requires p.pos <= |p.content|
    decreases |ops|
  {
    ops != [] ==>
      && (ops[0].Back? ==> ops[0].nPos <= p.furthest <= ops[0].nPos + l.rewind)
      && Guaranteed(l, Step(l, p, ops[0]).0, ops[1..])
  }

  ghost predicate Refines(f: BufferedFile, l: Limits, p: Plain)
    reads f, f.src, f.vchBuf
  {
    && f.Valid() && f.InWindow()
    && l == Limits(f.vchBuf.Length, f.nRewind, f.nReadLimit)
    && p == Plain(f.src.content, f.nReadPos, f.furthest)
  }

  method Do(f: BufferedFile, op: Op, ghost l: Limits, ghost p: Plain) returns (r: Result<seq<byte>>)
    requires Refines(f, l, p)
    requires op.Back? ==> op.nPos <= f.furthest <= op.nPos + f.nRewind
    modifies f, f.src, f.vchBuf
    ensures Refines(f, l, Step(l, p, op).0) && r == Step(l, p, op).1
  {
    match op
    case Take(n) =>
      assert n <= |f.Rest()| ==> f.Rest()[..n] == f.src.content[f.nReadPos..f.nReadPos + n];
      r := f.Read(n);
    case Back(nPos) =>
      var _ := f.SetPos(nPos);
      r := Ok([]);
  }

  /** Any run of reads and guaranteed rewinds returns what direct access would. */
  method Run(f: BufferedFile, ops: seq<Op>, ghost l: Limits, ghost p: Plain) returns (rs: seq<Result<seq<byte>>>)
    requires Refines(f, l, p) && Guaranteed(l, p, ops)
    modifies f, f.src, f.vchBuf
    ensures rs == Steps(l, p, ops)
  {
    rs := [];
    ghost var q := p;
    for i := 0 to |ops|
      invariant Refines(f, l, q) && Guaranteed(l, q, ops[i..])
      invariant rs + Steps(l, q, ops[i..]) == Steps(l, p, ops)
    {
      assert ops[i..][1..] == ops[i + 1..];
      var r := Do(f, ops[i], l, q);
      q := Step(l, q, ops[i]).0;
      rs := rs + [r];
    }
  }
}
