/** CDataStream: a byte queue written at its end and read from its front. */
module DataStreams {
  import opened Wrappers

  class DataStream {
    var vch: seq<byte>
    var nReadPos: nat
    const nVersion: nat

    ghost predicate Valid()
      reads this
    {
      nReadPos <= |vch|
    }

    /** What is still to be read. */
    ghost function Unread(): seq<byte>
      requires Valid()
      reads this
    {
      vch[nReadPos..]
    }

    constructor (version: nat)
      ensures Valid() && Unread() == [] && nVersion == version
    {
      vch := [];
      nReadPos := 0;
      nVersion := version;
    }

    method Write(bytes: seq<byte>)
      requires Valid()
      modifies this
      ensures Valid() && Unread() == old(Unread()) + bytes
    {
      vch := vch + bytes;
    }

    /** The read position moves on by n over the same bytes; at their end all are dropped. */
    twostate predicate Advanced(n: nat)
      reads this
    {
      if n > 0 && old(nReadPos) + n == |old(vch)| then vch == [] && nReadPos == 0
      else vch == old(vch) && nReadPos == old(nReadPos) + n
    }

    /** Reads nSize bytes from the front, or throws and reads nothing. */
    method Read(nSize: nat) returns (r: Result<seq<byte>>)
      requires Valid()
      modifies this
      ensures Valid()
      ensures nSize <= |old(Unread())| ==> r == Ok(old(Unread())[..nSize]) && Unread() == old(Unread())[nSize..]
      ensures nSize > |old(Unread())| ==> r == Thrown && Unread() == old(Unread())
      ensures Advanced(if r.Ok? then nSize else 0)
    {
      if nSize == 0 { return Ok([]); }
      var next := nReadPos + nSize;
      if next > |vch| { return Thrown; }
      r := Ok(vch[nReadPos..next]);
      assert vch[nReadPos..next] == Unread()[..nSize] && vch[next..] == Unread()[nSize..];
      if next == |vch| {
        nReadPos := 0;
        vch := [];
        return;
      }
      nReadPos := next;
    }

    /** Skips nSize bytes; a negative count or one past the end throws. */
    method Ignore(nSize: int) returns (r: Result<()>)
      requires Valid()
      modifies this
      ensures Valid()
      ensures r.Ok? <==> 0 <= nSize <= |old(Unread())|
      ensures Unread() == if r.Ok? then old(Unread())[nSize..] else old(Unread())
    {
      if nSize < 0 { return Thrown; }
      var next := nReadPos + nSize;
      if next >= |vch| {
        if next > |vch| { return Thrown; }
        nReadPos := 0;
        vch := [];
        return Ok(());
      }
      nReadPos := next;
      return Ok(());
    }

    /** Moves back over n bytes if the buffer still holds them. */
    method Rewind(n: nat) returns (ok: bool)
      requires Valid()
      modifies this`nReadPos
      ensures Valid() && ok == (n <= old(nReadPos)) && nReadPos == old(nReadPos) - if ok then n else 0
      ensures ok ==> Unread() == old(vch)[old(nReadPos) - n..old(nReadPos)] + old(Unread())
      ensures !ok ==> Unread() == old(Unread())
    {
      if n > nReadPos { return false; }
      nReadPos := nReadPos - n;
      assert vch[nReadPos..] == vch[nReadPos..nReadPos + n] + vch[nReadPos + n..];
      ok := true;
    }

    /** Reads n bytes and un-reads them again, unless they were the last. */
    method ReadBack(n: nat) returns (r: Result<seq<byte>>, ok: bool)
      requires Valid()
      modifies this
      ensures Valid() && r == if n <= |old(Unread())| then Ok(old(Unread())[..n]) else Thrown
      ensures ok <==> n < |old(Unread())| || n == 0
      ensures Unread() == if n == |old(Unread())| then [] else old(Unread())
    {
      r := Read(n);
      ok := false;
      if r.Ok? {
        ok := Rewind(n);
      }
    }

    method Clear()
      modifies this
      ensures Valid() && Unread() == []
    {
      vch := [];
      nReadPos := 0;
    }
  }
}
