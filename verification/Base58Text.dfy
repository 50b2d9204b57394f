/** Base58 written out: the alphabet, and the text of bytes by positional sums. */
module Base58Texts {
  import opened Wrappers
  import opened Radix
  import opened Base58

  const ALPHABET: string := "123456789" + ("ABCDEFGH" + "JKLMN" + "PQRSTUVWXYZ") + ("abcdefghijk" + "mnopqrstuvwxyz")

  lemma Piece1(v: nat)
    requires v < 9
    ensures "123456789"[v] == '1' + v as char
  {
  }

  lemma Piece2(v: nat)
    requires v < 8
    ensures "ABCDEFGH"[v] == 'A' + v as char
  {
  }

  lemma Piece3(v: nat)
    requires v < 5
    ensures "JKLMN"[v] == 'J' + v as char
  {
  }

  lemma Piece4(v: nat)
    requires v < 11
    ensures "PQRSTUVWXYZ"[v] == 'P' + v as char
  {
  }

  lemma Piece5(v: nat)
    requires v < 11
    ensures "abcdefghijk"[v] == 'a' + v as char
  {
  }

  lemma Piece6(v: nat)
    requires v < 14
    ensures "mnopqrstuvwxyz"[v] == 'm' + v as char
  {
  }

  lemma AlphabetIs(v: nat)
    requires v < 58
    ensures |ALPHABET| == 58 && Sym(v) == ALPHABET[v]
  {
    if v < 9 { Piece1(v); }
    else if v < 17 { Piece2(v - 9); }
    else if v < 22 { Piece3(v - 17); }
    else if v < 33 { Piece4(v - 22); }
    else if v < 44 { Piece5(v - 33); }
    else { Piece6(v - 44); }
  }

  /** The number of digits, most significant first. */
  function Sum(base: nat, ds: seq<nat>): nat {
    if ds == [] then 0 else ds[0] * Pow(base, |ds| - 1) + Sum(base, ds[1..])
  }

  lemma {:induction false} SumIs(base: nat, ds: seq<nat>)
    ensures Sum(base, ds) == Value(base, ds)
  {
    if ds != [] {
      SumIs(base, ds[1..]);
      ValueCons(base, ds[0], ds[1..]);
      assert [ds[0]] + ds[1..] == ds;
    }
  }

  /** The characters of digits below 58. */
  ghost predicate Spells(s: string, ds: seq<nat>) {
    |s| == |ds| && forall i :: 0 <= i < |ds| ==> ds[i] < |ALPHABET| && s[i] == ALPHABET[ds[i]]
  }

  /** As many zeros at the front of one as of the other. */
  ghost predicate SameZeros(ds: seq<nat>, b: seq<nat>) {
    exists z: nat :: ZerosUpTo(z, ds) && ZerosUpTo(z, b)
  }

  ghost predicate ZerosUpTo(z: nat, ds: seq<nat>) {
    z <= |ds| && (forall i :: 0 <= i < z ==> ds[i] == 0) && (z < |ds| ==> ds[z] != 0)
  }

  lemma ZerosFront(z: nat, b: seq<byte>)
    requires ZerosUpTo(z, b)
    ensures Base58.Leading<byte>(0, b) == z && Value(256, b[z..]) == Value(256, b)
  {
    var zeros := Repeat<byte>(0, z);
    assert b == zeros + b[z..];
    LeadingOf<byte>(0, z, b[z..]);
    assert AllZero(b[..z]);
    ZeroPrefix(256, b, z);
  }

  lemma LeadingZeros(b: seq<byte>)
    ensures ZerosUpTo(Base58.Leading<byte>(0, b), b)
  {
    LeadingStops<byte>(0, b);
    LeadingAll<byte>(0, b);
    var z := Base58.Leading<byte>(0, b);
    forall i | 0 <= i < z ensures b[i] == 0 {
      assert b[i] == b[..z][i];
    }
  }

  /** Zeros, then digits without leading zero. */
  lemma DigitsSplit(base: nat, z: nat, ds: seq<nat>)
    requires base > 1 && Digits(base, ds) && ZerosUpTo(z, ds)
    ensures ds[z..] == Minimal(base, Value(base, ds))
  {
    assert AllZero(ds[..z]);
    ZeroPrefix(base, ds, z);
    MinimalUnique(base, ds[z..]);
  }

  lemma DigitsJoin(base: nat, z: nat, v: nat) returns (ds: seq<nat>)
    requires base > 1
    ensures Digits(base, ds) && ZerosUpTo(z, ds) && Value(base, ds) == v && ds[z..] == Minimal(base, v)
  {
    var m := Minimal(base, v);
    MinimalValue(base, v);
    ds := seq(z, _ => 0) + m;
    assert ds[z..] == m && AllZero(ds[..z]);
    ZeroPrefix(base, ds, z);
  }

  /** What an encoding spells, over any alphabet. */
  lemma EncodedSpells(al: Alphabet, b: seq<byte>, z: nat, ds: seq<nat>, s: string)
    requires ZerosUpTo(z, b) && ZerosUpTo(z, ds) && ds[z..] == Minimal(58, Value(256, b)) && al.sym(0) == '1'
    ensures s == Encoded(al, b) <==> |s| == |ds| && forall i :: 0 <= i < |ds| ==> s[i] == al.sym(ds[i])
  {
    ZerosFront(z, b);
    var e := Encoded(al, b);
    assert |e| == |ds|;
    forall i | 0 <= i < |ds| ensures e[i] == al.sym(ds[i]) {
      if i >= z {
        assert ds[z..][i - z] == ds[i];
      }
    }
  }

  lemma SpellsIs(s: string, ds: seq<nat>)
    requires Digits(58, ds)
    ensures Spells(s, ds) <==> |s| == |ds| && forall i :: 0 <= i < |ds| ==> s[i] == Sym(ds[i])
  {
    forall i | 0 <= i < |ds| ensures ds[i] < |ALPHABET| && ALPHABET[ds[i]] == Sym(ds[i]) {
      AlphabetIs(ds[i]);
    }
  }

  /** The encoding of bytes is the one text over the alphabet with as many leading ones as
      there are leading zero bytes and with the same number. */
  lemma EncodedIff(b: seq<byte>, s: string)
    ensures s == Encoded(BASE58, b) <==> exists ds :: Spells(s, ds) && SameZeros(ds, b) && Sum(58, ds) == Sum(256, b)
  {
    AlphabetIs(0);
    SumIs(256, b);
    if s == Encoded(BASE58, b) {
      var z := Base58.Leading<byte>(0, b);
      LeadingZeros(b);
      var ds := DigitsJoin(58, z, Value(256, b));
      EncodedSpells(BASE58, b, z, ds, s);
      SpellsIs(s, ds);
      SumIs(58, ds);
    }
    if ds :| Spells(s, ds) && SameZeros(ds, b) && Sum(58, ds) == Sum(256, b) {
      var z: nat :| ZerosUpTo(z, ds) && ZerosUpTo(z, b);
      SumIs(58, ds);
      DigitsSplit(58, z, ds);
      EncodedSpells(BASE58, b, z, ds, s);
      SpellsIs(s, ds);
    }
  }

  /** With a check sum: the number is that of the bytes, times 2^32, plus that of the check. */
  lemma CheckEncodedIff(hash: seq<byte> -> Check, b: seq<byte>, s: string)
    ensures s == CheckEncoded(BASE58, hash, b) <==>
      exists ds :: Spells(s, ds) && SameZeros(ds, b + hash(b)) &&
                   Sum(58, ds) == Sum(256, b) * 0x1_0000_0000 + Sum(256, hash(b))
  {
    EncodedIff(b + hash(b), s);
    SumIs(256, b + hash(b));
    SumIs(256, b);
    SumIs(256, hash(b));
    ValueAppend(256, b, hash(b));
    assert Pow(256, 4) == 0x1_0000_0000;
  }
}
