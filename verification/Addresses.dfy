/**
 Which address a destination gets, said by the characters it begins with and by what it
 decodes to; and that an address names one destination.
 */
module Addresses {
  import opened Wrappers
  import opened Radix
  import opened BitOps
  import opened ConvertBits
  import opened KeyIo
  import Base58
  import Bech32

  // ---- The first character of a base58 address ----

  /** The leading digit of a number between two multiples of a power of the base. */
  lemma LeadingDigit(base: nat, v: nat, n: nat, d: nat)
    requires base > 1 && 0 < d < base && d * Pow(base, n) <= v < (d + 1) * Pow(base, n)
    ensures |Minimal(base, v)| == n + 1 && Minimal(base, v)[0] == d
  {
    var ds := Minimal(base, v);
    var p := Pow(base, n);
    PowPositive(base, n);
    MulLe(p, 1, d);
    MinimalValue(base, v);
    assert v > 0;
    var q := Pow(base, |ds| - 1);
    assert ds[0] * q <= v < (ds[0] + 1) * q by { Leading(base, ds); }
    MulLe(q, 1, ds[0]);
    if |ds| - 1 < n {
      ShortBound(base, v, ds[0], |ds| - 1, n);
    }
    if |ds| - 1 > n {
      LongBound(base, v, d, ds[0], n, |ds| - 1);
    }
    SameMultiple(v, p, d, ds[0]);
  }

  /** A number with fewer digits is smaller ... */
  lemma ShortBound(base: nat, v: nat, first: nat, k: nat, n: nat)
    requires base > 1 && first < base && k < n && v < (first + 1) * Pow(base, k)
    ensures v < Pow(base, n)
  {
    MulLe(Pow(base, k), first + 1, base);
    assert Pow(base, k + 1) == base * Pow(base, k);
    PowMonotone(base, k + 1, n);
  }

  /** ... and one with more is larger. */
  lemma LongBound(base: nat, v: nat, d: nat, first: nat, n: nat, k: nat)
    requires base > 1 && d < base && first > 0 && n < k && first * Pow(base, k) <= v
    ensures (d + 1) * Pow(base, n) <= v
  {
    MulLe(Pow(base, k), 1, first);
    PowMonotone(base, n + 1, k);
    assert Pow(base, n + 1) == base * Pow(base, n);
    MulLe(Pow(base, n), d + 1, base);
  }

  lemma SameMultiple(v: nat, p: nat, d: nat, e: nat)
    requires d * p <= v < (d + 1) * p && e * p <= v < (e + 1) * p
    ensures d == e
  {
    if d < e {
      MulLe(p, d + 1, e);
    } else if e < d {
      MulLe(p, e + 1, d);
    }
  }

  lemma Leading(base: nat, ds: seq<nat>)
    requires base > 1 && Digits(base, ds) && ds != []
    ensures ds[0] * Pow(base, |ds| - 1) <= Value(base, ds) < (ds[0] + 1) * Pow(base, |ds| - 1)
  {
    ValueCons(base, ds[0], ds[1..]);
    ValueBound(base, ds[1..]);
    assert [ds[0]] + ds[1..] == ds;
    assert (ds[0] + 1) * Pow(base, |ds| - 1) == ds[0] * Pow(base, |ds| - 1) + Pow(base, |ds| - 1);
  }

  lemma Pow58()
    ensures Pow(58, 33) == 15599970876632771988160814054146447252125923204784443097088
  {
    assert Pow(58, 4) == 11316496 && Pow(58, 1) == 58;
    Base58.PowIs(58, 4, 11316496, 4, 11316496);
    Base58.PowIs(58, 8, 128063081718016, 8, 128063081718016);
    Base58.PowIs(58, 16, 16400152899115243850138976256, 16, 16400152899115243850138976256);
    Base58.PowIs(58, 32, 268965015114358137726910587140455987105619365599731777536, 1, 58);
  }

  lemma Pow256()
    ensures Pow(256, 24) == 6277101735386680763835789423207666416102355444464034512896
  {
    assert Pow(256, 4) == 4294967296;
    Base58.PowIs(256, 4, 4294967296, 4, 4294967296);
    Base58.PowIs(256, 8, 18446744073709551616, 8, 18446744073709551616);
    Base58.PowIs(256, 16, 340282366920938463463374607431768211456, 8, 18446744073709551616);
  }

  /** 25 bytes of which the first is five are spelled with a leading digit two. */
  lemma FiveFirst(b: seq<byte>)
    requires |b| == 25 && b[0] == 5
    ensures Minimal(58, Value(256, b)) != [] && Minimal(58, Value(256, b))[0] == 2
  {
    Leading(256, b);
    Pow256();
    Pow58();
    LeadingDigit(58, Value(256, b), 33, 2);
  }

  lemma SpelledThree(al: Base58.Alphabet, b: seq<byte>)
    requires |b| == 25 && b[0] == 5 && al.sym(2) == '3'
    ensures Base58.Encoded(al, b) != "" && Base58.Encoded(al, b)[0] == '3'
  {
    FiveFirst(b);
    assert Base58.Leading<byte>(0, b) == 0;
    assert Base58.Repeat<char>('1', 0) == [];
  }

  lemma SpelledOne(al: Base58.Alphabet, b: seq<byte>)
    requires b != [] && b[0] == 0
    ensures Base58.Encoded(al, b) != "" && Base58.Encoded(al, b)[0] == '1'
  {
    assert Base58.Leading<byte>(0, b) > 0;
  }

  // ---- What each destination gets ----

  /** The address of a key hash begins with 1 and decodes to a zero byte and the hash. */
  lemma KeyAddress(hash: seq<byte> -> Base58.Check, id: seq<byte>, s: string)
    requires |id| == 20 && AddressOf(hash, KeyId(id), s)
    ensures s != "" && s[0] == '1'
    ensures Base58.Lawful(Base58.BASE58) && Base58.CheckDecoded(Base58.BASE58, hash, s) == Some([0] + id)
  {
    LegacyDecodes(hash, KeyId(id), s);
    SpelledOne(Base58.BASE58, [0] + id + hash([0] + id));
  }

  /** The address of a script hash begins with 3 and decodes to a five and the hash. */
  lemma ScriptAddress(hash: seq<byte> -> Base58.Check, id: seq<byte>, s: string)
    requires |id| == 20 && AddressOf(hash, ScriptId(id), s)
    ensures s != "" && s[0] == '3'
    ensures Base58.Lawful(Base58.BASE58) && Base58.CheckDecoded(Base58.BASE58, hash, s) == Some([5] + id)
  {
    LegacyDecodes(hash, ScriptId(id), s);
    assert Base58.BASE58.sym(2) == '3';
    SpelledThree(Base58.BASE58, [5] + id + hash([5] + id));
  }

  /** s is a witness address: within the length of an address it spells the prefix bc, the
      version and the bits of the program with less than five zeros behind. */
  ghost predicate NamesProgram(s: string, version: nat, program: seq<byte>) {
    && |s| < 90 && "bc1" <= s && Bech32.Decoded(Bech32.BECH32, s).0 == "bc"
    && var data := Bech32.Decoded(Bech32.BECH32, s).1;
       data != [] && data[0] == version && SpellsBits(data[1..], program)
  }

  ghost predicate SpellsBits(values: seq<byte>, program: seq<byte>) {
    exists k: nat :: k < 5 && Flat(5, values) == Flat(8, program) + Zeros(k)
  }

  lemma WitnessNames(version: byte, program: seq<byte>, s: string)
    requires version < 32 && |program| <= 40
    requires Bech32.IsEncoding(Bech32.BECH32, "bc", SegwitData(version, program), s)
    ensures NamesProgram(s, version, program)
  {
    PaddedLength(program);
    DataDecodes(SegwitData(version, program), s);
    PaddedFlat(8, 5, program);
    assert SpellsBits(Padded(8, 5, program), program);
    StartsBc(Bech32.BECH32, SegwitData(version, program), s);
  }

  lemma StartsBc(K: Bech32.Codec, data: seq<byte>, s: string)
    requires Bech32.IsEncoding(K, "bc", data, s)
    ensures "bc1" <= s
  {
  }

  /** The version-zero addresses name version zero and the hash. */
  lemma WitnessZeroAddress(hash: seq<byte> -> Base58.Check, h: seq<byte>, s: string)
    ensures |h| == 20 && AddressOf(hash, WitnessV0KeyHash(h), s) ==> NamesProgram(s, 0, h)
    ensures |h| == 32 && AddressOf(hash, WitnessV0ScriptHash(h), s) ==> NamesProgram(s, 0, h)
  {
    if Bech32.IsEncoding(Bech32.BECH32, "bc", SegwitData(0, h), s) && |h| <= 40 {
      WitnessNames(0, h, s);
    }
  }

  /** Other versions are named from 1 to 16 with programs of 2 to 40 bytes, and refused with
      an empty address otherwise. */
  lemma WitnessOtherAddress(hash: seq<byte> -> Base58.Check, version: nat, length: nat, program: seq<byte>, s: string)
    requires AddressOf(hash, WitnessUnknown(version, length, program), s) && |program| == 40
    ensures if 1 <= version <= 16 && 2 <= length <= 40 then NamesProgram(s, version, program[..length]) else s == ""
  {
    if 1 <= version <= 16 && 2 <= length <= 40 {
      WitnessNames(version, program[..length], s);
    }
  }

  // ---- An address names one destination ----

  lemma {:induction false} SpellsOne(values: seq<byte>, program: seq<byte>, other: seq<byte>)
    requires SpellsBits(values, program) && SpellsBits(values, other)
    ensures program == other
  {
    var k: nat :| k < 5 && Flat(5, values) == Flat(8, program) + Zeros(k);
    var j: nat :| j < 5 && Flat(5, values) == Flat(8, other) + Zeros(j);
    GroupsOf(program);
    GroupsOf(other);
    CutFlat(8, program, Zeros(k));
    CutFlat(8, other, Zeros(j));
  }

  lemma NamesOne(s: string, v: nat, program: seq<byte>, w: nat, other: seq<byte>)
    requires NamesProgram(s, v, program) && NamesProgram(s, w, other)
    ensures v == w && program == other
  {
    SpellsOne(Bech32.Decoded(Bech32.BECH32, s).1[1..], program, other);
  }

  predicate IsWitness(d: Destination) {
    d.WitnessV0ScriptHash? || d.WitnessV0KeyHash? || d.WitnessUnknown?
  }

  function VersionOf(d: Destination): nat {
    if d.WitnessUnknown? then d.version else 0
  }

  /** The bytes that count. */
  function ProgramOf(d: Destination): seq<byte>
    requires IsWitness(d)
  {
    match d
    case WitnessV0ScriptHash(h) => h
    case WitnessV0KeyHash(h) => h
    case WitnessUnknown(_, length, program) => if length <= |program| then program[..length] else program
  }

  /** Equal but for program bytes that do not count. */
  ghost predicate Same(d: Destination, e: Destination) {
    if d.WitnessUnknown? && e.WitnessUnknown?
    then d.version == e.version && d.length == e.length && ProgramOf(d) == ProgramOf(e)
    else d == e
  }

  lemma StartsWith(s: string, first: string)
    requires first <= s && first != ""
    ensures s != "" && s[0] == first[0]
  {
  }

  lemma NamesFirst(s: string, v: nat, program: seq<byte>)
    requires NamesProgram(s, v, program)
    ensures s != "" && s[0] == 'b'
  {
    StartsWith(s, "bc1");
  }

  lemma WitnessKind(hash: seq<byte> -> Base58.Check, d: Destination, s: string)
    requires AddressOf(hash, d, s) && s != "" && IsWitness(d)
    ensures NamesProgram(s, VersionOf(d), ProgramOf(d))
    ensures d.WitnessUnknown? ==> d.version >= 1 && d.length == |ProgramOf(d)|
  {
    match d
    case WitnessV0ScriptHash(h) => WitnessZeroAddress(hash, h, s);
    case WitnessV0KeyHash(h) => WitnessZeroAddress(hash, h, s);
    case WitnessUnknown(version, length, program) => WitnessOtherAddress(hash, version, length, program, s);
  }

  lemma NoAddress(hash: seq<byte> -> Base58.Check, s: string)
    requires AddressOf(hash, NoDestination, s)
    ensures s == ""
  {
  }

  /** The first character tells keys, scripts and witness programs apart. */
  lemma AddressKind(hash: seq<byte> -> Base58.Check, d: Destination, s: string)
    requires AddressOf(hash, d, s) && s != ""
    ensures match d
      case NoDestination => false
      case KeyId(_) => s[0] == '1'
      case ScriptId(_) => s[0] == '3'
      case _ => s[0] == 'b'
  {
    if IsWitness(d) {
      WitnessKind(hash, d, s);
      NamesFirst(s, VersionOf(d), ProgramOf(d));
    } else if d.KeyId? {
      KeyAddress(hash, d.id, s);
    } else if d.ScriptId? {
      ScriptAddress(hash, d.id, s);
    } else {
      NoAddress(hash, s);
    }
  }

  lemma ByteThen(b: byte, x: seq<byte>, y: seq<byte>)
    requires [b] + x == [b] + y
    ensures x == y
  {
    assert ([b] + x)[1..] == x && ([b] + y)[1..] == y;
  }

  lemma LegacySame(hash: seq<byte> -> Base58.Check, d: Destination, e: Destination, s: string)
    requires AddressOf(hash, d, s) && AddressOf(hash, e, s)
    requires (d.KeyId? && e.KeyId?) || (d.ScriptId? && e.ScriptId?)
    ensures d == e
  {
    if d.KeyId? {
      KeyAddress(hash, d.id, s);
      KeyAddress(hash, e.id, s);
      ByteThen(0, d.id, e.id);
    } else {
      ScriptAddress(hash, d.id, s);
      ScriptAddress(hash, e.id, s);
      ByteThen(5, d.id, e.id);
    }
  }

  /** Equal addresses, but the empty one, name the same destination. */
  lemma AddressFixes(hash: seq<byte> -> Base58.Check, d: Destination, e: Destination, s: string)
    requires AddressOf(hash, d, s) && AddressOf(hash, e, s) && s != ""
    ensures Same(d, e)
  {
    AddressKind(hash, d, s);
    AddressKind(hash, e, s);
    if IsWitness(d) {
      WitnessKind(hash, d, s);
      WitnessKind(hash, e, s);
      NamesOne(s, VersionOf(d), ProgramOf(d), VersionOf(e), ProgramOf(e));
    } else {
      LegacySame(hash, d, e, s);
    }
  }

  /** The empty address is that of no destination and of the programs refused. */
  lemma EmptyAddress(hash: seq<byte> -> Base58.Check, d: Destination, s: string)
    requires AddressOf(hash, d, s)
    ensures s == "" <==>
      d.NoDestination? || (d.WitnessUnknown? && !(1 <= d.version <= 16 && 2 <= d.length <= 40))
  {
    if s != "" {
      AddressKind(hash, d, s);
    }
    if d.WitnessUnknown? {
      WitnessOtherAddress(hash, d.version, d.length, d.program, s);
      if 1 <= d.version <= 16 && 2 <= d.length <= 40 {
        NamesFirst(s, d.version, d.program[..d.length]);
      }
    } else if IsWitness(d) {
      WitnessZeroAddress(hash, ProgramOf(d), s);
      NamesFirst(s, 0, ProgramOf(d));
    } else if d.KeyId? {
      KeyAddress(hash, d.id, s);
    } else if d.ScriptId? {
      ScriptAddress(hash, d.id, s);
    } else {
      NoAddress(hash, s);
    }
  }
}
