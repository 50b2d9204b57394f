/**
 key_io.cpp: addresses. Witness destinations are spelled in bech32 with the program
 regrouped from 8 to 5 bits; decoding and regrouping back without padding gives exactly
 the version and the program.
 */
module KeyIo {
  import opened Wrappers
  import opened BitOps
  import opened ConvertBits
  import opened PolyMods
  import opened CStrings
  import Base58
  import Bech32

  /** CTxDestination. Only the first `length` of the 40 program bytes count. */
  datatype Destination =
    | NoDestination
    | KeyId(id: seq<byte>)
    | ScriptId(id: seq<byte>)
    | WitnessV0ScriptHash(hash: seq<byte>)
    | WitnessV0KeyHash(hash: seq<byte>)
    | WitnessUnknown(version: nat, length: nat, program: seq<byte>)
  {
    /** The sizes of the C++ types. */
    ghost predicate Valid() {
      match this
      case NoDestination => true
      case KeyId(id) => |id| == 20
      case ScriptId(id) => |id| == 20
      case WitnessV0ScriptHash(hash) => |hash| == 32
      case WitnessV0KeyHash(hash) => |hash| == 20
      case WitnessUnknown(_, _, program) => |program| == 40
    }
  }

  lemma GroupsOf(program: seq<byte>)
    ensures Groups(8, program) && FiveBit(Padded(8, 5, program))
  {
    assert Pow2(8) == 256 && Pow2(5) == 32;
  }

  /** The values a witness address spells. */
  function SegwitData(version: byte, program: seq<byte>): (data: seq<byte>)
    ensures data != [] && data[0] == version && data[1..] == Padded(8, 5, program)
    ensures version < 32 ==> FiveBit(data)
  {
    GroupsOf(program);
    [version] + Padded(8, 5, program)
  }

  /** What the address of a destination has to carry. */
  datatype Form = Nothing | Segwit(version: byte, program: seq<byte>) | Legacy(payload: seq<byte>)

  ghost function FormOf(d: Destination): (f: Form)
    requires d.Valid()
    ensures f.Segwit? ==> f.version <= 16 && |f.program| <= 40
  {
    match d
    case NoDestination => Nothing
    case KeyId(id) => Legacy([0] + id)
    case ScriptId(id) => Legacy([5] + id)
    case WitnessV0ScriptHash(hash) => Segwit(0, hash)
    case WitnessV0KeyHash(hash) => Segwit(0, hash)
    case WitnessUnknown(version, length, program) =>
      if 1 <= version <= 16 && 2 <= length <= 40 then Segwit(version, program[..length]) else Nothing
  }

  ghost predicate IsAddress(hash: seq<byte> -> Base58.Check, f: Form, s: string) {
    match f
    case Nothing => s == ""
    case Segwit(version, program) => Bech32.IsEncoding(Bech32.BECH32, "bc", SegwitData(version, program), s)
    case Legacy(payload) => s == Base58.CheckEncoded(Base58.BASE58, hash, payload)
  }

  /** s is the address of the destination. */
  ghost predicate AddressOf(hash: seq<byte> -> Base58.Check, d: Destination, s: string) {
    d.Valid() && IsAddress(hash, FormOf(d), s)
  }

  method EncodeWitness(version: byte, program: seq<byte>) returns (s: string)
    requires version < 32
    ensures Bech32.IsEncoding(Bech32.BECH32, "bc", SegwitData(version, program), s)
  {
    GroupsOf(program);
    var _, out := Convert(8, 5, true, program);
    var data: seq<byte> := [version] + out;
    assert data == SegwitData(version, program);
    s := Bech32.Encode("bc", data);
  }

  method EncodeDestination(hash: seq<byte> -> Base58.Check, d: Destination) returns (s: string)
    requires d.Valid()
    ensures AddressOf(hash, d, s)
  {
    match d
    case NoDestination =>
      s := "";
    case KeyId(id) =>
      s := Base58.EncodeBase58Check(Base58.BASE58, hash, [0] + id);
    case ScriptId(id) =>
      s := Base58.EncodeBase58Check(Base58.BASE58, hash, [5] + id);
    case WitnessV0KeyHash(h) =>
      s := EncodeWitness(0, h);
    case WitnessV0ScriptHash(h) =>
      s := EncodeWitness(0, h);
    case WitnessUnknown(version, length, program) =>
      if version < 1 || version > 16 || length < 2 || length > 40 {
        return "";
      }
      s := EncodeWitness(version, program[..length]);
  }

  lemma PaddedLength(program: seq<byte>)
    requires |program| <= 40
    ensures |Padded(8, 5, program)| <= 64
  {
    PaddedFlat(8, 5, program);
    FlatLength(8, program);
    FlatLength(5, Padded(8, 5, program));
  }

  lemma BcEncodable(data: seq<byte>)
    requires |data| <= 65
    ensures Bech32.Encodable("bc", data)
  {
  }

  lemma EncodingLength(K: Bech32.Codec, hrp: string, data: seq<byte>, s: string)
    requires Bech32.IsEncoding(K, hrp, data, s)
    ensures |s| == |hrp| + 1 + |data| + 6
  {
  }

  lemma DataDecodes(data: seq<byte>, s: string)
    requires |data| <= 65 && Bech32.IsEncoding(Bech32.BECH32, "bc", data, s)
    ensures |s| < 90 && Bech32.Decoded(Bech32.BECH32, s) == ("bc", data)
  {
    EncodingLength(Bech32.BECH32, "bc", data, s);
    BcEncodable(data);
    Bech32.RoundTrip("bc", data, s);
  }

  /** A witness address decodes to its version and, regrouped without padding, its program. */
  lemma WitnessDecodes(version: byte, program: seq<byte>, s: string)
    requires version < 32 && |program| <= 40
    requires Bech32.IsEncoding(Bech32.BECH32, "bc", SegwitData(version, program), s)
    ensures |s| < 90 && Bech32.Decoded(Bech32.BECH32, s).0 == "bc"
    ensures var data := Bech32.Decoded(Bech32.BECH32, s).1;
      data != [] && data[0] == version && RestOk(5, 8, data[1..]) && Unpadded(5, 8, data[1..]) == program
  {
    PaddedLength(program);
    DataDecodes(SegwitData(version, program), s);
    ProgramBack(program);
  }

  lemma ProgramBack(program: seq<byte>)
    ensures RestOk(5, 8, Padded(8, 5, program)) && Unpadded(5, 8, Padded(8, 5, program)) == program
  {
    GroupsOf(program);
    UnpadPad(8, 5, program);
  }

  /** Equal witness addresses name the same version and program. */
  lemma WitnessInjective(hash: seq<byte> -> Base58.Check, d: Destination, e: Destination, s: string)
    requires d.Valid() && FormOf(d).Segwit? && IsAddress(hash, FormOf(d), s)
    requires e.Valid() && FormOf(e).Segwit? && IsAddress(hash, FormOf(e), s)
    ensures FormOf(d) == FormOf(e)
  {
    WitnessDecodes(FormOf(d).version, FormOf(d).program, s);
    WitnessDecodes(FormOf(e).version, FormOf(e).program, s);
  }

  lemma Unspaced(al: Base58.Alphabet, s: string)
    ensures Base58.Spaced(al, s, s)
  {
    var none := "";
    assert All(al.space, none) && s == none + s + none;
  }

  /** A base58 address decodes to its version byte and hash. */
  lemma LegacyDecodes(hash: seq<byte> -> Base58.Check, d: Destination, s: string)
    requires d.Valid() && FormOf(d).Legacy? && IsAddress(hash, FormOf(d), s)
    ensures Base58.Lawful(Base58.BASE58)
    ensures Base58.CheckDecoded(Base58.BASE58, hash, s) == Some(FormOf(d).payload)
  {
    Base58.Base58Lawful();
    CheckDecodes(Base58.BASE58, hash, FormOf(d).payload);
  }

  lemma CheckDecodes(al: Base58.Alphabet, hash: seq<byte> -> Base58.Check, b: seq<byte>)
    requires Base58.Lawful(al)
    ensures Base58.CheckDecoded(al, hash, Base58.CheckEncoded(al, hash, b)) == Some(b)
  {
    var s := Base58.CheckEncoded(al, hash, b);
    Unspaced(al, s);
    Base58.CheckDecodesIff(al, hash, s, b);
  }
}
