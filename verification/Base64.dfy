/**
 Base64 and Base32 of strencodings.cpp. The two codecs have one shape, so it is written
 once over a Scheme; the theorems are instantiated for both alphabets.
 */
module Base64 {
  import opened Wrappers
  import opened BitOps
  import opened ConvertBits
  import opened CStrings

  /** `enc` is the alphabet, `rev` the decoding table (-1: not in the alphabet) and `fold`
      the letter case the decoding table ignores. */
  datatype Scheme = Scheme(bits: nat, group: nat, enc: nat -> char, rev: char -> int, fold: char -> char)

  /** ABCDEFGHIJKLMNOPQRSTUVWXYZabcdefghijklmnopqrstuvwxyz0123456789+/ */
  function Enc64(v: nat): char {
    if v < 26 then 'A' + v as char
    else if v < 52 then 'a' + (v - 26) as char
    else if v < 62 then '0' + (v - 52) as char
    else if v == 62 then '+'
    else '/'
  }

  function Rev64(c: char): int {
    if 'A' <= c <= 'Z' then c as int - 'A' as int
    else if 'a' <= c <= 'z' then c as int - 'a' as int + 26
    else if '0' <= c <= '9' then c as int - '0' as int + 52
    else if c == '+' then 62
    else if c == '/' then 63
    else -1
  }

  /** abcdefghijklmnopqrstuvwxyz234567 */
  function Enc32(v: nat): char {
    if v < 26 then 'a' + v as char
    else if v < 32 then '2' + (v - 26) as char
    else '7'
  }

  function Rev32(c: char): int {
    if 'A' <= c <= 'Z' then c as int - 'A' as int
    else if 'a' <= c <= 'z' then c as int - 'a' as int
    else if '2' <= c <= '7' then c as int - '2' as int + 26
    else -1
  }

  const BASE64 := Scheme(6, 4, Enc64, Rev64, c => c)
  const BASE32 := Scheme(5, 8, Enc32, Rev32, ToLower)

  /** The table inverts the alphabet. */
  ghost predicate Sound(s: Scheme) {
    && 0 < s.bits <= 8 && 0 < s.group
    && (forall v :: 0 <= v < Pow2(s.bits) ==> s.rev(s.enc(v)) == v)
    && (forall c :: s.rev(c) == -1 || 0 <= s.rev(c) < Pow2(s.bits))
    && s.rev('=') == -1
  }

  /** The alphabet inverts the table up to letter case. */
  ghost predicate CaseOnly(s: Scheme) {
    && (forall c :: s.rev(c) >= 0 ==> s.enc(s.rev(c)) == s.fold(c))
    && s.fold('=') == '='
  }

  /** The table ignores the letter case, and no other character folds to '='. */
  ghost predicate CaseBlind(s: Scheme) {
    forall c :: s.rev(s.fold(c)) == s.rev(c) && (s.fold(c) == '=' <==> c == '=')
  }

  lemma Powers()
    ensures Pow2(8) == 256 && Pow2(6) == 64 && Pow2(5) == 32
  {
    assert Pow2(4) == 16;
    assert Pow2(6) == 64;
  }

  lemma Base64Sound()
    ensures Sound(BASE64) && CaseOnly(BASE64) && CaseBlind(BASE64)
  {
    Powers();
  }

  lemma Base32Sound()
    ensures Sound(BASE32) && CaseOnly(BASE32) && CaseBlind(BASE32)
  {
    Powers();
  }

  function Chars(s: Scheme, vals: seq<nat>): (r: string)
    ensures |r| == |vals|
  {
    seq(|vals|, i requires 0 <= i < |vals| => s.enc(vals[i]))
  }

  function Equals(n: nat): string {
    seq(n, _ => '=')
  }

  /** The encoding: padded groups, then '=' up to a whole number of output groups. */
  ghost function Encoded(s: Scheme, b: seq<byte>): string
    requires Sound(s)
  {
    var vals := Padded(8, s.bits, b);
    Chars(s, vals) + Equals(PadBits(|vals|, s.group))
  }

  /** Length of the longest prefix over the alphabet. */
  function Body(s: Scheme, str: string): (n: nat)
    ensures n <= |str|
  {
    if str == [] || s.rev(str[0]) == -1 then 0 else 1 + Body(s, str[1..])
  }

  lemma {:induction false} BodyIs(s: Scheme, str: string, n: nat)
    requires n <= |str| && forall i :: 0 <= i < n ==> s.rev(str[i]) != -1
    requires n < |str| ==> s.rev(str[n]) == -1
    ensures Body(s, str) == n
  {
    if n > 0 {
      BodyIs(s, str[1..], n - 1);
    }
  }

  lemma {:induction false} BodyPrefix(s: Scheme, str: string)
    ensures forall i :: 0 <= i < Body(s, str) ==> s.rev(str[i]) != -1
    ensures Body(s, str) < |str| ==> s.rev(str[Body(s, str)]) == -1
  {
    if str != [] && s.rev(str[0]) != -1 {
      BodyPrefix(s, str[1..]);
      forall i | 0 <= i < Body(s, str) ensures s.rev(str[i]) != -1 {
        if i > 0 {
          assert str[i] == str[1..][i - 1];
        }
      }
    }
  }

  ghost function Vals(s: Scheme, str: string, n: nat): (vals: seq<nat>)
    requires Sound(s) && n <= |str| && forall i :: 0 <= i < n ==> s.rev(str[i]) != -1
    ensures |vals| == n && Groups(s.bits, vals)
  {
    seq(n, i requires 0 <= i < n => s.rev(str[i]))
  }

  /** Validity and bytes of a C string. */
  ghost function Decoded(s: Scheme, str: string): (r: (bool, seq<byte>))
    requires Sound(s)
  {
    BodyPrefix(s, str);
    Powers();
    var n := Body(s, str);
    var vals := Vals(s, str, n);
    (RestOk(s.bits, 8, vals) && Tail(s, str, n), Unpadded(s.bits, 8, vals))
  }

  /** Less than a group of '=' completes the string to whole groups. */
  ghost predicate Tail(s: Scheme, str: string, n: nat)
    requires n <= |str| && s.group > 0
  {
    str[n..] == Equals(|str| - n) && |str| % s.group == 0 && |str| - n < s.group
  }

  /** EncodeBase64 / EncodeBase32. */
  method Encode(s: Scheme, b: seq<byte>) returns (str: string)
    requires Sound(s)
    ensures str == Encoded(s, b)
  {
    Powers();
    var _, vals := Convert(8, s.bits, true, b);
    str := "";
    for i := 0 to |vals|
      invariant str == Chars(s, vals[..i])
    {
      str := str + [s.enc(vals[i])];
    }
    assert vals[..|vals|] == vals;
    ghost var chars := str;
    while |str| % s.group != 0
      invariant |chars| <= |str| <= |chars| + PadBits(|chars|, s.group)
      invariant str == chars + Equals(|str| - |chars|)
      decreases |chars| + PadBits(|chars|, s.group) - |str|
    {
      PadBitsMod(|chars|, |str|, s.group);
      str := str + "=";
    }
    PadBitsMod(|chars|, |str|, s.group);
  }

  /** Scanning '=' from the end of the body decides Tail. */
  lemma TailIs(s: Scheme, str: string, q: nat, p: nat)
    requires s.group > 0 && q <= p <= |str| && forall i :: q <= i < p ==> str[i] == '='
    requires p < |str| ==> str[p] != '='
    ensures Tail(s, str, q) == (p == |str| && p % s.group == 0 && p - q < s.group)
  {
    if p < |str| {
      assert str[q..][p - q] != Equals(|str| - q)[p - q];
    } else {
      assert str[q..] == Equals(|str| - q);
    }
  }

  /** The first loop of the decoders: table lookups up to the first foreign character. */
  method ScanBody(s: Scheme, c: string) returns (val: seq<nat>)
    requires Sound(s)
    ensures |val| == Body(s, c) && (BodyPrefix(s, c); val == Vals(s, c, |val|))
  {
    val := [];
    while |val| < |c|
      invariant |val| <= |c|
      invariant forall i :: 0 <= i < |val| ==> s.rev(c[i]) >= 0 && val[i] == s.rev(c[i])
    {
      var x := s.rev(c[|val|]);
      if x == -1 { break; }
      val := val + [x];
    }
    BodyIs(s, c, |val|);
  }

  /** The second loop: '=' up to the terminator. */
  method ScanTail(s: Scheme, c: string, q: nat) returns (valid: bool)
    requires s.group > 0 && q <= |c|
    ensures valid == Tail(s, c, q)
  {
    var p := q;
    valid := true;
    while p < |c|
      invariant q <= p <= |c| && forall i :: q <= i < p ==> c[i] == '='
    {
      if c[p] != '=' {
        TailIs(s, c, q, p);
        return false;
      }
      p := p + 1;
    }
    TailIs(s, c, q, p);
    valid := p % s.group == 0 && p - q < s.group;
  }

  /** DecodeBase64 / DecodeBase32 of a std::string, read up to its terminator. */
  method Decode(s: Scheme, str: string) returns (valid: bool, ret: seq<byte>)
    requires Sound(s)
    ensures (valid, ret) == Decoded(s, CStr(str))
  {
    Powers();
    var c := CStr(str);
    var val := ScanBody(s, c);
    valid, ret := Convert(s.bits, 8, false, val);
    if valid {
      valid := ScanTail(s, c, |val|);
    }
  }

  /** Decoding an encoding returns the bytes and marks them valid. */
  lemma RoundTrip(s: Scheme, b: seq<byte>)
    requires Sound(s)
    ensures Decoded(s, Encoded(s, b)) == (true, b)
  {
    var vals := Padded(8, s.bits, b);
    var str := Encoded(s, b);
    assert Body(s, str) == |vals| && Vals(s, str, |vals|) == vals by { BodyIs(s, str, |vals|); }
    assert Tail(s, str, |vals|) by { PadBitsMod(|vals|, |str|, s.group); }
    assert RestOk(s.bits, 8, vals) && Unpadded(s.bits, 8, vals) == b by { Powers(); UnpadPad(8, s.bits, b); }
  }

  function Fold(s: Scheme, str: string): string {
    seq(|str|, i requires 0 <= i < |str| => s.fold(str[i]))
  }

  /** A string marked valid is, up to the ignored letter case, the encoding of its bytes. */
  lemma Canonical(s: Scheme, str: string)
    requires Sound(s) && CaseOnly(s) && Decoded(s, str).0
    ensures Encoded(s, Decoded(s, str).1) == Fold(s, str)
  {
    BodyPrefix(s, str);
    var n := Body(s, str);
    var vals := Vals(s, str, n);
    assert Padded(8, s.bits, Decoded(s, str).1) == vals by { PadUnpad(8, s.bits, vals); }
    assert PadBits(n, s.group) == |str| - n by { PadBitsMod(n, |str|, s.group); }
    assert str == str[..n] + Equals(|str| - n);
    assert Chars(s, vals) + Equals(|str| - n) == Fold(s, str);
  }

  /** The decoder does not see the ignored letter case. */
  lemma DecodedFold(s: Scheme, str: string)
    requires Sound(s) && CaseBlind(s)
    ensures Decoded(s, Fold(s, str)) == Decoded(s, str)
  {
    BodyPrefix(s, str);
    var n := Body(s, str);
    BodyIs(s, Fold(s, str), n);
    assert Vals(s, Fold(s, str), n) == Vals(s, str, n);
    if Fold(s, str)[n..] == Equals(|str| - n) || str[n..] == Equals(|str| - n) {
      forall i | n <= i < |str| ensures str[i] == '=' && Fold(s, str)[i] == '=' {
        assert str[i] == str[n..][i - n];
        assert Fold(s, str)[i] == Fold(s, str)[n..][i - n];
      }
    }
  }

  /** Exactly the (case-folded) encodings are valid, each as its own bytes only. */
  lemma ValidIff(s: Scheme, str: string, b: seq<byte>)
    requires Sound(s) && CaseOnly(s) && CaseBlind(s)
    ensures Decoded(s, str) == (true, b) <==> Fold(s, str) == Encoded(s, b)
  {
    if Decoded(s, str) == (true, b) {
      Canonical(s, str);
    }
    if Fold(s, str) == Encoded(s, b) {
      RoundTrip(s, b);
      DecodedFold(s, str);
    }
  }

  /** A std::string that is decoded up to its terminator is re-encoded only as far. */
  lemma ReencodedIff(s: Scheme, str: string)
    requires Sound(s) && CaseOnly(s) && Decoded(s, CStr(str)).0
    ensures Fold(s, str) == Encoded(s, Decoded(s, CStr(str)).1) <==> '\0' !in str
  {
    CStrIs(str);
    Canonical(s, CStr(str));
    assert |Fold(s, CStr(str))| == |CStr(str)| && |Fold(s, str)| == |str|;
  }

  /** Base64 is a canonical bijection on C strings. A std::string is re-encoded exactly
      when it holds no NUL: what follows one is not looked at. */
  lemma Base64Canonical(str: string, b: seq<byte>)
    ensures Sound(BASE64)
    ensures Decoded(BASE64, Encoded(BASE64, b)) == (true, b)
    ensures Decoded(BASE64, str) == (true, b) <==> str == Encoded(BASE64, b)
    ensures Decoded(BASE64, CStr(str)).0 ==>
              (str == Encoded(BASE64, Decoded(BASE64, CStr(str)).1) <==> '\0' !in str)
  {
    Base64Sound();
    RoundTrip(BASE64, b);
    ValidIff(BASE64, str, b);
    assert Fold(BASE64, str) == str;
    if Decoded(BASE64, CStr(str)).0 {
      ReencodedIff(BASE64, str);
    }
  }

  /** Base32 satisfies the same up to letter case, strings with a NUL included. */
  lemma Base32Canonical(str: string, b: seq<byte>)
    ensures Sound(BASE32)
    ensures Decoded(BASE32, Encoded(BASE32, b)) == (true, b)
    ensures Decoded(BASE32, str) == (true, b) <==> Lower(str) == Encoded(BASE32, b)
    ensures Decoded(BASE32, CStr(str)).0 ==>
              (Lower(str) == Encoded(BASE32, Decoded(BASE32, CStr(str)).1) <==> '\0' !in str)
  {
    Base32Sound();
    RoundTrip(BASE32, b);
    ValidIff(BASE32, str, b);
    assert Fold(BASE32, str) == Lower(str);
    if Decoded(BASE32, CStr(str)).0 {
      ReencodedIff(BASE32, str);
    }
  }

  /** Three zero bytes are four letters A. */
  lemma FourLetters(b: seq<byte>)
    requires b == [0, 0, 0]
    ensures Sound(BASE64) && Encoded(BASE64, b) == "AAAA"
  {
    Base64Sound();
    var vals := [0, 0, 0, 0];
    assert Padded(8, 6, b) == vals by {
      FlatZeros(8, b);
      FlatZeros(6, vals);
      PaddedIs(8, 6, b, vals, 0);
    }
  }

  lemma CutAtNul(str: string)
    requires str == "AAAA\0!"
    ensures CStr(str) == "AAAA" && '\0' in str
  {
    CStrIs(str);
    assert str[4] == '\0';
  }

  /** A std::string with a NUL inside that is marked valid but is no encoding. */
  lemma EmbeddedNul()
    ensures Sound(BASE64)
    ensures Decoded(BASE64, CStr("AAAA\0!")).0
    ensures forall b :: Encoded(BASE64, b) != "AAAA\0!"
  {
    Base64Sound();
    var b: seq<byte> := [0, 0, 0];
    var str := "AAAA\0!";
    FourLetters(b);
    RoundTrip(BASE64, b);
    CutAtNul(str);
    forall x ensures Encoded(BASE64, x) != str {
      NoNul(x);
    }
  }

  lemma NoNul(b: seq<byte>)
    requires Sound(BASE64)
    ensures '\0' !in Encoded(BASE64, b)
  {
    assert forall v :: BASE64.enc(v) != '\0';
  }
}
