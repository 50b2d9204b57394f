/**
 Bech32 strings (BIP 173, sections "Bech32" and "Checksum"): the round trip, the letter
 case, and the detection of every burst of up to six characters and of any three.
 */
module Bech32 {
  import opened Wrappers
  import opened CStrings
  import opened PolyMods
  import opened BechRoots
  import Checksums

  /** CHARSET */
  function Charset(v: nat): char {
    match v
    case 0 => 'q' case 1 => 'p' case 2 => 'z' case 3 => 'r' case 4 => 'y' case 5 => '9' case 6 => 'x' case 7 => '8'
    case 8 => 'g' case 9 => 'f' case 10 => '2' case 11 => 't'
    case 12 => 'v' case 13 => 'd' case 14 => 'w' case 15 => '0'
    case 16 => 's' case 17 => '3' case 18 => 'j' case 19 => 'n'
    case 20 => '5' case 21 => '4' case 22 => 'k' case 23 => 'h'
    case 24 => 'c' case 25 => 'e' case 26 => '6' case 27 => 'm'
    case 28 => 'u' case 29 => 'a' case 30 => '7' case _ => 'l'
  }

  /** CHARSET_REV, which gives both cases of a letter the same value. */
  function Rev(c: char): (r: int)
    ensures -1 <= r < 32
  {
    match ToLower(c)
    case '0' => 15 case '2' => 10 case '3' => 17 case '4' => 21 case '5' => 20
    case '6' => 26 case '7' => 30 case '8' => 7 case '9' => 5
    case 'a' => 29 case 'c' => 24 case 'd' => 13 case 'e' => 25 case 'f' => 9 case 'g' => 8
    case 'h' => 23 case 'j' => 18 case 'k' => 22 case 'l' => 31 case 'm' => 27 case 'n' => 19
    case 'p' => 1 case 'q' => 0 case 'r' => 3 case 's' => 16 case 't' => 11 case 'u' => 28
    case 'v' => 12 case 'w' => 14 case 'x' => 6 case 'y' => 4 case 'z' => 2
    case _ => -1
  }

  /** The table inverts the character set ... */
  lemma CharsetRev(v: nat)
    requires v < 32
    ensures Rev(Charset(v)) == v
  {
    if v < 16 { CharsetRevLow(v); } else { CharsetRevHigh(v); }
  }

  lemma CharsetRevLow(v: nat)
    requires v < 16
    ensures Rev(Charset(v)) == v
  {
  }

  lemma CharsetRevHigh(v: nat)
    requires 16 <= v < 32
    ensures Rev(Charset(v)) == v
  {
  }

  /** ... which has neither '1' nor an upper-case letter. */
  lemma CharsetLower(v: nat)
    requires v < 32
    ensures ToLower(Charset(v)) == Charset(v) != '1' && 33 <= Charset(v) as int <= 126
  {
  }

  /** The table reads both cases alike ... */
  lemma RevLower(c: char)
    ensures Rev(ToLower(c)) == Rev(c)
  {
    assert ToLower(ToLower(c)) == ToLower(c);
  }

  lemma RevUpper(c: char)
    ensures Rev(ToUpper(c)) == Rev(c)
  {
    assert ToLower(ToUpper(c)) == ToLower(c);
  }

  /** ... and only letter case separates two characters of one value. */
  lemma RevCharset(c: char)
    requires Rev(c) != -1
    ensures 0 <= Rev(c) < 32 && Charset(Rev(c)) == ToLower(c)
  {
  }

  /** The parameters of the format. `verifies` tests an expanded prefix and
      values, `checks` says which six values complete them. The proofs use only their laws. */
  datatype Codec = Codec(
    enc: nat -> char,
    rev: char -> int,
    verifies: seq<byte> -> bool,
    checks: (seq<byte>, seq<byte>) -> bool)

  const BECH32: Codec := Codec(Charset, Rev, Verifies, IsChecksum)

  ghost predicate Lawful(K: Codec) {
    && (forall e, cs {:trigger K.checks(e, cs)} :: FiveBit(e) && K.checks(e, cs) ==>
          |cs| == 6 && FiveBit(cs) && K.verifies(e + cs))
    && (forall v: nat :: v < 32 ==> K.rev(K.enc(v)) == v)
    && (forall v: nat :: v < 32 ==> ToLower(K.enc(v)) == K.enc(v) != '1' && 33 <= K.enc(v) as int <= 126)
    && (forall c {:trigger K.enc(K.rev(c))} :: 0 <= K.rev(c) < 32 ==> K.enc(K.rev(c)) == ToLower(c))
    && (forall c {:trigger K.rev(ToUpper(c))} :: K.rev(ToUpper(c)) == K.rev(c))
    && (forall c {:trigger K.rev(ToLower(c))} :: K.rev(ToLower(c)) == K.rev(c))
  }

  function Chars(K: Codec, vals: seq<byte>): (s: string)
    requires forall i :: 0 <= i < |vals| ==> vals[i] < 32
    ensures |s| == |vals|
  {
    seq(|vals|, i requires 0 <= i < |vals| => K.enc(vals[i]))
  }

  ghost predicate IsEncoding(K: Codec, hrp: string, values: seq<byte>, s: string) {
    FiveBit(values) &&
    exists cs {:trigger K.checks(Expand(hrp) + values, cs)} ::
      |cs| == 6 && FiveBit(cs) && K.checks(Expand(hrp) + values, cs) && s == hrp + "1" + Chars(K, values + cs)
  }

  /** bech32::Encode, of values below 32 as CHARSET demands. */
  method Encode(hrp: string, values: seq<byte>) returns (ret: string)
    requires FiveBit(values)
    ensures IsEncoding(BECH32, hrp, values, ret)
    ensures exists cs :: Spelled(BECH, ret, hrp, values, cs)
  {
    var checksum := CreateChecksum(hrp, values);
    ret := Assemble(BECH32, hrp, values, checksum);
    EncodingSpelled(hrp, values, ret);
  }

  method Assemble(K: Codec, hrp: string, values: seq<byte>, checksum: seq<byte>) returns (ret: string)
    requires FiveBit(values) && |checksum| == 6 && FiveBit(checksum) && K.checks(Expand(hrp) + values, checksum)
    ensures IsEncoding(K, hrp, values, ret)
  {
    ret := hrp + "1";
    ret := AppendChars(K, ret, values + checksum);
  }

  method AppendChars(K: Codec, s: string, combined: seq<byte>) returns (ret: string)
    requires FiveBit(combined)
    ensures ret == s + Chars(K, combined)
  {
    ret := s;
    for i := 0 to |combined|
      invariant ret == s + Chars(K, combined[..i])
    {
      ret := ret + [K.enc(combined[i])];
    }
    assert combined[..|combined|] == combined;
  }

  // ---- Decoding ----

  ghost predicate Printable(s: string) {
    forall i :: 0 <= i < |s| ==> 33 <= s[i] as int <= 126
  }

  ghost predicate HasLower(s: string) {
    exists i :: 0 <= i < |s| && 'a' <= s[i] <= 'z'
  }

  ghost predicate HasUpper(s: string) {
    exists i :: 0 <= i < |s| && 'A' <= s[i] <= 'Z'
  }

  /** `str.rfind('1')`, -1 for npos. */
  function LastOne(s: string): (pos: int)
    ensures -1 <= pos < |s|
    ensures pos >= 0 ==> s[pos] == '1'
    ensures forall i :: pos < i < |s| ==> s[i] != '1'
  {
    if s == [] then -1
    else if s[|s| - 1] == '1' then |s| - 1
    else LastOne(s[..|s| - 1])
  }

  /** What Decode checks before it looks at the values ... */
  ghost predicate Shaped(s: string) {
    Printable(s) && !(HasLower(s) && HasUpper(s)) && |s| <= 90 && 1 <= LastOne(s) && LastOne(s) + 7 <= |s|
  }

  /** ... and before the checksum. */
  ghost predicate WellFormed(K: Codec, s: string) {
    Shaped(s) && forall i :: LastOne(s) < i < |s| ==> 0 <= K.rev(s[i]) < 32
  }

  ghost function Values(K: Codec, s: string): (v: seq<byte>)
    requires WellFormed(K, s)
    ensures FiveBit(v) && |v| == |s| - 1 - LastOne(s)
  {
    var pos := LastOne(s);
    seq(|s| - 1 - pos, i requires 0 <= i < |s| - 1 - pos => K.rev(s[i + pos + 1]))
  }

  ghost function Prefix(K: Codec, s: string): (hrp: string)
    requires WellFormed(K, s)
  {
    Lower(s[..LastOne(s)])
  }

  ghost predicate Accepts(K: Codec, s: string)
  {
    WellFormed(K, s) && K.verifies(Expand(Prefix(K, s)) + Values(K, s))
  }

  /** bech32::Decode: prefix and data, both empty when the string is rejected. */
  ghost function Decoded(K: Codec, s: string): (string, seq<byte>)
  {
    if Accepts(K, s) then (Prefix(K, s), Values(K, s)[..|Values(K, s)| - 6]) else ("", [])
  }

  method ScanCase(str: string) returns (ok: bool)
    ensures ok == (Printable(str) && !(HasLower(str) && HasUpper(str)))
  {
    var lower, upper := false, false;
    for i := 0 to |str|
      invariant Printable(str[..i]) && lower == HasLower(str[..i]) && upper == HasUpper(str[..i])
    {
      var c := str[i];
      assert str[..i + 1] == str[..i] + [c];
      if 'a' <= c <= 'z' {
        lower := true;
        assert str[..i + 1][i] == c;
      } else if 'A' <= c <= 'Z' {
        upper := true;
        assert str[..i + 1][i] == c;
      } else if c as int < 33 || c as int > 126 {
        return false;
      }
      CaseSnoc(str[..i], c);
    }
    assert str[..|str|] == str;
    ok := !(lower && upper);
  }

  lemma CaseSnoc(s: string, c: char)
    ensures HasLower(s + [c]) == (HasLower(s) || 'a' <= c <= 'z')
    ensures HasUpper(s + [c]) == (HasUpper(s) || 'A' <= c <= 'Z')
  {
    var t := s + [c];
    assert t[|s|] == c;
    assert forall i :: 0 <= i < |s| ==> t[i] == s[i];
  }

  /** The table lookups of Decode, up to the first foreign character. */
  method LookUp(K: Codec, str: string) returns (ok: bool, values: seq<byte>)
    requires Shaped(str) && forall c :: -1 <= K.rev(c) < 32
    ensures ok == WellFormed(K, str)
    ensures ok ==> values == Values(K, str)
  {
    var pos := LastOne(str);
    var n := |str| - 1 - pos;
    values := seq(n, _ => 0);
    for i := 0 to n
      invariant |values| == n
      invariant forall j :: pos < j < pos + 1 + i ==> 0 <= K.rev(str[j]) < 32
      invariant forall j :: 0 <= j < i ==> values[j] == K.rev(str[j + pos + 1])
    {
      var rev := K.rev(str[i + pos + 1]);
      if rev == -1 {
        return false, [];
      }
      values := values[i := rev];
    }
    ok := true;
  }

  method LowerAll(str: string) returns (hrp: string)
    ensures hrp == Lower(str)
  {
    hrp := "";
    for i := 0 to |str|
      invariant hrp == Lower(str[..i])
    {
      hrp := hrp + [ToLower(str[i])];
    }
    assert str[..|str|] == str;
  }

  /** bech32::Decode up to the checksum. */
  method Parse(K: Codec, str: string) returns (ok: bool, hrp: string, values: seq<byte>)
    requires forall c :: -1 <= K.rev(c) < 32
    ensures ok == WellFormed(K, str)
    ensures ok ==> hrp == Prefix(K, str) && values == Values(K, str)
  {
    hrp, values := "", [];
    ok := ScanCase(str);
    if !ok { return; }
    var pos := LastOne(str);
    if |str| > 90 || pos == -1 || pos == 0 || pos + 7 > |str| { return false, "", []; }
    ok, values := LookUp(K, str);
    if !ok { return; }
    hrp := LowerAll(str[..pos]);
  }

  method Decode(str: string) returns (hrp: string, data: seq<byte>)
    ensures (hrp, data) == Decoded(BECH32, str)
    ensures hrp != "" ==> exists cs :: Carries(BECH, str, hrp, data, cs)
  {
    hrp, data := DecodeValues(str);
    if hrp != "" {
      DecodesIff(str, hrp, data);
    }
  }

  method DecodeValues(str: string) returns (hrp: string, data: seq<byte>)
    ensures (hrp, data) == Decoded(BECH32, str)
  {
    var ok, values;
    ok, hrp, values := Parse(BECH32, str);
    if !ok { return "", []; }
    ok := VerifyChecksum(hrp, values);
    hrp, data := Strip(BECH32, str, hrp, values, ok);
  }

  method Strip(ghost K: Codec, ghost str: string, hrp: string, values: seq<byte>, ok: bool)
    returns (h: string, data: seq<byte>)
    requires WellFormed(K, str) && hrp == Prefix(K, str) && values == Values(K, str)
    requires ok == K.verifies(Expand(hrp) + values)
    ensures (h, data) == Decoded(K, str)
  {
    if !ok { return "", []; }
    h, data := hrp, values[..|values| - 6];
  }

  /** What Encode can be asked to encode without loss. */
  ghost predicate Encodable(hrp: string, values: seq<byte>) {
    hrp != "" && Printable(hrp) && !HasUpper(hrp) && |hrp| + 1 + |values| + 6 <= 90
  }

  lemma LastOneIs(s: string, pos: int)
    requires -1 <= pos < |s| && (pos >= 0 ==> s[pos] == '1') && forall i :: pos < i < |s| ==> s[i] != '1'
    ensures LastOne(s) == pos
  {
  }

  /** Where an encoding puts its parts. */
  lemma EncodingShape(K: Codec, hrp: string, values: seq<byte>, cs: seq<byte>, s: string)
    requires Lawful(K) && FiveBit(values) && |cs| == 6 && FiveBit(cs) && s == hrp + "1" + Chars(K, values + cs)
    ensures LastOne(s) == |hrp| && |s| == |hrp| + 1 + |values| + 6
    ensures forall i :: |hrp| < i < |s| ==> K.rev(s[i]) == (values + cs)[i - |hrp| - 1]
    ensures forall i :: |hrp| <= i < |s| ==> 33 <= s[i] as int <= 126 && ToLower(s[i]) == s[i]
  {
    var v := values + cs;
    forall i | |hrp| < i < |s|
      ensures s[i] != '1' && K.rev(s[i]) == v[i - |hrp| - 1] && 33 <= s[i] as int <= 126 && ToLower(s[i]) == s[i]
    {
      assert s[i] == K.enc(v[i - |hrp| - 1]);
    }
    assert s[|hrp|] == '1';
    LastOneIs(s, |hrp|);
  }

  /** An encodable pair whose checksum verifies comes back. */
  lemma ShapeDecodes(K: Codec, hrp: string, values: seq<byte>, cs: seq<byte>, s: string)
    requires Lawful(K) && Encodable(hrp, values) && FiveBit(values) && |cs| == 6 && FiveBit(cs)
    requires s == hrp + "1" + Chars(K, values + cs) && K.verifies(Expand(hrp) + (values + cs))
    ensures Decoded(K, s) == (hrp, values)
  {
    EncodingShape(K, hrp, values, cs, s);
    EncodingCase(hrp, s);
    assert Prefix(K, s) == hrp by {
      assert s[..|hrp|] == hrp;
      LowerIdle(hrp);
    }
    assert Values(K, s) == values + cs;
    assert (values + cs)[..|values|] == values;
  }

  lemma DecodeEncode(K: Codec, hrp: string, values: seq<byte>, s: string)
    requires Lawful(K)
    requires Encodable(hrp, values) && IsEncoding(K, hrp, values, s)
    ensures Decoded(K, s) == (hrp, values)
  {
    var cs :| |cs| == 6 && FiveBit(cs) && K.checks(Expand(hrp) + values, cs) && s == hrp + "1" + Chars(K, values + cs);
    ExpandFiveBit(hrp);
    assert Expand(hrp) + (values + cs) == Expand(hrp) + values + cs;
    ShapeDecodes(K, hrp, values, cs, s);
  }

  lemma EncodingCase(hrp: string, s: string)
    requires hrp <= s && Printable(hrp) && !HasUpper(hrp)
    requires forall i :: |hrp| <= i < |s| ==> 33 <= s[i] as int <= 126 && ToLower(s[i]) == s[i]
    ensures Printable(s) && !HasUpper(s)
  {
    forall i | 0 <= i < |s| ensures 33 <= s[i] as int <= 126 && !('A' <= s[i] <= 'Z') {
      if i < |hrp| {
        assert s[i] == hrp[i];
      }
    }
  }

  lemma LowerIdle(s: string)
    ensures Lower(s) == s <==> !HasUpper(s)
  {
    forall i | 0 <= i < |s| ensures Lower(s)[i] == s[i] <==> !('A' <= s[i] <= 'Z') {}
  }

  /** Decode inverts Encode on exactly the encodable pairs (and on the empty pair, which is
      also what Decode returns for a rejected string). */
  lemma RoundTripFor(K: Codec, hrp: string, values: seq<byte>, s: string)
    requires Lawful(K)
    requires IsEncoding(K, hrp, values, s)
    ensures Decoded(K, s) == (hrp, values) <==> Encodable(hrp, values) || (hrp == "" && values == [])
  {
    var cs :| |cs| == 6 && FiveBit(cs) && K.checks(Expand(hrp) + values, cs) && s == hrp + "1" + Chars(K, values + cs);
    EncodingShape(K, hrp, values, cs, s);
    if Encodable(hrp, values) {
      DecodeEncode(K, hrp, values, s);
    }
    assert s[..|hrp|] == hrp;
    LowerIdle(hrp);
    assert Printable(s) ==> Printable(hrp) by {
      assert forall i :: 0 <= i < |hrp| ==> s[i] == hrp[i];
    }
  }

  // ---- Letter case ----

  /** Upper-casing a string without upper-case letters does not change its decoding. */
  lemma UpperSame(K: Codec, s: string)
    requires Lawful(K) && !HasUpper(s)
    ensures Decoded(K, Upper(s)) == Decoded(K, s)
  {
    var u := Upper(s);
    var pos := LastOne(s);
    assert forall i :: 0 <= i < |s| ==> (u[i] == '1' <==> s[i] == '1');
    LastOneIs(u, pos);
    UpperCase(s);
    assert forall i :: 0 <= i < |s| ==> K.rev(u[i]) == K.rev(s[i]);
    if WellFormed(K, s) {
      assert Values(K, u) == Values(K, s);
      assert Prefix(K, u) == Prefix(K, s);
    }
  }

  lemma UpperCase(s: string)
    ensures Printable(Upper(s)) == Printable(s) && !HasLower(Upper(s))
  {
    var u := Upper(s);
    forall i | 0 <= i < |s| ensures 33 <= u[i] as int <= 126 <==> 33 <= s[i] as int <= 126 {}
    assert Printable(u) ==> forall i :: 0 <= i < |s| ==> 33 <= u[i] as int <= 126;
  }

  // ---- Errors ----

  /** Accepted strings of one prefix and one list of values differ in letter case only. */
  lemma SameText(K: Codec, s: string, t: string)
    requires Lawful(K) && Accepts(K, s) && Accepts(K, t) && |s| == |t|
    requires Prefix(K, s) == Prefix(K, t) && Values(K, s) == Values(K, t)
    ensures Lower(s) == Lower(t)
  {
    var pos, v := LastOne(s), Values(K, s);
    assert |Prefix(K, s)| == pos && |Prefix(K, t)| == LastOne(t);
    forall i | 0 <= i < |s| ensures ToLower(s[i]) == ToLower(t[i]) {
      if i < pos {
        assert Prefix(K, s)[i] == Prefix(K, t)[i];
      } else if i > pos {
        assert K.enc(v[i - pos - 1]) == ToLower(s[i]) && K.enc(v[i - pos - 1]) == ToLower(t[i]);
      }
    }
  }

  // ---- Bursts ----

  /** Accepted values of one length under one prefix never differ only inside six
      consecutive places. */
  ghost predicate DetectsBursts(K: Codec) {
    forall e, v, w, k: int {:trigger K.verifies(e + v), K.verifies(e + w), Same(v, w, k)} ::
      FiveBit(e) && FiveBit(v) && FiveBit(w) && K.verifies(e + v) && K.verifies(e + w) && Same(v, w, k) ==> v == w
  }

  /** Equal outside the six places from k on. */
  ghost predicate Same(v: seq<byte>, w: seq<byte>, k: int) {
    |v| == |w| && forall i :: 0 <= i < |v| && !(k <= i < k + 6) ==> v[i] == w[i]
  }

  /** Two accepted strings with one prefix and length that differ only inside six
      consecutive characters differ in letter case only. */
  lemma BurstFor(K: Codec, s: string, t: string, k: int)
    requires Lawful(K) && DetectsBursts(K) && Accepts(K, s) && Accepts(K, t)
    requires |s| == |t| && Prefix(K, s) == Prefix(K, t)
    requires forall i :: 0 <= i < |s| && !(k <= i < k + 6) ==> ToLower(s[i]) == ToLower(t[i])
    ensures Lower(s) == Lower(t) && Decoded(K, s) == Decoded(K, t)
  {
    var pos := LastOne(s);
    var v, w := Values(K, s), Values(K, t);
    assert |Prefix(K, s)| == pos && |Prefix(K, t)| == LastOne(t);
    forall i | 0 <= i < |v| && !(k - pos - 1 <= i < k - pos - 1 + 6) ensures v[i] == w[i] {
      assert K.rev(ToLower(s[i + pos + 1])) == K.rev(ToLower(t[i + pos + 1]));
    }
    assert Same(v, w, k - pos - 1);
    ExpandFiveBit(Prefix(K, s));
    assert v == w;
    SameText(K, s, t);
  }

  // ---- Three errors ----

  /** Accepted values of one length under one prefix never differ at three places or fewer. */
  ghost predicate DetectsThree(K: Codec) {
    forall e, v, w, p: nat, q: nat, r: nat {:trigger K.verifies(e + v), K.verifies(e + w), SameBut(v, w, p, q, r)} ::
      FiveBit(e) && FiveBit(v) && FiveBit(w) && K.verifies(e + v) && K.verifies(e + w)
        && SameBut(v, w, p, q, r) && p < q < r < |v| < 1023 ==>
        v == w
  }

  predicate Among(i: int, p: int, q: int, r: int) {
    i == p || i == q || i == r
  }

  function Within(n: nat, p: int, other: nat): nat {
    if 0 <= p < n then p else other
  }

  /** Three places of n in order, among them those of p, q and r that are places of n. */
  lemma InOrder(n: nat, p: int, q: int, r: int) returns (a: nat, b: nat, c: nat)
    requires n >= 3
    ensures a < b < c < n && forall i :: 0 <= i < n && Among(i, p, q, r) ==> Among(i, a, b, c)
  {
    a := Within(n, p, 0);
    b := Within(n, q, a);
    if b == a { b := if a == 0 then 1 else 0; }
    c := Within(n, r, a);
    if c == a || c == b { c := if a != 0 && b != 0 then 0 else if a != 1 && b != 1 then 1 else 2; }
    if b < a { a, b := b, a; }
    if c < b { b, c := c, b; }
    if b < a { a, b := b, a; }
  }

  /** The values differ where the characters do. */
  lemma ValuesDiffer(K: Codec, s: string, t: string, i: nat)
    requires Lawful(K) && WellFormed(K, s) && WellFormed(K, t) && |s| == |t| && LastOne(s) == LastOne(t)
    requires i < |Values(K, s)| && ToLower(s[i + LastOne(s) + 1]) == ToLower(t[i + LastOne(s) + 1])
    ensures Values(K, s)[i] == Values(K, t)[i]
  {
    var j := i + LastOne(s) + 1;
    assert K.rev(ToLower(s[j])) == K.rev(ToLower(t[j]));
  }

  /** Two accepted strings with one prefix and length that differ at three places or fewer
      differ in letter case only. */
  lemma ThreeFor(K: Codec, s: string, t: string, p: int, q: int, r: int)
    requires Lawful(K) && DetectsThree(K) && Accepts(K, s) && Accepts(K, t)
    requires |s| == |t| && Prefix(K, s) == Prefix(K, t)
    requires forall i :: 0 <= i < |s| && !Among(i, p, q, r) ==> ToLower(s[i]) == ToLower(t[i])
    ensures Lower(s) == Lower(t) && Decoded(K, s) == Decoded(K, t)
  {
    var pos := LastOne(s);
    var v, w := Values(K, s), Values(K, t);
    assert |Prefix(K, s)| == pos && |Prefix(K, t)| == LastOne(t);
    var a, b, c := InOrder(|v|, p - pos - 1, q - pos - 1, r - pos - 1);
    forall i | 0 <= i < |v| && i != a && i != b && i != c ensures v[i] == w[i] {
      assert !Among(i, a, b, c) && !Among(i, p - pos - 1, q - pos - 1, r - pos - 1);
      assert !Among(i + pos + 1, p, q, r);
      ValuesDiffer(K, s, t, i);
    }
    assert SameBut(v, w, a, b, c);
    ExpandFiveBit(Prefix(K, s));
    assert v == w;
    SameText(K, s, t);
  }

  // ---- The code at hand ----

  lemma Bech32Lawful()
    ensures Lawful(BECH32)
  {
    forall v: nat | v < 32
      ensures BECH32.rev(BECH32.enc(v)) == v
      ensures ToLower(BECH32.enc(v)) == BECH32.enc(v) != '1' && 33 <= BECH32.enc(v) as int <= 126
    {
      CharsetRev(v);
      CharsetLower(v);
    }
    forall c ensures 0 <= BECH32.rev(c) < 32 ==> BECH32.enc(BECH32.rev(c)) == ToLower(c) {
      if Rev(c) != -1 { RevCharset(c); }
    }
    forall c ensures BECH32.rev(ToUpper(c)) == BECH32.rev(c) { RevUpper(c); }
    forall c ensures BECH32.rev(ToLower(c)) == BECH32.rev(c) { RevLower(c); }
    forall e, cs | FiveBit(e) && BECH32.checks(e, cs) ensures BECH32.verifies(e + cs) {
      ChecksumVerifies(e, cs);
    }
  }

  lemma Bech32Detects()
    ensures DetectsBursts(BECH32) && DetectsThree(BECH32)
  {
    forall e, v, w, k: int |
      FiveBit(e) && FiveBit(v) && FiveBit(w) && BECH32.verifies(e + v) && BECH32.verifies(e + w) && Same(v, w, k)
      ensures v == w
    {
      ValuesBurst(e, v, w, k);
    }
    forall e, v, w, p: nat, q: nat, r: nat |
      FiveBit(e) && FiveBit(v) && FiveBit(w) && BECH32.verifies(e + v) && BECH32.verifies(e + w)
      && SameBut(v, w, p, q, r) && p < q < r < |v| < 1023
      ensures v == w
    {
      ValuesThree(e, v, w, p, q, r);
    }
  }

  /** Decode inverts Encode on exactly the encodable pairs, and on the empty pair, which is
      also what Decode returns for a rejected string. */
  lemma RoundTrip(hrp: string, values: seq<byte>, s: string)
    requires IsEncoding(BECH32, hrp, values, s)
    ensures Decoded(BECH32, s) == (hrp, values) <==> Encodable(hrp, values) || (hrp == "" && values == [])
  {
    Bech32Lawful();
    RoundTripFor(BECH32, hrp, values, s);
  }

  /** The decoder ignores a consistent letter case. */
  lemma CaseInsensitive(s: string)
    requires !HasUpper(s)
    ensures Decoded(BECH32, Upper(s)) == Decoded(BECH32, s)
  {
    Bech32Lawful();
    UpperSame(BECH32, s);
  }

  /** Every burst of up to six wrong characters is detected, at any length. */
  lemma BurstDetected(s: string, t: string, k: int)
    requires Accepts(BECH32, s) && Accepts(BECH32, t)
    requires |s| == |t| && Prefix(BECH32, s) == Prefix(BECH32, t)
    requires forall i :: 0 <= i < |s| && !(k <= i < k + 6) ==> ToLower(s[i]) == ToLower(t[i])
    ensures Lower(s) == Lower(t) && Decoded(BECH32, s) == Decoded(BECH32, t)
  {
    Bech32Lawful();
    Bech32Detects();
    BurstFor(BECH32, s, t, k);
  }

  /** Any three wrong characters are detected, wherever they stand. */
  lemma ThreeDetected(s: string, t: string, p: int, q: int, r: int)
    requires Accepts(BECH32, s) && Accepts(BECH32, t)
    requires |s| == |t| && Prefix(BECH32, s) == Prefix(BECH32, t)
    requires forall i :: 0 <= i < |s| && !Among(i, p, q, r) ==> ToLower(s[i]) == ToLower(t[i])
    ensures Lower(s) == Lower(t) && Decoded(BECH32, s) == Decoded(BECH32, t)
  {
    Bech32Lawful();
    Bech32Detects();
    ThreeFor(BECH32, s, t, p, q, r);
  }

  // ---- The accepted strings, written out ----

  const CHARSET: string := "qpzry9x8gf2tvdw0s3jn54khce6mua7l"

  lemma CharsetIs(v: nat)
    requires v < 32
    ensures |CHARSET| == 32 && Charset(v) == CHARSET[v]
  {
  }

  function Spelling(values: seq<byte>): (t: string)
    requires FiveBit(values)
    ensures |t| == |values|
  {
    seq(|values|, i requires 0 <= i < |values| => CHARSET[values[i]])
  }

  lemma SpellingIs(values: seq<byte>)
    requires FiveBit(values)
    ensures Spelling(values) == Chars(BECH32, values)
  {
    forall i | 0 <= i < |values| ensures Spelling(values)[i] == Chars(BECH32, values)[i] {
      CharsetIs(values[i]);
    }
  }

  /** s is, in one letter case, the prefix, a '1' and the text, at most 90 characters long. */
  ghost predicate Consists(s: string, hrp: string, text: string) {
    hrp != "" && Lower(s) == hrp + "1" + text && |s| <= 90 && Printable(s) && !(HasLower(s) && HasUpper(s))
  }

  lemma {:induction false} WellFormedConsists(K: Codec, s: string)
    requires Lawful(K) && WellFormed(K, s)
    ensures Consists(s, Prefix(K, s), Chars(K, Values(K, s))) && |Values(K, s)| >= 6
  {
    var pos, v := LastOne(s), Values(K, s);
    var t := Prefix(K, s) + "1" + Chars(K, v);
    forall i | 0 <= i < |s| ensures Lower(s)[i] == t[i] {
      if i < pos {
        assert Prefix(K, s)[i] == ToLower(s[i]);
      } else if i > pos {
        assert K.enc(v[i - pos - 1]) == ToLower(s[i]);
      }
    }
  }

  /** Where a string of this shape has its last '1', and what its characters are worth. */
  lemma ConsistsShape(K: Codec, s: string, hrp: string, v: seq<byte>)
    requires Lawful(K) && FiveBit(v) && |v| >= 6 && Consists(s, hrp, Chars(K, v))
    ensures LastOne(s) == |hrp| && |s| == |hrp| + 1 + |v|
    ensures forall i :: |hrp| < i < |s| ==> K.rev(s[i]) == v[i - |hrp| - 1]
  {
    var t := hrp + "1" + Chars(K, v);
    assert |Lower(s)| == |s|;
    forall i | 0 <= i < |s| ensures t[i] == ToLower(s[i]) {
      assert Lower(s)[i] == t[i];
    }
    forall i | |hrp| < i < |s| ensures s[i] != '1' && K.rev(s[i]) == v[i - |hrp| - 1] {
      assert t[i] == K.enc(v[i - |hrp| - 1]);
      assert K.rev(ToLower(s[i])) == K.rev(s[i]);
    }
    assert s[|hrp|] == '1';
    LastOneIs(s, |hrp|);
  }

  lemma ConsistsWellFormed(K: Codec, s: string, hrp: string, v: seq<byte>)
    requires Lawful(K) && FiveBit(v) && |v| >= 6 && Consists(s, hrp, Chars(K, v))
    ensures WellFormed(K, s) && Prefix(K, s) == hrp && Values(K, s) == v
  {
    ConsistsShape(K, s, hrp, v);
    assert Prefix(K, s) == hrp by {
      assert Lower(s)[..|hrp|] == hrp;
    }
    assert Values(K, s) == v;
  }

  lemma DecodesFor(K: Codec, s: string, hrp: string, v: seq<byte>)
    requires Lawful(K) && hrp != "" && FiveBit(v) && |v| >= 6
    ensures Accepts(K, s) && Prefix(K, s) == hrp && Values(K, s) == v <==>
      Consists(s, hrp, Chars(K, v)) && K.verifies(Expand(hrp) + v)
  {
    if Consists(s, hrp, Chars(K, v)) {
      ConsistsWellFormed(K, s, hrp, v);
    }
    if WellFormed(K, s) {
      WellFormedConsists(K, s);
    }
  }

  /** Data and checksum of an accepted string. */
  ghost predicate CarriesIn(K: Codec, s: string, hrp: string, data: seq<byte>, cs: seq<byte>) {
    |cs| == 6 && FiveBit(data + cs) && Consists(s, hrp, Chars(K, data + cs)) && K.verifies(Expand(hrp) + (data + cs))
  }

  lemma DecodedCarries(K: Codec, s: string, hrp: string, data: seq<byte>)
    requires Lawful(K) && hrp != "" && Decoded(K, s) == (hrp, data)
    ensures exists cs :: CarriesIn(K, s, hrp, data, cs)
  {
    WellFormedConsists(K, s);
    var v := Values(K, s);
    var cs := v[|v| - 6..];
    assert data + cs == v;
    assert CarriesIn(K, s, hrp, data, cs);
  }

  lemma CarriesDecoded(K: Codec, s: string, hrp: string, data: seq<byte>, cs: seq<byte>)
    requires Lawful(K) && hrp != "" && CarriesIn(K, s, hrp, data, cs)
    ensures Decoded(K, s) == (hrp, data)
  {
    var v := data + cs;
    DecodesFor(K, s, hrp, v);
    assert v[..|v| - 6] == data;
  }

  /** The same with the character set and the expansion of the prefix written out. */
  ghost predicate Carries(C: Checksums.Code<bv32>, s: string, hrp: string, data: seq<byte>, cs: seq<byte>) {
    |cs| == 6 && FiveBit(data + cs) && Consists(s, hrp, Spelling(data + cs)) && IsOne(C, hrp, data + cs)
  }

  /** The checksum over the expanded prefix and the values is one. */
  ghost predicate IsOne(C: Checksums.Code<bv32>, hrp: string, v: seq<byte>) {
    exists e :: IsExpansion(hrp, e) && Checksums.Fold(C, 1, Widen(e + v)) == 1
  }

  lemma IsOneIff(K: Codec, C: Checksums.Code<bv32>, hrp: string, v: seq<byte>)
    requires forall x {:trigger K.verifies(x)} :: K.verifies(x) <==> Checksums.Fold(C, 1, Widen(x)) == 1
    ensures IsOne(C, hrp, v) <==> K.verifies(Expand(hrp) + v)
  {
    ExpansionIff(hrp, Expand(hrp));
    if IsOne(C, hrp, v) {
      var e :| IsExpansion(hrp, e) && Checksums.Fold(C, 1, Widen(e + v)) == 1;
      ExpansionIff(hrp, e);
    }
  }

  lemma VerifiesIs(x: seq<byte>)
    ensures BECH32.verifies(x) <==> Checksums.Fold(BECH, 1, Widen(x)) == 1
  {
  }

  lemma BechOneIff(hrp: string, v: seq<byte>)
    ensures IsOne(BECH, hrp, v) <==> BECH32.verifies(Expand(hrp) + v)
  {
    forall x ensures BECH32.verifies(x) <==> Checksums.Fold(BECH, 1, Widen(x)) == 1 {
      VerifiesIs(x);
    }
    IsOneIff(BECH32, BECH, hrp, v);
  }

  lemma CarriesIs(K: Codec, C: Checksums.Code<bv32>, s: string, hrp: string, data: seq<byte>, cs: seq<byte>)
    requires FiveBit(data + cs) ==> Spelling(data + cs) == Chars(K, data + cs)
    requires IsOne(C, hrp, data + cs) <==> K.verifies(Expand(hrp) + (data + cs))
    ensures Carries(C, s, hrp, data, cs) <==> CarriesIn(K, s, hrp, data, cs)
  {
  }

  lemma CarriesIff(s: string, hrp: string, data: seq<byte>, cs: seq<byte>)
    ensures Carries(BECH, s, hrp, data, cs) <==> CarriesIn(BECH32, s, hrp, data, cs)
  {
    if FiveBit(data + cs) {
      SpellingIs(data + cs);
    }
    BechOneIff(hrp, data + cs);
    CarriesIs(BECH32, BECH, s, hrp, data, cs);
  }

  lemma DecodesWith(K: Codec, C: Checksums.Code<bv32>, s: string, hrp: string, data: seq<byte>)
    requires hrp != "" && Lawful(K)
    requires forall cs {:trigger CarriesIn(K, s, hrp, data, cs)} ::
               Carries(C, s, hrp, data, cs) <==> CarriesIn(K, s, hrp, data, cs)
    ensures Decoded(K, s) == (hrp, data) <==> exists cs :: Carries(C, s, hrp, data, cs)
  {
    if Decoded(K, s) == (hrp, data) {
      DecodedCarries(K, s, hrp, data);
    }
    if cs :| Carries(C, s, hrp, data, cs) {
      assert CarriesIn(K, s, hrp, data, cs);
      CarriesDecoded(K, s, hrp, data, cs);
    }
  }

  /** Exactly which strings are decoded as which prefix and data: the characters of the data
      and of six more values that bring the checksum over the expanded prefix to one. */
  lemma DecodesIff(s: string, hrp: string, data: seq<byte>)
    requires hrp != ""
    ensures Decoded(BECH32, s) == (hrp, data) <==> exists cs :: Carries(BECH, s, hrp, data, cs)
  {
    Bech32Lawful();
    forall cs ensures Carries(BECH, s, hrp, data, cs) <==> CarriesIn(BECH32, s, hrp, data, cs) {
      CarriesIff(s, hrp, data, cs);
    }
    DecodesWith(BECH32, BECH, s, hrp, data);
  }

  lemma EncodingParts(K: Codec, hrp: string, values: seq<byte>, s: string) returns (cs: seq<byte>)
    requires Lawful(K) && IsEncoding(K, hrp, values, s)
    ensures |cs| == 6 && FiveBit(values + cs) && s == hrp + "1" + Chars(K, values + cs)
    ensures K.verifies(Expand(hrp) + (values + cs))
  {
    ExpandFiveBit(hrp);
    cs :| |cs| == 6 && FiveBit(cs) && K.checks(Expand(hrp) + values, cs) && s == hrp + "1" + Chars(K, values + cs);
    assert Expand(hrp) + values + cs == Expand(hrp) + (values + cs);
  }

  /** Prefix, separator and the characters of data and checksum. */
  ghost predicate Spelled(C: Checksums.Code<bv32>, s: string, hrp: string, data: seq<byte>, cs: seq<byte>) {
    |cs| == 6 && FiveBit(data + cs) && s == hrp + "1" + Spelling(data + cs) && IsOne(C, hrp, data + cs)
  }

  /** What Encode writes, whatever the prefix. */
  lemma EncodingSpelled(hrp: string, values: seq<byte>, s: string)
    requires IsEncoding(BECH32, hrp, values, s)
    ensures exists cs :: Spelled(BECH, s, hrp, values, cs)
  {
    Bech32Lawful();
    var cs := EncodingParts(BECH32, hrp, values, s);
    SpellingIs(values + cs);
    BechOneIff(hrp, values + cs);
    assert Spelled(BECH, s, hrp, values, cs);
  }

  // ---- A test vector of BIP 173 ----

  /** A string without data. */
  lemma CarriesNone(C: Checksums.Code<bv32>, s: string, hrp: string, none: seq<byte>, v: seq<byte>, e: seq<byte>)
    requires none == [] && |v| == 6 && FiveBit(v) && Consists(s, hrp, Spelling(v)) && IsExpansion(hrp, e)
    requires Checksums.Fold(C, 1, Widen(e + v)) == 1
    ensures Carries(C, s, hrp, none, v)
  {
    assert none + v == v;
  }

  /** The parts of the vector. */
  lemma VectorParts(s: string, hrp: string, v: seq<byte>, e: seq<byte>)
    requires s == "A12UEL5L" && hrp == "a" && v == [10, 28, 25, 31, 20, 31] && e == [3, 0, 1]
    ensures FiveBit(v) && Consists(s, hrp, Spelling(v)) && IsExpansion(hrp, e) && e + v == VALUES
  {
    assert Spelling(v) == "2uel5l";
    assert Lower(s) == hrp + "1" + "2uel5l" && Printable(s) && !HasLower(s);
  }

  lemma VectorCarries(C: Checksums.Code<bv32>, s: string, hrp: string, none: seq<byte>)
    requires s == "A12UEL5L" && hrp == "a" && none == []
    requires Checksums.Fold(C, 1, Widen(VALUES)) == 1
    ensures exists cs :: Carries(C, s, hrp, none, cs)
  {
    var v: seq<byte>, e: seq<byte> := [10, 28, 25, 31, 20, 31], [3, 0, 1];
    VectorParts(s, hrp, v, e);
    CarriesNone(C, s, hrp, none, v, e);
  }

  /** A12UEL5L, of BIP 173, is decoded as the prefix a without data. */
  lemma TestVector(s: string, hrp: string, none: seq<byte>)
    requires s == "A12UEL5L" && hrp == "a" && none == []
    ensures Decoded(BECH32, s) == (hrp, none)
  {
    VectorVerifies();
    VectorCarries(BECH, s, hrp, none);
    DecodesIff(s, hrp, none);
  }
}
