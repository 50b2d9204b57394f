/**
 serialize.h: variable-length integers. The encoding is a bijection between the numbers of
 a type and the terminated byte strings the reader accepts; the reader refuses a string
 exactly when its value exceeds the type's maximum.
 */
module VarInts {
  import opened Wrappers
  import opened Radix
  import opened DataStreams

  /** The number a big-endian string of 7-bit digits encodes; one is subtracted from all
      but the last digit. */
  function Number(ds: seq<nat>): nat
    requires ds != []
  {
    var n := |ds| - 1;
    if n == 0 then ds[0] else (Number(ds[..n]) + 1) * 128 + ds[n]
  }

  function DigitsOf(n: nat): (ds: seq<nat>)
    ensures ds != [] && Digits(128, ds)
  {
    if n < 128 then [n] else DigitsOf(n / 128 - 1) + [n % 128]
  }

  /** The high bit says that another digit follows. */
  function Spell(ds: seq<nat>): (bs: seq<byte>)
    requires Digits(128, ds)
    ensures |bs| == |ds|
  {
    if ds == [] then [] else if |ds| == 1 then [ds[0]] else [ds[0] + 128] + Spell(ds[1..])
  }

  ghost predicate Terminated(bs: seq<byte>) {
    bs != [] && bs[|bs| - 1] < 128 && forall i :: 0 <= i < |bs| - 1 ==> bs[i] >= 128
  }

  function DigitsIn(bs: seq<byte>): (ds: seq<nat>)
    ensures |ds| == |bs| && Digits(128, ds)
  {
    if bs == [] then [] else DigitsIn(bs[..|bs| - 1]) + [bs[|bs| - 1] % 128]
  }

  // ---- Numbers and digit strings correspond ----

  lemma {:induction false} NumberOfDigits(n: nat)
    ensures Number(DigitsOf(n)) == n
  {
    if n >= 128 {
      var hi := DigitsOf(n / 128 - 1);
      NumberOfDigits(n / 128 - 1);
      assert (hi + [n % 128])[..|hi|] == hi;
    }
  }

  lemma SplitDigit(q: nat, d: nat)
    requires d < 128
    ensures var n := (q + 1) * 128 + d; n >= 128 && n / 128 - 1 == q && n % 128 == d
  {
  }

  lemma {:induction false} DigitsOfNumber(ds: seq<nat>)
    requires ds != [] && Digits(128, ds)
    ensures DigitsOf(Number(ds)) == ds
  {
    var n := |ds| - 1;
    if n == 0 {
      assert ds == [ds[0]];
    } else {
      var q, d: nat := Number(ds[..n]), ds[n];
      SplitDigit(q, d);
      DigitsOfNumber(ds[..n]);
      assert ds == ds[..n] + [d];
    }
  }

  lemma {:induction false} DigitsInSpell(ds: seq<nat>)
    requires ds != [] && Digits(128, ds)
    ensures Terminated(Spell(ds)) && DigitsIn(Spell(ds)) == ds
  {
    SpellIs(ds);
    DigitsInIs(Spell(ds));
  }

  lemma {:induction false} SpellIs(ds: seq<nat>)
    requires Digits(128, ds)
    ensures forall i :: 0 <= i < |ds| ==> Spell(ds)[i] == if i < |ds| - 1 then ds[i] + 128 else ds[i]
  {
    if |ds| > 1 {
      SpellIs(ds[1..]);
    }
  }

  lemma {:induction false} DigitsInIs(bs: seq<byte>)
    ensures forall i :: 0 <= i < |bs| ==> DigitsIn(bs)[i] == bs[i] % 128
  {
    if bs != [] {
      DigitsInIs(bs[..|bs| - 1]);
    }
  }

  lemma SpellDigitsIn(bs: seq<byte>)
    requires Terminated(bs)
    ensures Spell(DigitsIn(bs)) == bs
  {
    DigitsInIs(bs);
    SpellIs(DigitsIn(bs));
  }

  function Encoded(n: nat): (bs: seq<byte>)
    ensures bs != []
  {
    Spell(DigitsOf(n))
  }

  /** The number a byte string spells, high bits disregarded. */
  function ValueOf(bs: seq<byte>): nat
    requires bs != []
  {
    var n := |bs| - 1;
    (if n == 0 then 0 else ValueOf(bs[..n]) + 1) * 128 + bs[n] % 128
  }

  lemma {:induction false} ValueIsNumber(bs: seq<byte>)
    requires bs != []
    ensures ValueOf(bs) == Number(DigitsIn(bs))
  {
    var n := |bs| - 1;
    assert DigitsIn(bs) == DigitsIn(bs[..n]) + [bs[n] % 128];
    if n > 0 {
      ValueIsNumber(bs[..n]);
      assert DigitsIn(bs)[..n] == DigitsIn(bs[..n]);
    }
  }

  /** The sum over i from 1 to k of 128^i times one more than the digit i places from the end. */
  function DigitSum(bs: seq<byte>, k: nat): nat
    requires k < |bs|
  {
    if k == 0 then 0 else DigitSum(bs, k - 1) + Pow(128, k) * (bs[|bs| - 1 - k] % 128 + 1)
  }

  lemma {:induction false} DigitSumShift(bs: seq<byte>, k: nat)
    requires k + 1 < |bs|
    ensures var front := bs[..|bs| - 1];
      DigitSum(bs, k + 1) == 128 * (bs[|bs| - 2] % 128 + 1 + DigitSum(front, k))
  {
    var front := bs[..|bs| - 1];
    if k > 0 {
      DigitSumShift(bs, k - 1);
      assert bs[|bs| - 1 - (k + 1)] == front[|front| - 1 - k];
      PowNext(k, front[|front| - 1 - k] % 128 + 1);
    } else {
      assert Pow(128, 1) == 128 * Pow(128, 0) == 128;
    }
  }

  lemma PowNext(k: nat, d: nat)
    ensures Pow(128, k + 1) * d == 128 * (Pow(128, k) * d)
  {
  }

  /** The number is the sum of the digits by their powers of 128, with one added to all but
      the last. */
  lemma {:induction false} ValueIsSum(bs: seq<byte>)
    requires bs != []
    ensures ValueOf(bs) == bs[|bs| - 1] % 128 + DigitSum(bs, |bs| - 1)
  {
    if |bs| > 1 {
      ValueIsSum(bs[..|bs| - 1]);
      DigitSumShift(bs, |bs| - 2);
    }
  }

  /** Encoding and reading are inverse bijections between numbers and terminated strings. */
  lemma ValueOfEncoded(n: nat)
    ensures Terminated(Encoded(n)) && ValueOf(Encoded(n)) == n
  {
    DigitsInSpell(DigitsOf(n));
    NumberOfDigits(n);
    ValueIsNumber(Encoded(n));
  }

  lemma EncodedOfValue(bs: seq<byte>)
    requires Terminated(bs)
    ensures Encoded(ValueOf(bs)) == bs
  {
    ValueIsNumber(bs);
    DigitsOfNumber(DigitsIn(bs));
    SpellDigitsIn(bs);
  }

  lemma SumOfTerminated(bs: seq<byte>, last: byte)
    requires bs != [] && last == bs[|bs| - 1] < 0x80
    ensures ValueOf(bs) == last as nat + DigitSum(bs, |bs| - 1)
  {
    ValueIsSum(bs);
  }

  /** The bytes that spell n: all but the last have the high bit, and n is the sum of their low
      bits by powers of 128, with one added to all but the last. */
  lemma EncodedIff(n: nat, bs: seq<byte>)
    ensures bs == Encoded(n) <==>
      && bs != [] && bs[|bs| - 1] < 0x80 && (forall i :: 0 <= i < |bs| - 1 ==> bs[i] >= 0x80)
      && n == bs[|bs| - 1] as nat + DigitSum(bs, |bs| - 1)
  {
    ValueOfEncoded(n);
    if Terminated(bs) {
      EncodedOfValue(bs);
      SumOfTerminated(bs, bs[|bs| - 1]);
    }
  }

  lemma TwoBytes(n: nat, bs: seq<byte>)
    requires |bs| == 2 && bs[0] >= 0x80 && bs[1] < 0x80 && n == (bs[0] - 0x7F) as nat * 128 + bs[1] as nat
    ensures bs == Encoded(n)
  {
    EncodedIff(n, bs);
    assert Pow(128, 1) == 128 * Pow(128, 0) == 128;
    assert DigitSum(bs, 0) == 0;
    assert DigitSum(bs, 1) == DigitSum(bs, 0) + Pow(128, 1) * (bs[0] % 128 + 1);
  }

  lemma OneByte(b: byte)
    requires b < 0x80
    ensures Encoded(b) == [b]
  {
    EncodedIff(b, [b]);
  }

  /** Examples of the documentation. */
  lemma Examples()
    ensures Encoded(0) == [0x00] && Encoded(1) == [0x01] && Encoded(127) == [0x7F]
    ensures Encoded(128) == [0x80, 0x00] && Encoded(255) == [0x80, 0x7F] && Encoded(256) == [0x81, 0x00]
    ensures Encoded(16383) == [0xFE, 0x7F] && Encoded(16511) == [0xFF, 0x7F]
  {
    OneByte(0);
    OneByte(1);
    OneByte(127);
    TwoBytes(128, [0x80, 0x00]);
    TwoBytes(255, [0x80, 0x7F]);
    TwoBytes(256, [0x81, 0x00]);
    TwoBytes(16383, [0xFE, 0x7F]);
    TwoBytes(16511, [0xFF, 0x7F]);
  }

  // ---- Types ----

  /** An unsigned type, or a signed one holding nonnegative numbers, of so many bytes. */
  datatype Integral = Integral(size: nat, signed: bool)
  {
    function ValueBits(): nat
      requires size > 0
    {
      size * 8 - if signed then 1 else 0
    }

    /** std::numeric_limits<I>::max() */
    function Max(): nat
      requires size > 0
    {
      PowPositive(2, ValueBits());
      Pow(2, ValueBits()) - 1
    }

    function TmpLength(): nat {
      (size * 8 + 6) / 7
    }
  }

  /** The maxima of the integer types. */
  lemma Maxima()
    ensures Integral(1, false).Max() == 0xFF && Integral(2, false).Max() == 0xFFFF
    ensures Integral(4, false).Max() == 0xFFFF_FFFF && Integral(8, false).Max() == 0xFFFF_FFFF_FFFF_FFFF
    ensures Integral(4, true).Max() == 0x7FFF_FFFF && Integral(8, true).Max() == 0x7FFF_FFFF_FFFF_FFFF
  {
    Twos();
    assert Integral(1, false).ValueBits() == 8 && Integral(2, false).ValueBits() == 16;
    assert Integral(4, false).ValueBits() == 32 && Integral(8, false).ValueBits() == 64;
    assert Integral(4, true).ValueBits() == 31 && Integral(8, true).ValueBits() == 63;
  }

  lemma Twos()
    ensures Pow(2, 8) == 0x100 && Pow(2, 16) == 0x1_0000 && Pow(2, 32) == 0x1_0000_0000
    ensures Pow(2, 64) == 0x1_0000_0000_0000_0000
    ensures Pow(2, 31) == 0x8000_0000 && Pow(2, 63) == 0x8000_0000_0000_0000
  {
    assert Pow(2, 4) == 16;
    PowAdd(2, 4, 4);
    PowAdd(2, 8, 8);
    PowAdd(2, 16, 16);
    PowAdd(2, 32, 32);
    assert Pow(2, 32) == 2 * Pow(2, 31) && Pow(2, 64) == 2 * Pow(2, 63);
  }

  lemma {:induction false} DigitsFit(n: nat, k: nat)
    requires k > 0 && n < Pow(128, k)
    ensures |DigitsOf(n)| <= k
  {
    if n >= 128 {
      assert Pow(128, k) == 128 * Pow(128, k - 1) && Pow(128, 0) == 1;
      DigitsFit(n / 128 - 1, k - 1);
    }
  }

  /** The temporary buffer always suffices. */
  lemma TmpSuffices(t: Integral, n: nat)
    requires t.size > 0 && n <= t.Max()
    ensures |DigitsOf(n)| <= t.TmpLength()
  {
    var k := t.TmpLength();
    PowMonotone(2, t.ValueBits(), 7 * k);
    PowMul(2, 7, k);
    assert Pow(2, 7) == 128;
    DigitsFit(n, k);
  }

  /** Before shifting, `n <= max >> 7` says exactly that the shifted number is in range. */
  lemma ShiftGuard(t: Integral, n: nat)
    requires t.size > 0
    ensures n <= t.Max() / 128 ==> n * 128 + 127 <= t.Max()
    ensures n > t.Max() / 128 ==> n * 128 > t.Max()
  {
    var b := t.ValueBits();
    PowPositive(2, b - 7);
    var q := Pow(2, b - 7);
    assert t.Max() == 128 * q - 1 by {
      PowAdd(2, 7, b - 7);
      assert Pow(2, 7) == 128;
    }
    assert t.Max() / 128 == q - 1;
  }

  // ---- The code ----

  method GetSizeOfVarInt(t: Integral, value: nat) returns (size: nat)
    requires t.size > 0 && value <= t.Max()
    ensures size == |Encoded(value)|
  {
    var n: nat := value;
    size := 0;
    while true
      invariant n <= value && size + |DigitsOf(n)| == |DigitsOf(value)|
      decreases n
    {
      size := size + 1;
      if n <= 0x7F {
        break;
      }
      n := n / 128 - 1;
    }
  }

  /** The buffer after k digits, least significant first. */
  ghost predicate Filled(tmp: array<byte>, bs: seq<byte>, k: nat)
    reads tmp
  {
    k <= |bs| <= tmp.Length && forall j :: 0 <= j < k ==> tmp[j] == bs[|bs| - 1 - j]
  }

  /** The digits are peeled off from the end of the encoding. */
  lemma Peel(value: nat, n: nat, len: nat)
    requires |DigitsOf(n)| + len == |DigitsOf(value)| && DigitsOf(n) == DigitsOf(value)[..|DigitsOf(n)|]
    ensures Encoded(value)[|DigitsOf(n)| - 1] == n % 128 + if len == 0 then 0 else 128
    ensures n >= 128 ==>
      var m := DigitsOf(n / 128 - 1); |m| + 1 == |DigitsOf(n)| && m == DigitsOf(value)[..|m|]
  {
    SpellIs(DigitsOf(value));
    if n >= 128 {
      var m := DigitsOf(n / 128 - 1);
      assert DigitsOf(n)[..|m|] == m;
    }
  }

  method FillTmp(tmp: array<byte>, value: nat) returns (len: nat)
    requires |DigitsOf(value)| <= tmp.Length
    modifies tmp
    ensures len + 1 == |Encoded(value)| && Filled(tmp, Encoded(value), |Encoded(value)|)
  {
    var n: nat := value;
    len := 0;
    while true
      invariant |DigitsOf(n)| + len == |DigitsOf(value)| && DigitsOf(n) == DigitsOf(value)[..|DigitsOf(n)|]
      invariant Filled(tmp, Encoded(value), len)
      decreases n
    {
      Peel(value, n, len);
      tmp[len] := n % 128 + if len != 0 then 0x80 else 0;
      if n <= 0x7F {
        break;
      }
      n := n / 128 - 1;
      len := len + 1;
    }
  }

  method WriteVarInt(t: Integral, dst: DataStream, value: nat)
    requires t.size > 0 && value <= t.Max() && dst.Valid()
    modifies dst
    ensures dst.Valid() && dst.Unread() == old(dst.Unread()) + Encoded(value)
  {
    TmpSuffices(t, value);
    var tmp := new byte[t.TmpLength()](_ => 0);
    var len := FillTmp(tmp, value);
    ghost var bs := Encoded(value);
    while true
      invariant 0 <= len < |bs| && Filled(tmp, bs, |bs|)
      invariant dst.Valid() && dst.Unread() == old(dst.Unread()) + bs[..|bs| - 1 - len]
      decreases len
    {
      assert bs[..|bs| - len] == bs[..|bs| - 1 - len] + [tmp[len]];
      dst.Write([tmp[len]]);
      if len == 0 {
        break;
      }
      len := len - 1;
    }
    assert bs[..|bs|] == bs;
  }

  /** Where the first byte without the high bit is, if any. */
  function Stop(s: seq<byte>): (k: nat)
    ensures k <= |s|
  {
    if s == [] || s[0] < 128 then 0 else 1 + Stop(s[1..])
  }

  lemma {:induction false} StopTerminates(s: seq<byte>)
    requires Stop(s) < |s|
    ensures Terminated(s[..Stop(s) + 1])
  {
    if s[0] >= 128 {
      StopTerminates(s[1..]);
      assert s[..Stop(s) + 1] == [s[0]] + s[1..][..Stop(s)];
    }
  }

  function Upto(max: nat, n: nat): Result<nat> {
    if n <= max then Ok(n) else Thrown
  }

  /** What reading a number of at most max gives. */
  ghost function ReadFrom(max: nat, s: seq<byte>): Result<nat> {
    if Stop(s) < |s| then Upto(max, ValueOf(s[..Stop(s) + 1])) else Thrown
  }

  /** The accumulator after k bytes with the high bit. */
  ghost function Accumulated(s: seq<byte>, k: nat): nat
    requires k <= |s|
  {
    if k == 0 then 0 else ValueOf(s[..k]) + 1
  }

  lemma AccumulateNext(s: seq<byte>, k: nat)
    requires k < |s|
    ensures ValueOf(s[..k + 1]) == Accumulated(s, k) * 128 + s[k] % 128
  {
    assert s[..k + 1][..k] == s[..k];
  }

  lemma {:induction false} ValueGrows(s: seq<byte>, j: nat, k: nat)
    requires 0 < j <= k <= |s|
    ensures ValueOf(s[..j]) + k - j <= ValueOf(s[..k])
  {
    if j < k {
      ValueGrows(s, j, k - 1);
      AccumulateNext(s, k - 1);
    }
  }

  lemma {:induction false} StopAfter(s: seq<byte>, k: nat)
    requires k < |s| && k <= Stop(s)
    ensures s[k] < 128 <==> k == Stop(s)
  {
    if k > 0 {
      StopAfter(s[1..], k - 1);
    }
  }

  /** A byte without the high bit ends the number. */
  lemma ReadLast(max: nat, s: seq<byte>, k: nat)
    requires k < |s| && k <= Stop(s) && s[k] < 128
    ensures k == Stop(s) && ReadFrom(max, s) == Upto(max, Accumulated(s, k) * 128 + s[k] % 128)
  {
    StopAfter(s, k);
    AccumulateNext(s, k);
    ReadFromAt(max, s, k, Accumulated(s, k) * 128 + s[k] % 128);
  }

  lemma ReadFromAt(max: nat, s: seq<byte>, k: nat, v: nat)
    requires k == Stop(s) < |s| && v == ValueOf(s[..k + 1])
    ensures ReadFrom(max, s) == Upto(max, v)
  {
  }

  lemma TooLarge(max: nat, s: seq<byte>, v: nat)
    requires Stop(s) < |s| ==> v == ValueOf(s[..Stop(s) + 1]) && v > max
    ensures ReadFrom(max, s) == Thrown
  {
    if Stop(s) < |s| {
      ReadFromAt(max, s, Stop(s), v);
    }
  }

  /** A byte with the high bit continues it. */
  lemma ReadMore(s: seq<byte>, k: nat)
    requires k < |s| && k <= Stop(s) && s[k] >= 128
    ensures k < Stop(s) && Accumulated(s, k + 1) == Accumulated(s, k) * 128 + s[k] % 128 + 1
  {
    StopAfter(s, k);
    AccumulateNext(s, k);
  }

  /** The number is at least what its beginning makes it. */
  lemma ReadTooLarge(max: nat, s: seq<byte>, k: nat)
    requires k <= |s| && k <= Stop(s) && Accumulated(s, k) > max
    ensures ReadFrom(max, s) == Thrown
  {
    if Stop(s) < |s| {
      ValueGrows(s, k, Stop(s) + 1);
    }
    TooLarge(max, s, if Stop(s) < |s| then ValueOf(s[..Stop(s) + 1]) else 0);
  }

  /** So it is when the beginning cannot be shifted. */
  lemma ReadUnshiftable(max: nat, s: seq<byte>, k: nat)
    requires k < |s| && k <= Stop(s) && Accumulated(s, k) * 128 > max
    ensures ReadFrom(max, s) == Thrown
  {
    AccumulateNext(s, k);
    if Stop(s) < |s| {
      ValueGrows(s, k + 1, Stop(s) + 1);
    }
    TooLarge(max, s, if Stop(s) < |s| then ValueOf(s[..Stop(s) + 1]) else 0);
  }

  /** The number so far, with what a following digit adds at least, exceeds the maximum. */
  ghost predicate Over(max: nat, s: seq<byte>, k: nat)
    requires k < |s|
  {
    ValueOf(s[..k + 1]) + (if s[k] >= 128 then 1 else 0) > max
  }

  /** The first byte from k on with which the number is over the maximum, if any. */
  ghost function FirstOver(max: nat, s: seq<byte>, k: nat): (j: nat)
    requires k <= |s|
    ensures k <= j <= |s| && (j < |s| ==> Over(max, s, j))
    ensures forall i :: k <= i < j ==> !Over(max, s, i)
    decreases |s| - k
  {
    if k == |s| || Over(max, s, k) then k else FirstOver(max, s, k + 1)
  }

  /** What a refusal leaves: all behind the byte with which the number got too large. */
  ghost function Refused(max: nat, s: seq<byte>): seq<byte> {
    var k := FirstOver(max, s, 0);
    if k < |s| then s[k + 1..] else []
  }

  lemma OverIs(t: Integral, s: seq<byte>, k: nat)
    requires t.size > 0 && k < |s|
    ensures var max, n := t.Max(), Accumulated(s, k);
      Over(max, s, k) <==> n > max / 128 || (s[k] >= 128 && n * 128 + s[k] % 128 == max)
  {
    AccumulateNext(s, k);
    ShiftGuard(t, Accumulated(s, k));
  }

  /** What the loop makes of one byte: the end of the number, a refusal, or a longer beginning. */
  method ReadByte(t: Integral, n: nat, chData: byte, ghost s: seq<byte>, ghost k: nat)
    returns (done: bool, r: Result<nat>, n': nat)
    requires t.size > 0 && k < |s| && k <= Stop(s) && chData == s[k] && n == Accumulated(s, k) <= t.Max()
    ensures done ==> r == ReadFrom(t.Max(), s) && if r.Ok? then k == Stop(s) else Over(t.Max(), s, k)
    ensures !done ==> k + 1 <= Stop(s) && n' == Accumulated(s, k + 1) <= t.Max() && !Over(t.Max(), s, k)
  {
    ShiftGuard(t, n);
    OverIs(t, s, k);
    n' := n;
    if n > t.Max() / 128 {
      ReadUnshiftable(t.Max(), s, k);
      return true, Thrown, n';
    }
    n' := n * 128 + chData % 128;
    if chData >= 128 {
      ReadMore(s, k);
      if n' == t.Max() {
        ReadTooLarge(t.Max(), s, k + 1);
        return true, Thrown, n';
      }
      done, r, n' := false, Thrown, n' + 1;
    } else {
      ReadLast(t.Max(), s, k);
      return true, Ok(n'), n';
    }
  }

  method ReadVarInt(t: Integral, src: DataStream) returns (r: Result<nat>)
    requires t.size > 0 && src.Valid()
    modifies src
    ensures src.Valid() && r == ReadFrom(t.Max(), old(src.Unread()))
    ensures src.Unread() ==
      if r.Ok? then old(src.Unread())[Stop(old(src.Unread())) + 1..] else Refused(t.Max(), old(src.Unread()))
  {
    var n: nat := 0;
    ghost var s := src.Unread();
    ghost var k: nat := 0;
    while true
      invariant k <= Stop(s) && src.Valid() && src.Unread() == s[k..]
      invariant n == Accumulated(s, k) <= t.Max() && FirstOver(t.Max(), s, 0) == FirstOver(t.Max(), s, k)
      decreases |s| - k
    {
      var data := src.Read(1);
      if data.Thrown? {
        return Thrown;
      }
      assert data.value[0] == s[k] && s[k..][1..] == s[k + 1..];
      var done, result, next := ReadByte(t, n, data.value[0], s, k);
      if done {
        return result;
      }
      n, k := next, k + 1;
    }
  }

  /** Reading back what was written, whatever follows. */
  lemma ReadEncoded(max: nat, n: nat, rest: seq<byte>)
    requires n <= max
    ensures ReadFrom(max, Encoded(n) + rest) == Ok(n) && Stop(Encoded(n) + rest) + 1 == |Encoded(n)|
  {
    var bs := Encoded(n);
    var s := bs + rest;
    ValueOfEncoded(n);
    StopOf(bs, rest);
    assert s[..|bs|] == bs;
  }

  lemma {:induction false} StopOf(bs: seq<byte>, rest: seq<byte>)
    requires Terminated(bs)
    ensures Stop(bs + rest) + 1 == |bs|
  {
    if |bs| > 1 {
      StopOf(bs[1..], rest);
      assert (bs + rest)[1..] == bs[1..] + rest;
    }
  }

  /** An accepted string is the encoding of the number read from it. */
  lemma ReadIsEncoded(max: nat, s: seq<byte>)
    requires ReadFrom(max, s).Ok?
    ensures s == Encoded(ReadFrom(max, s).value) + s[Stop(s) + 1..]
  {
    StopTerminates(s);
    EncodedOfValue(s[..Stop(s) + 1]);
  }
}
