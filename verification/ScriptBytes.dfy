/** The standard scripts written out in bytes, and the solver's answer for exactly these. */
module ScriptBytes {
  import opened Wrappers
  import opened Radix
  import opened Wire
  import opened Scripts

  // ---- Keys and pushes ----

  /** A compressed, uncompressed or hybrid public key by its size and first byte. */
  ghost predicate IsKey(k: Bytes) {
    || (|k| == 33 && (k[0] == 2 || k[0] == 3))
    || (|k| == 65 && (k[0] == 4 || k[0] == 6 || k[0] == 7))
  }

  lemma KeyIff(k: Bytes)
    ensures ValidSize(k) <==> IsKey(k)
  {
  }

  /** The four pushes of a key. */
  ghost predicate KeyPush(p: Bytes, k: Bytes) {
    || p == [|k|] + k
    || p == [0x4c, |k|] + k
    || p == [0x4d, |k|, 0] + k
    || p == [0x4e, |k|, 0, 0, 0] + k
  }

  /** An operation of a data carrier: OP_1NEGATE to OP_16, or a push. */
  ghost predicate CarrierOp(p: Bytes) {
    || (|p| == 1 && 0x4f <= p[0] <= 0x60)
    || (|p| >= 1 && p[0] <= 0x4b && |p| == 1 + p[0] as int)
    || (|p| >= 2 && p[0] == 0x4c && |p| == 2 + p[1] as int)
    || (|p| >= 3 && p[0] == 0x4d && |p| == 3 + p[1] as int + 0x100 * p[2] as int)
    || (|p| >= 5 && p[0] == 0x4e &&
        |p| == 5 + p[1] as int + 0x100 * p[2] as int + 0x1_0000 * p[3] as int + 0x100_0000 * p[4] as int)
  }

  function Concat(ps: seq<Bytes>): Bytes {
    if ps == [] then [] else ps[0] + Concat(ps[1..])
  }

  ghost predicate KeyPushes(ps: seq<Bytes>, keys: seq<Bytes>) {
    |ps| == |keys| && forall i :: 0 <= i < |keys| ==> IsKey(keys[i]) && KeyPush(ps[i], keys[i])
  }

  ghost predicate CarrierOps(ps: seq<Bytes>) {
    forall i :: 0 <= i < |ps| ==> CarrierOp(ps[i])
  }

  // ---- The templates ----

  /** m, the keys, n and CHECKMULTISIG with 1 <= m <= n <= 16. */
  ghost predicate MultisigBytes(s: Bytes, m: nat, keys: seq<Bytes>) {
    1 <= m <= |keys| <= 16 &&
    exists ps {:trigger KeyPushes(ps, keys)} ::
      KeyPushes(ps, keys) && s == [0x50 + m] + Concat(ps) + [0x50 + |keys|, 0xae]
  }

  ghost predicate CarrierBytes(s: Bytes) {
    exists ps {:trigger CarrierOps(ps)} :: CarrierOps(ps) && s == [0x6a] + Concat(ps)
  }

  /** The bytes of a script of a type, and what it is solved to. */
  ghost predicate Written(s: Bytes, kind: TxnOutType, sols: seq<Bytes>) {
    match kind
    case NonStandard => false
    case PubKey => |sols| == 1 && IsKey(sols[0]) && s == [|sols[0]|] + sols[0] + [0xac]
    case PubKeyHash => |sols| == 1 && |sols[0]| == 20 && s == [0x76, 0xa9, 0x14] + sols[0] + [0x88, 0xac]
    case ScriptHash => |sols| == 1 && |sols[0]| == 20 && s == [0xa9, 0x14] + sols[0] + [0x87]
    case WitnessV0KeyHash => |sols| == 1 && |sols[0]| == 20 && s == [0x00, 0x14] + sols[0]
    case WitnessV0ScriptHash => |sols| == 1 && |sols[0]| == 32 && s == [0x00, 0x20] + sols[0]
    case WitnessUnknown =>
      |sols| == 2 && |sols[0]| == 1 && 1 <= sols[0][0] <= 16 && 2 <= |sols[1]| <= 40 &&
      s == [0x50 + sols[0][0], |sols[1]|] + sols[1]
    case NullData => sols == [] && CarrierBytes(s)
    case MultiSig =>
      |sols| >= 2 && |sols[0]| == 1 && |sols| - 2 <= 16 && sols[|sols| - 1] == [|sols| - 2] &&
      MultisigBytes(s, sols[0][0], sols[1..|sols| - 1])
  }

  // ---- Pushes of keys ----

  lemma LeSmall(w: nat, n: byte)
    ensures LeBytes(1, n) == [n] && LeBytes(2, n) == [n, 0] && LeBytes(4, n) == [n, 0, 0, 0]
  {
    assert LeBytes(1, 0) == [0] && LeBytes(3, 0) == [0, 0, 0];
  }

  /** Some opcode pushes a key of this length in this way. */
  lemma PushIff(p: Bytes, k: Bytes)
    requires |k| == 33 || |k| == 65
    ensures KeyPush(p, k) <==> exists c: byte :: PushOk(c, k) && p == Push(c, k)
  {
    LeSmall(0, |k|);
    Pow256();
    assert Pow(256, 1) == 256;
    assert [|k|] + ([] + k) == [|k|] + k;
    assert [0x4c] + ([|k|] + k) == [0x4c, |k|] + k;
    assert [0x4d] + ([|k|, 0] + k) == [0x4d, |k|, 0] + k;
    assert [0x4e] + ([|k|, 0, 0, 0] + k) == [0x4e, |k|, 0, 0, 0] + k;
    if KeyPush(p, k) {
      var c: byte := if p == [|k|] + k then |k| else if p == [0x4c, |k|] + k then 0x4c
                     else if p == [0x4d, |k|, 0] + k then 0x4d else 0x4e;
      assert PushOk(c, k) && p == Push(c, k);
    }
  }

  lemma ConcatCons(first: Bytes, rest: seq<Bytes>)
    ensures Concat([first] + rest) == first + Concat(rest)
  {
    assert ([first] + rest)[1..] == rest;
  }

  lemma {:induction false} CodesSpelled(codes: seq<byte>, keys: seq<Bytes>) returns (ps: seq<Bytes>)
    requires KeysOk(codes, keys)
    ensures KeyPushes(ps, keys) && Concat(ps) == Pushes(codes, keys)
  {
    ps := [];
    if keys != [] {
      var more := CodesSpelled(codes[1..], keys[1..]);
      KeyIff(keys[0]);
      PushIff(Push(codes[0], keys[0]), keys[0]);
      ps := [Push(codes[0], keys[0])] + more;
      ConcatCons(Push(codes[0], keys[0]), more);
      forall i | 0 <= i < |keys| ensures IsKey(keys[i]) && KeyPush(ps[i], keys[i]) {
        assert i > 0 ==> keys[i] == keys[1..][i - 1] && ps[i] == more[i - 1];
      }
    }
  }

  lemma {:induction false} PushesCoded(ps: seq<Bytes>, keys: seq<Bytes>) returns (codes: seq<byte>)
    requires KeyPushes(ps, keys)
    ensures KeysOk(codes, keys) && Concat(ps) == Pushes(codes, keys)
  {
    codes := [];
    if keys != [] {
      var more := PushesCoded(ps[1..], keys[1..]);
      KeyIff(keys[0]);
      PushIff(ps[0], keys[0]);
      var c: byte :| PushOk(c, keys[0]) && ps[0] == Push(c, keys[0]);
      codes := [c] + more;
      ConsKeys(c, keys[0], more, keys[1..]);
      assert [keys[0]] + keys[1..] == keys;
    }
  }

  lemma MultisigText(m: nat, n: nat, body: Bytes)
    requires m <= 16 && n <= 16
    ensures [0x50 + m] + body + [0x50 + n, 0xae] == [0x50 + m] + (body + [0x50 + n, 0xae])
  {
  }

  lemma MultisigBytesIff(s: Bytes, m: nat, keys: seq<Bytes>)
    ensures IsMultisig(s, m, keys) <==> MultisigBytes(s, m, keys)
  {
    if IsMultisig(s, m, keys) {
      var codes :| KeysOk(codes, keys) && s == Scripts.MultisigText(m, codes, keys);
      var ps := CodesSpelled(codes, keys);
      MultisigText(m, |keys|, Concat(ps));
    }
    if MultisigBytes(s, m, keys) {
      var ps :| KeyPushes(ps, keys) && s == [0x50 + m] + Concat(ps) + [0x50 + |keys|, 0xae];
      var codes := PushesCoded(ps, keys);
      MultisigText(m, |keys|, Concat(ps));
    }
  }

  // ---- Data carriers ----

  /** An operation of a carrier is parsed up to its end ... */
  lemma CarrierParses(p: Bytes, r: Bytes)
    requires CarrierOp(p)
    ensures ParseOp(p + r).Some? && ParseOp(p + r).value.0 <= OP_16 && ParseOp(p + r).value.2 == r
  {
    var t := p + r;
    assert t[1..] == p[1..] + r;
    if p[0] <= 0x4b || p[0] > 0x4e {
      assert t[1..][|p| - 1..] == r;
    } else {
      LengthAt(p, r);
      var w := Width(p[0]);
      assert t[1..][w + (|p| - 1 - w)..] == r;
    }
  }

  /** The length that follows an opcode. */
  lemma LengthAt(p: Bytes, r: Bytes)
    requires |p| >= 1 && Width(p[0]) > 0 && |p| >= 1 + Width(p[0])
    ensures LeValue((p + r)[1..][..Width(p[0])]) ==
      if p[0] == 0x4c then p[1] as int
      else if p[0] == 0x4d then p[1] as int + 0x100 * p[2] as int
      else p[1] as int + 0x100 * p[2] as int + 0x1_0000 * p[3] as int + 0x100_0000 * p[4] as int
  {
    var bs := (p + r)[1..][..Width(p[0])];
    if p[0] == 0x4c {
      LeCons(p[1], []);
      assert bs == [p[1]] + [];
    } else if p[0] == 0x4d {
      LeFour(p[1], p[2], 0, 0);
      assert bs == [p[1], p[2]];
    } else {
      LeFour(p[1], p[2], p[3], p[4]);
      assert bs == [p[1], p[2], p[3], p[4]];
    }
  }

  /** ... and what is parsed as one is one. */
  lemma ParsedCarrier(t: Bytes) returns (p: Bytes)
    requires ParseOp(t).Some? && ParseOp(t).value.0 <= OP_16
    ensures CarrierOp(p) && t == p + ParseOp(t).value.2
  {
    var r := ParseOp(t).value.2;
    p := t[..|t| - |r|];
    if t[0] <= OP_PUSHDATA4 {
      var w := Width(t[0]);
      var n := if w == 0 then t[0] as nat else LeValue(t[1..][..w]);
      assert r == t[1..][w + n..];
      assert |p| == 1 + w + n && t == p + r;
      if w > 0 {
        LengthAt(p, r);
      }
    }
  }

  lemma ShorterRest(t: Bytes)
    requires ParseOp(t).Some?
    ensures |ParseOp(t).value.2| < |t|
  {
  }

  lemma {:induction false} PushesCarried(t: Bytes) returns (ps: seq<Bytes>)
    requires AllPushes(t)
    ensures CarrierOps(ps) && t == Concat(ps)
    decreases |t|
  {
    ps := [];
    if t != [] {
      var r := ParseOp(t).value.2;
      var p := ParsedCarrier(t);
      var more := PushesCarried(r);
      ps := [p] + more;
      ConcatCons(p, more);
    }
  }

  lemma {:induction false} CarriedPushes(ps: seq<Bytes>)
    requires CarrierOps(ps)
    ensures AllPushes(Concat(ps))
  {
    if ps != [] {
      CarriedPushes(ps[1..]);
      CarrierParses(ps[0], Concat(ps[1..]));
      ShorterRest(Concat(ps));
    }
  }

  lemma CarrierBytesIff(s: Bytes)
    ensures IsNullData(s) <==> CarrierBytes(s)
  {
    if IsNullData(s) {
      var ps := PushesCarried(s[1..]);
      assert s == [s[0]] + s[1..];
    }
    if CarrierBytes(s) {
      var ps :| CarrierOps(ps) && s == [0x6a] + Concat(ps);
      assert s[1..] == Concat(ps);
      CarriedPushes(ps);
    }
  }

  // ---- The solver ----

  lemma StandardWritten(s: Bytes, kind: TxnOutType, sols: seq<Bytes>)
    ensures Standard(s, kind, sols) <==> Written(s, kind, sols)
  {
    match kind
    case PubKey => if |sols| == 1 { KeyIff(sols[0]); }
    case NullData => CarrierBytesIff(s);
    case MultiSig =>
      if |sols| >= 2 && |sols[0]| == 1 {
        MultisigBytesIff(s, sols[0][0], sols[1..|sols| - 1]);
      }
    case _ =>
  }

  /** The solver answers with a type and solutions exactly for the scripts of these bytes, and
      with none exactly for all others. */
  lemma SolverBytes(s: Bytes, kind: TxnOutType, sols: seq<Bytes>)
    requires Answer(s, kind, sols)
    ensures forall k, x :: k != NonStandard ==> (kind == k && sols == x <==> Written(s, k, x))
    ensures kind == NonStandard <==> forall k, x :: !Written(s, k, x)
  {
    forall k, x ensures Standard(s, k, x) <==> Written(s, k, x) {
      StandardWritten(s, k, x);
    }
    forall k, x | k != NonStandard ensures kind == k && sols == x <==> Written(s, k, x) {
      SolverIff(s, kind, sols, k, x);
    }
  }

  /** A pay-to-pubkey script of any data is one exactly if the data is a key. */
  lemma PubKeyIff(s: Bytes, kind: TxnOutType, sols: seq<Bytes>, k: Bytes)
    requires |k| < 256 && s == [|k|] + k + [0xac] && Answer(s, kind, sols)
    ensures kind == PubKey && sols == [k] <==> IsKey(k)
  {
    SolverBytes(s, kind, sols);
    assert Written(s, PubKey, [k]) <==> IsKey(k);
  }
}
