/**
 script.cpp: the opcode parser and the script templates. The multisig matcher recognises an
 exact language, and no script matches two templates.
 */
module Scripts {
  import opened Wrappers
  import opened Radix
  import opened Wire

  const OP_0: byte := 0x00
  const OP_PUSHDATA1: byte := 0x4c
  const OP_PUSHDATA2: byte := 0x4d
  const OP_PUSHDATA4: byte := 0x4e
  const OP_1: byte := 0x51
  const OP_16: byte := 0x60
  const OP_RETURN: byte := 0x6a
  const OP_DUP: byte := 0x76
  const OP_EQUAL: byte := 0x87
  const OP_EQUALVERIFY: byte := 0x88
  const OP_HASH160: byte := 0xa9
  const OP_CHECKSIG: byte := 0xac
  const OP_CHECKMULTISIG: byte := 0xae
  const OP_INVALIDOPCODE: byte := 0xff

  // ---- One operation ----

  /** How many bytes of length follow a push opcode. */
  function Width(c: byte): nat {
    if c == OP_PUSHDATA1 then 1 else if c == OP_PUSHDATA2 then 2 else if c == OP_PUSHDATA4 then 4 else 0
  }

  /** An operation at the start of a script: opcode, pushed data and what follows. */
  function ParseOp(t: seq<byte>): Option<(byte, seq<byte>, seq<byte>)> {
    if t == [] then None
    else if t[0] > OP_PUSHDATA4 then Some((t[0], [], t[1..]))
    else ParsePush(t[0], t[1..])
  }

  function ParsePush(c: byte, r: seq<byte>): Option<(byte, seq<byte>, seq<byte>)> {
    var w := Width(c);
    if |r| < w then None else
      var n := if w == 0 then c else LeValue(r[..w]);
      if |r| - w < n then None else Some((c, r[w..w + n], r[w + n..]))
  }

  /** The push of k with opcode c. */
  function Push(c: byte, k: seq<byte>): seq<byte> {
    [c] + (LeBytes(Width(c), |k|) + k)
  }

  predicate PushOk(c: byte, k: seq<byte>) {
    c <= OP_PUSHDATA4 && if Width(c) == 0 then |k| == c else |k| < Pow(256, Width(c))
  }

  lemma PushParses(c: byte, k: seq<byte>, r: seq<byte>)
    requires PushOk(c, k)
    ensures ParseOp(Push(c, k) + r) == Some((c, k, r))
  {
    var w := Width(c);
    var t := Push(c, k) + r;
    assert t[1..] == LeBytes(w, |k|) + k + r;
    if w != 0 {
      LeValueOfBytes(w, |k|);
      assert t[1..][..w] == LeBytes(w, |k|);
    }
    assert t[1..][w..w + |k|] == k && t[1..][w + |k|..] == r;
  }

  lemma ParsedPush(t: seq<byte>)
    requires ParseOp(t).Some? && ParseOp(t).value.0 <= OP_PUSHDATA4
    ensures var (c, k, r) := ParseOp(t).value; PushOk(c, k) && t == Push(c, k) + r
  {
    var (c, k, r) := ParseOp(t).value;
    var w := Width(c);
    var s := t[1..];
    assert t == [c] + s;
    LeBytesOfValue(s[..w]);
    assert s == s[..w] + k + r;
  }

  /** GetScriptOp: on success the iterator moves behind the operation. */
  method GetScriptOp(s: seq<byte>, pc: nat) returns (ok: bool, pc': nat, opcode: byte, data: seq<byte>)
    requires pc <= |s|
    ensures pc <= pc' <= |s| && (ok <==> ParseOp(s[pc..]).Some?)
    ensures ok ==> ParseOp(s[pc..]) == Some((opcode, data, s[pc'..])) && pc < pc'
    ensures !ok ==> opcode == OP_INVALIDOPCODE && data == []
  {
    pc' := pc;
    if pc >= |s| {
      return false, pc', OP_INVALIDOPCODE, [];
    }
    opcode := s[pc'];
    pc' := pc' + 1;
    data := [];
    assert s[pc..][1..] == s[pc'..];
    if opcode <= OP_PUSHDATA4 {
      ok, pc', data := GetPush(s, pc', opcode);
      if !ok {
        opcode := OP_INVALIDOPCODE;
      }
      return;
    }
    ok := true;
  }

  /** The length, if it is given apart, and the data. */
  method GetPush(s: seq<byte>, pc: nat, opcode: byte) returns (ok: bool, pc': nat, data: seq<byte>)
    requires pc <= |s| && opcode <= OP_PUSHDATA4
    ensures pc <= pc' <= |s| && (ok <==> ParsePush(opcode, s[pc..]).Some?)
    ensures ok ==> ParsePush(opcode, s[pc..]) == Some((opcode, data, s[pc'..]))
    ensures !ok ==> data == []
  {
    pc' := pc;
    data := [];
    var nSize: nat := 0;
    var w := Width(opcode);
    if opcode < OP_PUSHDATA1 {
      nSize := opcode;
    } else {
      if |s| - pc' < w {
        return false, pc', [];
      }
      nSize := LeValue(s[pc'..pc' + w]);
      pc' := pc' + w;
      assert s[pc..][..w] == s[pc..pc + w];
    }
    if |s| - pc' < nSize {
      return false, pc', [];
    }
    data := s[pc'..pc' + nSize];
    assert s[pc..][w..w + nSize] == data && s[pc..][w + nSize..] == s[pc' + nSize..];
    pc' := pc' + nSize;
    ok := true;
  }

  /** Only pushes up to the end; OP_RESERVED counts as one. */
  predicate AllPushes(t: seq<byte>)
    decreases |t|
  {
    t == [] ||
    match ParseOp(t)
    case None => false
    case Some((c, _, r)) => |r| < |t| && c <= OP_16 && AllPushes(r)
  }

  method IsPushOnly(s: seq<byte>, start: nat) returns (r: bool)
    requires start <= |s|
    ensures r == AllPushes(s[start..])
  {
    var pc := start;
    while pc < |s|
      invariant pc <= |s| && AllPushes(s[start..]) == AllPushes(s[pc..])
    {
      var ok, next, opcode, _ := GetScriptOp(s, pc);
      if !ok {
        return false;
      }
      if opcode > OP_16 {
        return false;
      }
      pc := next;
    }
    r := true;
  }

  // ---- Keys and multisig ----

  function GetLen(header: byte): nat {
    if header == 2 || header == 3 then 33
    else if header == 4 || header == 6 || header == 7 then 65
    else 0
  }

  predicate ValidSize(k: seq<byte>) {
    |k| > 0 && GetLen(k[0]) == |k|
  }

  predicate IsSmallInteger(c: byte) {
    0x51 <= c <= 0x60
  }

  function DecodeOpN(c: byte): nat
    requires c == OP_0 || IsSmallInteger(c)
  {
    if c == OP_0 then 0 else c - 0x50
  }

  function Pushes(codes: seq<byte>, keys: seq<seq<byte>>): seq<byte>
    requires |codes| == |keys|
  {
    if keys == [] then [] else Push(codes[0], keys[0]) + Pushes(codes[1..], keys[1..])
  }

  ghost predicate KeysOk(codes: seq<byte>, keys: seq<seq<byte>>) {
    |codes| == |keys| && forall i :: 0 <= i < |keys| ==> ValidSize(keys[i]) && PushOk(codes[i], keys[i])
  }

  /** OP_m, the keys in any push form, OP_n, OP_CHECKMULTISIG with 1 <= m <= n <= 16. */
  ghost predicate IsMultisig(s: seq<byte>, m: nat, keys: seq<seq<byte>>) {
    1 <= m <= |keys| <= 16 &&
    exists codes {:trigger KeysOk(codes, keys)} :: KeysOk(codes, keys) && s == MultisigText(m, codes, keys)
  }

  function MultisigText(m: nat, codes: seq<byte>, keys: seq<seq<byte>>): seq<byte>
    requires |codes| == |keys| <= 16 && m <= 16
  {
    [0x50 + m] + (Pushes(codes, keys) + [0x50 + |keys|, OP_CHECKMULTISIG])
  }

  /** The keys pushed from here on, and what follows them. */
  function KeyRun(t: seq<byte>): (seq<seq<byte>>, seq<byte>)
    decreases |t|
  {
    match ParseOp(t)
    case None => ([], t)
    case Some((c, k, r)) =>
      if |r| < |t| && ValidSize(k) then
        var (keys, u) := KeyRun(r);
        ([k] + keys, u)
      else ([], t)
  }

  function Multisig(s: seq<byte>): Option<(nat, seq<seq<byte>>)> {
    if s == [] || s[|s| - 1] != OP_CHECKMULTISIG then None else
      match ParseOp(s)
      case None => None
      case Some((c, _, t)) =>
        if !IsSmallInteger(c) then None else
          MultisigRest(DecodeOpN(c), t)
  }

  function MultisigRest(m: nat, t: seq<byte>): Option<(nat, seq<seq<byte>>)> {
    var (keys, u) := KeyRun(t);
    match ParseOp(u)
    case None => None
    case Some((c, _, v)) =>
      if IsSmallInteger(c) && |keys| == DecodeOpN(c) && m <= |keys| && |v| == 1 then Some((m, keys)) else None
  }

  method MatchMultisig(s: seq<byte>) returns (r: Option<(nat, seq<seq<byte>>)>)
    ensures r == Multisig(s)
  {
    if |s| < 1 || s[|s| - 1] != OP_CHECKMULTISIG {
      return None;
    }
    assert s[0..] == s;
    var ok, it, opcode, data := GetScriptOp(s, 0);
    if !ok || !IsSmallInteger(opcode) {
      return None;
    }
    var required := DecodeOpN(opcode);
    r := MatchKeys(s, it, required);
  }

  function After(keys: seq<seq<byte>>, d: (seq<seq<byte>>, seq<byte>)): (seq<seq<byte>>, seq<byte>) {
    (keys + d.0, d.1)
  }

  lemma AfterNone(d: (seq<seq<byte>>, seq<byte>))
    ensures After([], d) == d
  {
    assert [] + d.0 == d.0;
  }

  lemma AfterNext(keys: seq<seq<byte>>, k: seq<byte>, d: (seq<seq<byte>>, seq<byte>))
    ensures After(keys, ([k] + d.0, d.1)) == After(keys + [k], d)
  {
    assert keys + ([k] + d.0) == keys + [k] + d.0;
  }

  lemma AfterAll(keys: seq<seq<byte>>, u: seq<byte>)
    ensures After(keys, ([], u)) == (keys, u)
  {
    assert keys + [] == keys;
  }

  method MatchKeys(s: seq<byte>, start: nat, required: nat) returns (r: Option<(nat, seq<seq<byte>>)>)
    requires start <= |s|
    ensures r == MultisigRest(required, s[start..])
  {
    var pubkeys: seq<seq<byte>> := [];
    var ok, it, opcode, data := GetScriptOp(s, start);
    ghost var from := start;
    AfterNone(KeyRun(s[start..]));
    while ok && ValidSize(data)
      invariant from <= it <= |s| && (ok <==> ParseOp(s[from..]).Some?)
      invariant ok ==> ParseOp(s[from..]) == Some((opcode, data, s[it..])) && from < it
      invariant !ok ==> opcode == OP_INVALIDOPCODE
      invariant KeyRun(s[start..]) == After(pubkeys, KeyRun(s[from..]))
      decreases |s| - from
    {
      AfterNext(pubkeys, data, KeyRun(s[it..]));
      pubkeys := pubkeys + [data];
      from := it;
      ok, it, opcode, data := GetScriptOp(s, it);
    }
    AfterAll(pubkeys, s[from..]);
    if !IsSmallInteger(opcode) {
      return None;
    }
    var keys := DecodeOpN(opcode);
    if |pubkeys| != keys || keys < required {
      return None;
    }
    if it + 1 != |s| {
      return None;
    }
    r := Some((required, pubkeys));
  }

  /** t is some pushes of these keys, then u. */
  ghost predicate Spells(t: seq<byte>, keys: seq<seq<byte>>, u: seq<byte>) {
    exists codes {:trigger KeysOk(codes, keys)} :: KeysOk(codes, keys) && t == Pushes(codes, keys) + u
  }

  /** What the key loop reads, as text. */
  lemma {:induction false} KeyRunText(t: seq<byte>)
    ensures Spells(t, KeyRun(t).0, KeyRun(t).1)
    decreases |t|
  {
    if KeyRun(t).0 == [] {
      assert KeysOk([], []) && t == Pushes([], []) + t;
    } else {
      var (c, k, r) := ParseOp(t).value;
      KeyRunText(r);
      ParsedPush(t);
      SpellsCons(t, c, k, r, KeyRun(r).0, KeyRun(r).1);
    }
  }

  lemma SpellsCons(t: seq<byte>, c: byte, k: seq<byte>, r: seq<byte>, ks: seq<seq<byte>>, u: seq<byte>)
    requires PushOk(c, k) && t == Push(c, k) + r && ValidSize(k) && Spells(r, ks, u)
    ensures Spells(t, [k] + ks, u)
  {
    var codes :| KeysOk(codes, ks) && r == Pushes(codes, ks) + u;
    ConsKeys(c, k, codes, ks);
    Concat(Push(c, k), Pushes(codes, ks), u);
    assert KeysOk([c] + codes, [k] + ks);
  }

  lemma Concat(a: seq<byte>, b: seq<byte>, c: seq<byte>)
    ensures a + (b + c) == a + b + c
  {
  }

  lemma ConsKeys(c: byte, k: seq<byte>, codes: seq<byte>, ks: seq<seq<byte>>)
    requires ValidSize(k) && PushOk(c, k) && KeysOk(codes, ks)
    ensures KeysOk([c] + codes, [k] + ks) && Pushes([c] + codes, [k] + ks) == Push(c, k) + Pushes(codes, ks)
  {
    assert ([c] + codes)[1..] == codes && ([k] + ks)[1..] == ks;
  }

  lemma {:induction false} TextKeyRun(codes: seq<byte>, keys: seq<seq<byte>>, u: seq<byte>)
    requires KeysOk(codes, keys) && KeyRun(u) == ([], u)
    ensures KeyRun(Pushes(codes, keys) + u) == (keys, u)
  {
    if keys == [] {
      assert Pushes(codes, keys) + u == u;
    } else {
      var rest := Pushes(codes[1..], keys[1..]) + u;
      assert Pushes(codes, keys) + u == Push(codes[0], keys[0]) + rest;
      PushParses(codes[0], keys[0], rest);
      TextKeyRun(codes[1..], keys[1..], u);
      assert keys == [keys[0]] + keys[1..];
    }
  }

  /** The matcher recognises exactly the multisig scripts. */
  lemma MultisigIff(s: seq<byte>, m: nat, keys: seq<seq<byte>>)
    ensures Multisig(s) == Some((m, keys)) <==> IsMultisig(s, m, keys)
  {
    if Multisig(s) == Some((m, keys)) {
      MultisigSound(s, m, keys);
    }
    if IsMultisig(s, m, keys) {
      var codes :| KeysOk(codes, keys) && s == MultisigText(m, codes, keys);
      MultisigComplete(m, codes, keys);
    }
  }

  lemma RestSound(m: nat, t: seq<byte>, keys: seq<seq<byte>>)
    requires MultisigRest(m, t) == Some((m, keys))
    ensures m <= |keys| <= 16 && t != [] && Spells(t, keys, [0x50 + |keys|, t[|t| - 1]])
  {
    var u := KeyRun(t).1;
    KeyRunText(t);
    assert u == [0x50 + |keys|, u[1]];
    SpellsEnd(t, keys, u);
  }

  lemma SpellsEnd(t: seq<byte>, keys: seq<seq<byte>>, u: seq<byte>)
    requires Spells(t, keys, u) && u != []
    ensures |t| >= |u| && t[|t| - 1] == u[|u| - 1]
  {
  }

  lemma MultisigSound(s: seq<byte>, m: nat, keys: seq<seq<byte>>)
    requires Multisig(s) == Some((m, keys))
    ensures IsMultisig(s, m, keys)
  {
    var t := s[1..];
    RestSound(m, t, keys);
    SpellsMultisig(s, m, t, keys);
  }

  lemma SpellsMultisig(s: seq<byte>, m: nat, t: seq<byte>, keys: seq<seq<byte>>)
    requires 1 <= m <= |keys| <= 16 && Spells(t, keys, [0x50 + |keys|, OP_CHECKMULTISIG])
    requires s != [] && s[0] == 0x50 + m && s[1..] == t
    ensures IsMultisig(s, m, keys)
  {
    var codes :| KeysOk(codes, keys) && t == Pushes(codes, keys) + [0x50 + |keys|, OP_CHECKMULTISIG];
    assert s == [s[0]] + t;
    assert s == MultisigText(m, codes, keys);
  }

  lemma RestComplete(m: nat, codes: seq<byte>, keys: seq<seq<byte>>)
    requires 1 <= m <= |keys| <= 16 && KeysOk(codes, keys)
    ensures MultisigRest(m, Pushes(codes, keys) + [0x50 + |keys|, OP_CHECKMULTISIG]) == Some((m, keys))
  {
    var u: seq<byte> := [0x50 + |keys|, OP_CHECKMULTISIG];
    assert u[1..] == [OP_CHECKMULTISIG];
    assert KeyRun(u) == ([], u);
    TextKeyRun(codes, keys, u);
  }

  lemma MultisigComplete(m: nat, codes: seq<byte>, keys: seq<seq<byte>>)
    requires 1 <= m <= |keys| <= 16 && KeysOk(codes, keys)
    ensures Multisig(MultisigText(m, codes, keys)) == Some((m, keys))
  {
    var t := Pushes(codes, keys) + [0x50 + |keys|, OP_CHECKMULTISIG];
    var s := MultisigText(m, codes, keys);
    assert s[0] == 0x50 + m && s[1..] == t && s[|s| - 1] == OP_CHECKMULTISIG;
    assert ParseOp(s) == Some((s[0], [], t));
    RestComplete(m, codes, keys);
  }

  // ---- Templates ----

  datatype TxnOutType =
    | NonStandard
    | PubKey
    | PubKeyHash
    | ScriptHash
    | MultiSig
    | NullData
    | WitnessV0ScriptHash
    | WitnessV0KeyHash
    | WitnessUnknown

  type Bytes = seq<byte>

  ghost predicate IsScriptHash(s: Bytes, h: Bytes) {
    |h| == 20 && s == [OP_HASH160, 20] + h + [OP_EQUAL]
  }

  /** A witness program (BIP 141, section "Witness program"). */
  ghost predicate IsWitness(s: Bytes, version: nat, program: Bytes) {
    version <= 16 && 2 <= |program| <= 40 && s == [if version == 0 then 0 else 0x50 + version, |program|] + program
  }

  ghost predicate IsNullData(s: Bytes) {
    s != [] && s[0] == OP_RETURN && AllPushes(s[1..])
  }

  ghost predicate IsPubKey(s: Bytes, k: Bytes) {
    ValidSize(k) && s == [|k|] + k + [OP_CHECKSIG]
  }

  ghost predicate IsPubKeyHash(s: Bytes, h: Bytes) {
    |h| == 20 && s == [OP_DUP, OP_HASH160, 20] + h + [OP_EQUALVERIFY, OP_CHECKSIG]
  }

  /** The standard types and what the solver is to return for each. */
  ghost predicate Standard(s: Bytes, kind: TxnOutType, sols: seq<Bytes>) {
    match kind
    case NonStandard => false
    case ScriptHash => |sols| == 1 && IsScriptHash(s, sols[0])
    case WitnessV0KeyHash => |sols| == 1 && |sols[0]| == 20 && IsWitness(s, 0, sols[0])
    case WitnessV0ScriptHash => |sols| == 1 && |sols[0]| == 32 && IsWitness(s, 0, sols[0])
    case WitnessUnknown => |sols| == 2 && |sols[0]| == 1 && sols[0][0] != 0 && IsWitness(s, sols[0][0], sols[1])
    case NullData => sols == [] && IsNullData(s)
    case PubKey => |sols| == 1 && IsPubKey(s, sols[0])
    case PubKeyHash => |sols| == 1 && IsPubKeyHash(s, sols[0])
    case MultiSig =>
      |sols| >= 2 && |sols[0]| == 1 && |sols| - 2 <= 16 && sols[|sols| - 1] == [|sols| - 2]
      && IsMultisig(s, sols[0][0], sols[1..|sols| - 1])
  }

  /** The opcode a script starts with tells the templates apart, but for witness programs and
      multisig, which are told apart by their length. */
  datatype Family = HashFamily | WitnessFamily | DataFamily | KeyFamily | KeyHashFamily | MultiFamily | NoFamily

  function FamilyOf(s: Bytes): Family {
    if |s| < 2 then (if s == [OP_RETURN] then DataFamily else NoFamily)
    else if s[0] == OP_HASH160 then HashFamily
    else if (s[0] == 0 || IsSmallInteger(s[0])) && |s| <= 42 && |s| - 2 == s[1] then WitnessFamily
    else if IsSmallInteger(s[0]) then MultiFamily
    else if s[0] == OP_RETURN then DataFamily
    else if s[0] == 33 || s[0] == 65 then KeyFamily
    else if s[0] == OP_DUP then KeyHashFamily
    else NoFamily
  }

  lemma PushFirst(c: byte, k: Bytes)
    requires PushOk(c, k) && ValidSize(k)
    ensures Push(c, k)[0] == c && |Push(c, k)| > |k| && (c < OP_PUSHDATA1 ==> |k| == c)
  {
  }

  lemma MultisigFamily(s: Bytes, m: nat, keys: seq<Bytes>)
    requires IsMultisig(s, m, keys)
    ensures FamilyOf(s) == MultiFamily
  {
    var codes :| KeysOk(codes, keys) && s == MultisigText(m, codes, keys);
    PushFirst(codes[0], keys[0]);
    var rest := Pushes(codes[1..], keys[1..]) + [0x50 + |keys|, OP_CHECKMULTISIG];
    assert s == [0x50 + m] + (Push(codes[0], keys[0]) + rest);
    assert s[1] == codes[0];
    assert |s| >= 1 + |Push(codes[0], keys[0])| + 2;
  }

  function KindFamily(kind: TxnOutType): Family {
    match kind
    case NonStandard => NoFamily
    case ScriptHash => HashFamily
    case WitnessV0KeyHash => WitnessFamily
    case WitnessV0ScriptHash => WitnessFamily
    case WitnessUnknown => WitnessFamily
    case NullData => DataFamily
    case PubKey => KeyFamily
    case PubKeyHash => KeyHashFamily
    case MultiSig => MultiFamily
  }

  lemma StandardFamily(s: Bytes, kind: TxnOutType, sols: seq<Bytes>)
    requires Standard(s, kind, sols)
    ensures FamilyOf(s) == KindFamily(kind)
  {
    if kind == MultiSig {
      MultisigFamily(s, sols[0][0], sols[1..|sols| - 1]);
    }
  }

  lemma WitnessUnique(s: Bytes, v: nat, p: Bytes, w: nat, q: Bytes)
    requires IsWitness(s, v, p) && IsWitness(s, w, q)
    ensures v == w && p == q
  {
    assert s[0] == if v == 0 then 0 else 0x50 + v;
    assert s[0] == if w == 0 then 0 else 0x50 + w;
    assert s[2..] == p && s[2..] == q;
  }

  lemma MultisigUnique(s: Bytes, a: seq<Bytes>, b: seq<Bytes>)
    requires Standard(s, MultiSig, a) && Standard(s, MultiSig, b)
    ensures a == b
  {
    MultisigIff(s, a[0][0], a[1..|a| - 1]);
    MultisigIff(s, b[0][0], b[1..|b| - 1]);
    assert a[0] == [a[0][0]] && b[0] == [b[0][0]];
    assert a == [[a[0][0]]] + a[1..|a| - 1] + [[|a| - 2]];
    assert b == [[b[0][0]]] + b[1..|b| - 1] + [[|b| - 2]];
  }

  lemma SameKind(s: Bytes, kind: TxnOutType, a: seq<Bytes>, b: seq<Bytes>)
    requires Standard(s, kind, a) && Standard(s, kind, b)
    ensures a == b
  {
    match kind
    case ScriptHash => assert s[2..22] == a[0] == b[0];
    case WitnessV0KeyHash => WitnessUnique(s, 0, a[0], 0, b[0]);
    case WitnessV0ScriptHash => WitnessUnique(s, 0, a[0], 0, b[0]);
    case WitnessUnknown =>
      WitnessUnique(s, a[0][0], a[1], b[0][0], b[1]);
      assert a[0] == [a[0][0]] && b[0] == [b[0][0]];
    case NullData =>
    case PubKey => assert s[1..|s| - 1] == a[0] == b[0];
    case PubKeyHash => assert s[3..23] == a[0] == b[0];
    case MultiSig => MultisigUnique(s, a, b);
  }

  lemma WitnessKinds(s: Bytes, j: TxnOutType, a: seq<Bytes>, k: TxnOutType, b: seq<Bytes>)
    requires Standard(s, j, a) && Standard(s, k, b) && KindFamily(j) == KindFamily(k) == WitnessFamily
    ensures j == k
  {
    var (v, p) := if j == WitnessUnknown then (a[0][0], a[1]) else (0, a[0]);
    var (w, q) := if k == WitnessUnknown then (b[0][0], b[1]) else (0, b[0]);
    WitnessUnique(s, v, p, w, q);
  }

  /** No script matches two templates, or one template in two ways. */
  lemma TemplatesDisjoint(s: Bytes, j: TxnOutType, a: seq<Bytes>, k: TxnOutType, b: seq<Bytes>)
    requires Standard(s, j, a) && Standard(s, k, b)
    ensures j == k && a == b
  {
    StandardFamily(s, j, a);
    StandardFamily(s, k, b);
    if KindFamily(j) == WitnessFamily {
      WitnessKinds(s, j, a, k, b);
    }
    SameKind(s, j, a, b);
  }

  // ---- The matchers ----

  predicate IsPayToScriptHash(s: Bytes) {
    |s| == 23 && s[0] == OP_HASH160 && s[1] == 0x14 && s[22] == OP_EQUAL
  }

  lemma ScriptHashIff(s: Bytes)
    ensures IsPayToScriptHash(s) <==> exists h :: IsScriptHash(s, h)
    ensures IsPayToScriptHash(s) ==> IsScriptHash(s, s[2..22])
  {
    if IsPayToScriptHash(s) {
      assert s == [OP_HASH160, 20] + s[2..22] + [OP_EQUAL];
      assert IsScriptHash(s, s[2..22]);
    }
  }

  method IsWitnessProgram(s: Bytes) returns (r: Option<(nat, Bytes)>)
    ensures r.Some? ==> IsWitness(s, r.value.0, r.value.1)
    ensures r.None? ==> forall v, p :: !IsWitness(s, v, p)
  {
    if |s| < 4 || |s| > 42 {
      return None;
    }
    if s[0] != OP_0 && (s[0] < OP_1 || s[0] > OP_16) {
      return None;
    }
    if |s| - 2 == s[1] {
      assert s == [s[0], s[1]] + s[2..];
      return Some((DecodeOpN(s[0]), s[2..]));
    }
    r := None;
  }

  method MatchPayToPubkey(s: Bytes) returns (r: Option<Bytes>)
    ensures r.Some? ==> IsPubKey(s, r.value)
    ensures r.None? ==> forall k :: !IsPubKey(s, k)
  {
    if |s| == 67 && s[0] == 65 && s[|s| - 1] == OP_CHECKSIG {
      r := Some(s[1..66]);
    } else if |s| == 35 && s[0] == 33 && s[|s| - 1] == OP_CHECKSIG {
      r := Some(s[1..34]);
    } else {
      return None;
    }
    assert s == [s[0]] + r.value + [OP_CHECKSIG];
    forall k | s == [|k|] + k + [OP_CHECKSIG] ensures k == r.value {
      assert s[1..|s| - 1] == k;
    }
    if !ValidSize(r.value) {
      r := None;
    }
  }

  method MatchPayToPubkeyHash(s: Bytes) returns (r: Option<Bytes>)
    ensures r.Some? ==> IsPubKeyHash(s, r.value)
    ensures r.None? ==> forall h :: !IsPubKeyHash(s, h)
  {
    if |s| == 25 && s[0] == OP_DUP && s[1] == OP_HASH160 && s[2] == 20
       && s[23] == OP_EQUALVERIFY && s[24] == OP_CHECKSIG
    {
      assert s == [OP_DUP, OP_HASH160, 20] + s[3..23] + [OP_EQUALVERIFY, OP_CHECKSIG];
      return Some(s[3..23]);
    }
    r := None;
  }

  /** The answer the solver owes: the one template that matches, or none. */
  ghost predicate Answer(s: Bytes, kind: TxnOutType, sols: seq<Bytes>) {
    if kind == NonStandard then sols == [] && forall k, x :: !Standard(s, k, x) else Standard(s, kind, sols)
  }

  method Solver(s: Bytes) returns (kind: TxnOutType, sols: seq<Bytes>)
    ensures Answer(s, kind, sols)
  {
    ScriptHashIff(s);
    if IsPayToScriptHash(s) {
      return ScriptHash, [s[2..22]];
    }
    var w := IsWitnessProgram(s);
    if w.Some? {
      kind, sols := SolveWitness(s, w.value.0, w.value.1);
      return;
    }
    kind, sols := SolveRest(s);
  }

  method SolveWitness(s: Bytes, version: nat, program: Bytes) returns (kind: TxnOutType, sols: seq<Bytes>)
    requires IsWitness(s, version, program)
    ensures Answer(s, kind, sols)
  {
    if version == 0 && |program| == 20 {
      return WitnessV0KeyHash, [program];
    }
    if version == 0 && |program| == 32 {
      return WitnessV0ScriptHash, [program];
    }
    if version != 0 {
      return WitnessUnknown, [[version], program];
    }
    forall k, x ensures !Standard(s, k, x) {
      OddWitness(s, program, k, x);
    }
    return NonStandard, [];
  }

  lemma ZeroWitness(s: Bytes, program: Bytes, k: TxnOutType, x: seq<Bytes>)
    requires IsWitness(s, 0, program) && Standard(s, k, x)
    ensures |program| == 20 || |program| == 32
  {
    StandardFamily(s, k, x);
    var (w, q) := if k == WitnessUnknown then (x[0][0], x[1]) else (0, x[0]);
    WitnessUnique(s, 0, program, w, q);
  }

  lemma OddWitness(s: Bytes, program: Bytes, k: TxnOutType, x: seq<Bytes>)
    requires IsWitness(s, 0, program) && |program| != 20 && |program| != 32
    ensures !Standard(s, k, x)
  {
    if Standard(s, k, x) {
      ZeroWitness(s, program, k, x);
    }
  }

  method SolveRest(s: Bytes) returns (kind: TxnOutType, sols: seq<Bytes>)
    requires (forall h :: !IsScriptHash(s, h)) && forall v, p :: !IsWitness(s, v, p)
    ensures Answer(s, kind, sols)
  {
    if |s| >= 1 && s[0] == OP_RETURN {
      var pushes := IsPushOnly(s, 1);
      if pushes {
        return NullData, [];
      }
    }
    var data := MatchPayToPubkey(s);
    if data.Some? {
      return PubKey, [data.value];
    }
    data := MatchPayToPubkeyHash(s);
    if data.Some? {
      return PubKeyHash, [data.value];
    }
    var multi := MatchMultisig(s);
    if multi.Some? {
      var (required, keys) := multi.value;
      MultisigIff(s, required, keys);
      sols := [[required]] + keys + [[|keys|]];
      assert sols[1..|sols| - 1] == keys;
      return MultiSig, sols;
    }
    forall m, keys ensures !IsMultisig(s, m, keys) {
      MultisigIff(s, m, keys);
    }
    return NonStandard, [];
  }

  /** The solver returns a standard type and solutions exactly for the scripts of that template. */
  lemma SolverIff(s: Bytes, kind: TxnOutType, sols: seq<Bytes>, k: TxnOutType, x: seq<Bytes>)
    requires Answer(s, kind, sols) && k != NonStandard
    ensures kind == k && sols == x <==> Standard(s, k, x)
  {
    if Standard(s, k, x) {
      TemplatesDisjoint(s, kind, sols, k, x);
    }
  }
}
