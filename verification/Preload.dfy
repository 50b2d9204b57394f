/**
 TXODB.cxx: PreLoadBlocks as a protocol. Worker threads claim block files under a lock; each
 block is one write transaction, redone from the start when the map is full; a second pass
 goes over the files again. Whatever the interleaving and the aborts, the committed
 database is the union of the committed blocks.
 */
module Preload {
  import opened Wrappers
  import opened Index

  /** The files, what was committed before the preload, and the number of workers. */
  datatype Config = Config(files: seq<seq<Blk>>, before: set<Blk>, workers: nat)

  /** The next put of the transaction of a block. */
  datatype Pc = AtHeader | AtAddr(i: nat, j: nat) | AtTxo(i: nat, j: nat) | AtEnd

  datatype Thread =
    | Fetch
    | Ready(todo: seq<Blk>)
    | Writing(todo: seq<Blk>, pc: Pc, working: Db)
    | Done
    | Dead

  datatype State = State(mode: nat, pos: nat, threads: seq<Thread>, committed: Db, log: seq<Blk>)

  datatype Action =
    | Claim(t: nat)
    | Finish(t: nat)
    | FileEnd(t: nat)
    | Begin(t: nat)
    | Put(t: nat)
    | Full(t: nat)
    | Commit(t: nat)
    | NextPass

  // ---- Steps ----

  /** Where the loops over transactions and outputs go on. */
  function Next(b: Blk, i: nat, j: nat): Pc
    decreases |b.txs| - i
  {
    if i >= |b.txs| then AtEnd
    else if j < |b.txs[i].outs| then AtAddr(i, j)
    else Next(b, i + 1, 0)
  }

  predicate PcOk(b: Blk, pc: Pc) {
    (pc.AtAddr? || pc.AtTxo?) ==> pc.i < |b.txs| && pc.j < |b.txs[pc.i].outs|
  }

  /** One put that finds room: the new position and the new working copy, or a refusal. */
  function PutStep(mode: nat, b: Blk, pc: Pc, w: Db): Option<(Pc, Db)>
    requires PcOk(b, pc)
  {
    match pc
    case AtEnd => None
    case AtHeader => Some((if mode == 1 then AtEnd else Next(b, 0, 0), AddHeader(w, b)))
    case AtAddr(i, j) =>
      var p := PairOf(b.txs[i], j);
      if p in w.addr then Some((Next(b, i, j + 1), w)) else Some((AtTxo(i, j), w.(addr := w.addr + {p})))
    case AtTxo(i, j) =>
      var r := Rec(j, b.txs[i].outs[j].value);
      if Appends(w.txo, b.txs[i].id, r)
      then Some((Next(b, i, j + 1), w.(txo := Append(w.txo, b.txs[i].id, r)))) else None
  }

  predicate Locked(s: State) {
    exists t :: 0 <= t < |s.threads| && s.threads[t].Writing?
  }

  function With(s: State, t: nat, x: Thread): State
    requires t < |s.threads|
  {
    s.(threads := s.threads[t := x])
  }

  predicate AllDone(s: State) {
    forall t :: 0 <= t < |s.threads| ==> s.threads[t] == Done
  }

  function Fetchers(n: nat): (ts: seq<Thread>)
    ensures |ts| == n && forall t :: 0 <= t < n ==> ts[t] == Fetch
  {
    if n == 0 then [] else [Fetch] + Fetchers(n - 1)
  }

  function StepOf(c: Config, s: State, t: nat, a: Action): Option<State>
    requires t < |s.threads|
  {
    match (a, s.threads[t])
    case (Claim(_), Fetch) =>
      if s.pos < |c.files| then Some(With(s, t, Ready(c.files[s.pos])).(pos := s.pos + 1)) else None
    case (Finish(_), Fetch) =>
      if s.pos >= |c.files| then Some(With(s, t, Done)) else None
    case (FileEnd(_), Ready(todo)) =>
      if todo == [] then Some(With(s, t, Fetch)) else None
    case (Begin(_), Ready(todo)) =>
      if todo != [] && !Locked(s) then Some(With(s, t, Writing(todo, AtHeader, s.committed))) else None
    case (Put(_), Writing(todo, pc, w)) =>
      if todo == [] || !PcOk(todo[0], pc) || pc == AtEnd then None
      else
        (match PutStep(s.mode, todo[0], pc, w)
         case Some((pc', w')) => Some(With(s, t, Writing(todo, pc', w')))
         case None => Some(With(s, t, Dead)))
    case (Full(_), Writing(todo, pc, w)) =>
      if pc != AtEnd then Some(With(s, t, Ready(todo))) else None
    case (Commit(_), Writing(todo, pc, w)) =>
      if pc == AtEnd && todo != []
      then Some(With(s, t, Ready(todo[1..])).(committed := w, log := s.log + [todo[0]])) else None
    case _ => None
  }

  function Step(c: Config, s: State, a: Action): Option<State> {
    match a
    case NextPass =>
      if s.mode == 0 && AllDone(s) then Some(s.(mode := 1, pos := 0, threads := Fetchers(|s.threads|))) else None
    case _ => if a.t < |s.threads| then StepOf(c, s, a.t, a) else None
  }

  function Start(c: Config, db: Db): State {
    State(0, 0, Fetchers(c.workers), db, [])
  }

  /** The state after a run, if every step of it is possible. */
  function Run(c: Config, s: State, run: seq<Action>): Option<State> {
    if run == [] then Some(s) else
      match Run(c, s, run[..|run| - 1])
      case None => None
      case Some(m) => Step(c, m, run[|run| - 1])
  }

  // ---- The invariant ----

  function AllBlocks(files: seq<seq<Blk>>): seq<Blk> {
    if files == [] then [] else files[0] + AllBlocks(files[1..])
  }

  function BlocksIn(bs: seq<Blk>): set<Blk> {
    set i | 0 <= i < |bs| :: bs[i]
  }

  function Todo(x: Thread): seq<Blk> {
    if x.Ready? || x.Writing? then x.todo else []
  }

  function Pending(ts: seq<Thread>): multiset<Blk> {
    if ts == [] then multiset{} else multiset(Todo(ts[0])) + Pending(ts[1..])
  }

  /** The working copy when the next put is pc. */
  function Stage(mode: nat, b: Blk, base: Db, pc: Pc): Db
    requires PcOk(b, pc)
  {
    match pc
    case AtHeader => base
    case AtEnd => AddBlock(base, mode, b)
    case AtAddr(i, j) => AddOuts(AddTxs(AddHeader(base, b), b.txs[..i]), b.txs[i], j)
    case AtTxo(i, j) =>
      var d := AddOuts(AddTxs(AddHeader(base, b), b.txs[..i]), b.txs[i], j);
      d.(addr := d.addr + {PairOf(b.txs[i], j)})
  }

  ghost predicate WriterOk(mode: nat, base: Db, x: Thread) {
    x.Writing? ==>
      && x.todo != [] && PcOk(x.todo[0], x.pc)
      && x.working == Stage(mode, x.todo[0], base, x.pc)
      && (x.pc.AtTxo? ==>
            PairOf(x.todo[0].txs[x.pc.i], x.pc.j) !in Stage(mode, x.todo[0], base, AtAddr(x.pc.i, x.pc.j)).addr)
      && (mode == 1 ==> x.pc.AtHeader? || x.pc.AtEnd?)
  }

  /** How often every block is to be committed up to the end of the current pass; without a
      worker no block is ever taken off the files. */
  function Owed(c: Config, mode: nat): multiset<Blk> {
    var all := multiset(AllBlocks(c.files));
    if mode == 0 || c.workers == 0 then all else all + all
  }

  ghost predicate Consistency(c: Config) {
    ConsistentBlocks(c.before + BlocksIn(AllBlocks(c.files)))
  }

  /** Every block is committed, pending or still in an unclaimed file: none is lost or
      doubled. */
  ghost predicate Balanced(c: Config, s: State) {
    && s.mode <= 1 && s.pos <= |c.files|
    && multiset(s.log) + Pending(s.threads) + multiset(AllBlocks(c.files[s.pos..])) == Owed(c, s.mode)
  }

  /** The committed database is the union of the committed blocks. */
  ghost predicate Union(c: Config, s: State) {
    && Represents(s.committed, c.before + BlocksIn(s.log))
    && (s.mode == 1 && c.workers > 0 ==> BlocksIn(AllBlocks(c.files)) <= BlocksIn(s.log))
  }

  /** There is at most one writer, its working copy is the committed database plus its puts,
      no put was ever refused, and workers stop at the end of the files only. */
  ghost predicate Workers(c: Config, s: State) {
    && |s.threads| == c.workers && (c.workers == 0 ==> s.log == [])
    && (forall t, u ::
          0 <= t < |s.threads| && 0 <= u < |s.threads| && s.threads[t].Writing? && s.threads[u].Writing? ==> t == u)
    && (forall t :: 0 <= t < |s.threads| ==> WriterOk(s.mode, s.committed, s.threads[t]))
    && (forall t :: 0 <= t < |s.threads| ==> !s.threads[t].Dead? && (s.threads[t].Done? ==> s.pos >= |c.files|))
  }

  ghost predicate Inv(c: Config, s: State) {
    Balanced(c, s) && Union(c, s) && Workers(c, s)
  }

  // ---- The working copy ----

  /** The working copy between transaction i's outputs j - 1 and j. */
  function Reached(b: Blk, base: Db, i: nat, j: nat): Db
    requires i < |b.txs| ==> j <= |b.txs[i].outs|
  {
    if i < |b.txs| then AddOuts(AddTxs(AddHeader(base, b), b.txs[..i]), b.txs[i], j)
    else AddTxs(AddHeader(base, b), b.txs)
  }

  /** After the last output of a transaction the next one begins. */
  lemma ReachedNext(b: Blk, base: Db, i: nat)
    requires i < |b.txs|
    ensures Reached(b, base, i, |b.txs[i].outs|) == Reached(b, base, i + 1, 0)
  {
    assert b.txs[..i + 1][..i] == b.txs[..i];
    assert i + 1 == |b.txs| ==> b.txs[..i + 1] == b.txs;
  }

  lemma NextStage(b: Blk, base: Db, i: nat, j: nat)
    requires i <= |b.txs| && (i < |b.txs| ==> j <= |b.txs[i].outs|)
    ensures var pc := Next(b, i, j);
      PcOk(b, pc) && (pc.AtAddr? || pc.AtEnd?) && Stage(0, b, base, pc) == Reached(b, base, i, j)
    decreases |b.txs| - i
  {
    if i < |b.txs| && j >= |b.txs[i].outs| {
      NextStage(b, base, i + 1, 0);
      ReachedNext(b, base, i);
    }
  }

  ghost predicate PutKeeps(mode: nat, b: Blk, base: Db, pc: Pc, w: Db)
    requires PcOk(b, pc)
  {
    && w == Stage(mode, b, base, pc)
    && (pc.AtTxo? ==> PairOf(b.txs[pc.i], pc.j) !in Stage(mode, b, base, AtAddr(pc.i, pc.j)).addr)
    && (mode == 1 ==> pc.AtHeader? || pc.AtEnd?)
  }

  /** A put that finds room is never refused and keeps the working copy in step. */
  lemma PutOk(mode: nat, b: Blk, base: Db, pc: Pc, w: Db, B: set<Blk>)
    requires mode <= 1 && Represents(base, B) && ConsistentBlocks(B + {b})
    requires PcOk(b, pc) && pc != AtEnd && PutKeeps(mode, b, base, pc, w)
    ensures PutStep(mode, b, pc, w).Some?
    ensures var (pc', w') := PutStep(mode, b, pc, w).value; PcOk(b, pc') && PutKeeps(mode, b, base, pc', w')
  {
    match pc
    case AtHeader => NextStage(b, base, 0, 0);
    case AtAddr(i, j) => PutAddrOk(b, base, i, j, w);
    case AtTxo(i, j) => PutTxoOk(b, base, i, j, w, B);
  }

  lemma PutAddrOk(b: Blk, base: Db, i: nat, j: nat, w: Db)
    requires PcOk(b, AtAddr(i, j)) && PutKeeps(0, b, base, AtAddr(i, j), w)
    ensures PutStep(0, b, AtAddr(i, j), w).Some?
    ensures var (pc', w') := PutStep(0, b, AtAddr(i, j), w).value; PcOk(b, pc') && PutKeeps(0, b, base, pc', w')
  {
    NextStage(b, base, i, j + 1);
  }

  lemma PutTxoOk(b: Blk, base: Db, i: nat, j: nat, w: Db, B: set<Blk>)
    requires Represents(base, B) && ConsistentBlocks(B + {b})
    requires PcOk(b, AtTxo(i, j)) && PutKeeps(0, b, base, AtTxo(i, j), w)
    ensures PutStep(0, b, AtTxo(i, j), w).Some?
    ensures var (pc', w') := PutStep(0, b, AtTxo(i, j), w).value; PcOk(b, pc') && PutKeeps(0, b, base, pc', w')
  {
    NextStage(b, base, i, j + 1);
    TxoAppends(b, base, i, j, B);
    TxoStage(AddOuts(AddTxs(AddHeader(base, b), b.txs[..i]), b.txs[i], j), b.txs[i], j);
  }

  /** Pair and record together are what the output loop adds. */
  lemma TxoStage(d: Db, tx: TxRec, j: nat)
    requires j < |tx.outs| && PairOf(tx, j) !in d.addr
    ensures var w := d.(addr := d.addr + {PairOf(tx, j)});
      w.(txo := Append(w.txo, tx.id, Rec(j, tx.outs[j].value))) == AddOut(d, tx, j)
  {
  }

  lemma TxoAppends(b: Blk, base: Db, i: nat, j: nat, B: set<Blk>)
    requires Represents(base, B) && ConsistentBlocks(B + {b})
    requires i < |b.txs| && j < |b.txs[i].outs|
    requires PairOf(b.txs[i], j) !in Stage(0, b, base, AtAddr(i, j)).addr
    ensures Appends(Stage(0, b, base, AtAddr(i, j)).txo, b.txs[i].id, Rec(j, b.txs[i].outs[j].value))
  {
    var e := AddHeader(base, b);
    TxsOfAdd(B, b);
    IndexesSame(base, e, TxsOf(B));
    NextTx(e, TxsOf(B), b.txs, i);
    NeverRefused(AddTxs(e, b.txs[..i]), TxsOf(B) + SetOf(b.txs[..i]), b.txs[i], j);
  }

  // ---- Accounting ----

  lemma {:induction false} PendingUpdate(ts: seq<Thread>, t: nat, x: Thread)
    requires t < |ts|
    ensures Pending(ts[t := x]) + multiset(Todo(ts[t])) == Pending(ts) + multiset(Todo(x))
  {
    if t > 0 {
      PendingUpdate(ts[1..], t - 1, x);
      assert ts[t := x][1..] == ts[1..][t - 1 := x] && ts[1..][t - 1] == ts[t];
      Shift(multiset(Todo(ts[0])), Pending(ts[1..][t - 1 := x]), multiset(Todo(ts[t])), Pending(ts[1..]),
            multiset(Todo(x)));
    } else {
      assert ts[0 := x][1..] == ts[1..];
    }
  }

  lemma Shift(h: multiset<Blk>, p: multiset<Blk>, m: multiset<Blk>, q: multiset<Blk>, x: multiset<Blk>)
    requires p + m == q + x
    ensures h + p + m == h + q + x
  {
    assert h + p + m == h + (p + m) && h + q + x == h + (q + x);
  }

  lemma Cancel(a: multiset<Blk>, b: multiset<Blk>, m: multiset<Blk>)
    requires a + m == b + m
    ensures a == b
  {
    assert a == a + m - m && b == b + m - m;
  }

  lemma {:induction false} PendingNone(ts: seq<Thread>)
    requires forall t :: 0 <= t < |ts| ==> Todo(ts[t]) == []
    ensures Pending(ts) == multiset{}
  {
    if ts != [] {
      PendingNone(ts[1..]);
    }
  }

  lemma {:induction false} PendingHas(ts: seq<Thread>, t: nat)
    requires t < |ts|
    ensures multiset(Todo(ts[t])) <= Pending(ts)
  {
    if t > 0 {
      PendingHas(ts[1..], t - 1);
      assert ts[1..][t - 1] == ts[t];
    }
  }

  lemma InBlocks(bs: seq<Blk>, b: Blk)
    ensures b in BlocksIn(bs) <==> b in multiset(bs)
  {
  }

  /** Whatever is committed or pending comes from the files. */
  lemma Universe(c: Config, s: State)
    requires Inv(c, s)
    ensures BlocksIn(s.log) <= BlocksIn(AllBlocks(c.files))
    ensures forall t, b :: 0 <= t < |s.threads| && b in Todo(s.threads[t]) ==> b in BlocksIn(AllBlocks(c.files))
  {
    var all := AllBlocks(c.files);
    forall b | b in BlocksIn(s.log) ensures b in BlocksIn(all) {
      InBlocks(s.log, b);
      InBlocks(all, b);
      assert b in multiset(s.log) && b in Owed(c, s.mode);
    }
    forall t, b | 0 <= t < |s.threads| && b in Todo(s.threads[t]) ensures b in BlocksIn(all) {
      PendingHas(s.threads, t);
      InBlocks(all, b);
      assert b in multiset(Todo(s.threads[t])) && b in Pending(s.threads) && b in Owed(c, s.mode);
    }
  }

  lemma WriterConsistent(c: Config, s: State, t: nat)
    requires Inv(c, s) && Consistency(c) && t < |s.threads| && Todo(s.threads[t]) != []
    ensures var B, b := c.before + BlocksIn(s.log), Todo(s.threads[t])[0];
      ConsistentBlocks(B + {b}) && b in BlocksIn(AllBlocks(c.files))
  {
    Universe(c, s);
    var b := Todo(s.threads[t])[0];
    assert b in Todo(s.threads[t]);
    Sub(c.before + BlocksIn(s.log) + {b}, c.before + BlocksIn(AllBlocks(c.files)));
  }

  // ---- Every step keeps the invariant ----

  /** The workers after a step of thread t. */
  lemma WorkersStep(c: Config, s: State, t: nat, x: Thread, s': State)
    requires Workers(c, s) && t < |s.threads| && s'.threads == s.threads[t := x]
    requires s'.mode == s.mode && s'.pos >= s.pos
    requires s'.committed == s.committed || (s.threads[t].Writing? && !x.Writing?)
    requires !x.Dead? && (x.Done? ==> s.pos >= |c.files|) && WriterOk(s.mode, s'.committed, x)
    requires x.Writing? ==> s.threads[t].Writing? || !Locked(s)
    ensures Workers(c, s')
  {
  }

  /** A step that changes one thread and neither the database nor its position in the files. */
  lemma ThreadStep(c: Config, s: State, t: nat, x: Thread)
    requires Inv(c, s) && t < |s.threads| && Todo(x) == Todo(s.threads[t])
    requires !x.Dead? && (x.Done? ==> s.pos >= |c.files|) && WriterOk(s.mode, s.committed, x)
    requires x.Writing? ==> s.threads[t].Writing? || !Locked(s)
    ensures Inv(c, With(s, t, x))
  {
    WorkersStep(c, s, t, x, With(s, t, x));
    assert Pending(s.threads[t := x]) == Pending(s.threads) by {
      PendingUpdate(s.threads, t, x);
      Cancel(Pending(s.threads[t := x]), Pending(s.threads), multiset(Todo(x)));
    }
  }

  lemma Claimed(files: seq<seq<Blk>>, pos: nat, ts: seq<Thread>, t: nat)
    requires pos < |files| && t < |ts| && Todo(ts[t]) == []
    ensures Pending(ts[t := Ready(files[pos])]) + multiset(AllBlocks(files[pos + 1..]))
         == Pending(ts) + multiset(AllBlocks(files[pos..]))
  {
    var x := Ready(files[pos]);
    PendingUpdate(ts, t, x);
    assert Pending(ts[t := x]) == Pending(ts) + multiset(files[pos]) by {
      assert multiset(Todo(ts[t])) == multiset{};
      assert Pending(ts[t := x]) + multiset{} == Pending(ts[t := x]);
    }
    assert files[pos..][1..] == files[pos + 1..];
    assert multiset(AllBlocks(files[pos..])) == multiset(files[pos]) + multiset(AllBlocks(files[pos + 1..]));
  }

  lemma ClaimStep(c: Config, s: State, t: nat)
    requires Inv(c, s) && t < |s.threads| && s.threads[t] == Fetch && s.pos < |c.files|
    ensures Inv(c, With(s, t, Ready(c.files[s.pos])).(pos := s.pos + 1))
  {
    var x := Ready(c.files[s.pos]);
    var s' := With(s, t, x).(pos := s.pos + 1);
    WorkersStep(c, s, t, x, s');
    ClaimBalanced(c, s, t, s');
  }

  lemma ClaimBalanced(c: Config, s: State, t: nat, s': State)
    requires Balanced(c, s) && t < |s.threads| && s.threads[t] == Fetch && s.pos < |c.files|
    requires s' == With(s, t, Ready(c.files[s.pos])).(pos := s.pos + 1)
    ensures Balanced(c, s')
  {
    Claimed(c.files, s.pos, s.threads, t);
    Shift(multiset(s.log), Pending(s'.threads), multiset(AllBlocks(c.files[s.pos + 1..])),
          Pending(s.threads), multiset(AllBlocks(c.files[s.pos..])));
  }

  lemma Committed(log: seq<Blk>, ts: seq<Thread>, t: nat)
    requires t < |ts| && ts[t].Writing? && ts[t].todo != []
    ensures multiset(log + [ts[t].todo[0]]) + Pending(ts[t := Ready(ts[t].todo[1..])])
         == multiset(log) + Pending(ts)
  {
    var todo := ts[t].todo;
    var x := Ready(todo[1..]);
    var rest := multiset(todo[1..]);
    PendingUpdate(ts, t, x);
    assert multiset(todo) == multiset{todo[0]} + rest by { assert todo == [todo[0]] + todo[1..]; }
    assert Pending(ts[t := x]) + multiset{todo[0]} + rest == Pending(ts) + rest;
    Cancel(Pending(ts[t := x]) + multiset{todo[0]}, Pending(ts), rest);
  }

  lemma CommitUnion(c: Config, s: State, t: nat)
    requires Inv(c, s) && Consistency(c) && t < |s.threads| && s.threads[t].Writing? && s.threads[t].pc == AtEnd
    ensures var x := s.threads[t];
      x.todo != [] && Represents(x.working, c.before + BlocksIn(s.log + [x.todo[0]]))
  {
    var x := s.threads[t];
    var b := x.todo[0];
    var B := c.before + BlocksIn(s.log);
    WriterConsistent(c, s, t);
    BlocksSnoc(s.log, b);
    assert c.before + BlocksIn(s.log + [b]) == B + {b};
    if s.mode == 1 {
      assert B + {b} == B;
      AddAgain(s.committed, B, 1, b);
    } else {
      AddBlockRepresents(s.committed, B, b);
    }
  }

  lemma CommitStep(c: Config, s: State, t: nat)
    requires Inv(c, s) && Consistency(c) && t < |s.threads| && s.threads[t].Writing? && s.threads[t].pc == AtEnd
    ensures var x := s.threads[t];
      x.todo != [] && Inv(c, With(s, t, Ready(x.todo[1..])).(committed := x.working, log := s.log + [x.todo[0]]))
  {
    var x := s.threads[t];
    var s' := With(s, t, Ready(x.todo[1..])).(committed := x.working, log := s.log + [x.todo[0]]);
    CommitUnion(c, s, t);
    BlocksSnoc(s.log, x.todo[0]);
    WorkersStep(c, s, t, Ready(x.todo[1..]), s');
    assert Balanced(c, s') by { Committed(s.log, s.threads, t); }
  }

  lemma BlocksSnoc(bs: seq<Blk>, b: Blk)
    ensures BlocksIn(bs + [b]) == BlocksIn(bs) + {b}
  {
    assert (bs + [b])[|bs|] == b;
    forall x | x in BlocksIn(bs) ensures x in BlocksIn(bs + [b]) {
      var i :| 0 <= i < |bs| && bs[i] == x;
      assert (bs + [b])[i] == x;
    }
  }

  lemma PutsStep(c: Config, s: State, t: nat)
    requires Inv(c, s) && Consistency(c) && t < |s.threads| && s.threads[t].Writing? && s.threads[t].pc != AtEnd
    ensures var x := s.threads[t];
      && x.todo != [] && PcOk(x.todo[0], x.pc)
      && var r := PutStep(s.mode, x.todo[0], x.pc, x.working);
         r.Some? && Inv(c, With(s, t, Writing(x.todo, r.value.0, r.value.1)))
  {
    var x := s.threads[t];
    WriterConsistent(c, s, t);
    PutOk(s.mode, x.todo[0], s.committed, x.pc, x.working, c.before + BlocksIn(s.log));
    var r := PutStep(s.mode, x.todo[0], x.pc, x.working).value;
    ThreadStep(c, s, t, Writing(x.todo, r.0, r.1));
  }

  lemma PassStep(c: Config, s: State)
    requires Inv(c, s) && s.mode == 0 && AllDone(s)
    ensures Inv(c, s.(mode := 1, pos := 0, threads := Fetchers(|s.threads|)))
  {
    var s' := s.(mode := 1, pos := 0, threads := Fetchers(|s.threads|));
    assert Balanced(c, s') by { PassBalanced(c, s); }
    if c.workers > 0 {
      AllLogged(c, s);
    }
  }

  lemma PassBalanced(c: Config, s: State)
    requires Inv(c, s) && s.mode == 0 && AllDone(s)
    ensures Balanced(c, s.(mode := 1, pos := 0, threads := Fetchers(|s.threads|)))
  {
    PendingNone(Fetchers(|s.threads|));
    assert c.files[0..] == c.files;
    if c.workers > 0 {
      AllCommitted(c, s);
    }
  }

  /** At the end of a pass every block of every file has been committed, once per pass. */
  lemma AllCommitted(c: Config, s: State)
    requires Inv(c, s) && AllDone(s) && c.workers > 0
    ensures multiset(s.log) == Owed(c, s.mode)
  {
    PendingNone(s.threads);
    assert s.threads[0] == Done;
    assert c.files[s.pos..] == [];
  }

  lemma AllLogged(c: Config, s: State)
    requires Inv(c, s) && AllDone(s) && c.workers > 0
    ensures BlocksIn(s.log) == BlocksIn(AllBlocks(c.files))
  {
    AllCommitted(c, s);
    Universe(c, s);
    forall b | b in BlocksIn(AllBlocks(c.files)) ensures b in BlocksIn(s.log) {
      InBlocks(AllBlocks(c.files), b);
      InBlocks(s.log, b);
    }
  }

  lemma InvStart(c: Config, db: Db)
    requires Represents(db, c.before)
    ensures Inv(c, Start(c, db))
  {
    PendingNone(Fetchers(c.workers));
    assert c.files[0..] == c.files && c.before + BlocksIn([]) == c.before;
  }

  lemma InvReader(c: Config, s: State, t: nat, a: Action)
    requires Inv(c, s) && t < |s.threads| && !s.threads[t].Writing? && StepOf(c, s, t, a).Some?
    ensures Inv(c, StepOf(c, s, t, a).value)
  {
    match (a, s.threads[t])
    case (Claim(_), Fetch) => ClaimStep(c, s, t);
    case (Finish(_), Fetch) => ThreadStep(c, s, t, Done);
    case (FileEnd(_), Ready(todo)) => ThreadStep(c, s, t, Fetch);
    case (Begin(_), Ready(todo)) => ThreadStep(c, s, t, Writing(todo, AtHeader, s.committed));
    case _ =>
  }

  lemma InvPut(c: Config, s: State, t: nat, a: Action)
    requires Inv(c, s) && Consistency(c) && t < |s.threads| && s.threads[t].Writing? && a.Put?
    requires StepOf(c, s, t, a).Some?
    ensures Inv(c, StepOf(c, s, t, a).value)
  {
    PutsStep(c, s, t);
    PutIs(c, s, t, a, s.threads[t]);
  }

  lemma PutIs(c: Config, s: State, t: nat, a: Action, x: Thread)
    requires t < |s.threads| && x == s.threads[t] && x.Writing? && a.Put?
    requires x.todo != [] && PcOk(x.todo[0], x.pc) && x.pc != AtEnd && PutStep(s.mode, x.todo[0], x.pc, x.working).Some?
    ensures var r := PutStep(s.mode, x.todo[0], x.pc, x.working).value;
      StepOf(c, s, t, a) == Some(With(s, t, Writing(x.todo, r.0, r.1)))
  {
  }

  lemma InvThread(c: Config, s: State, t: nat, a: Action)
    requires Inv(c, s) && Consistency(c) && t < |s.threads| && StepOf(c, s, t, a).Some?
    ensures Inv(c, StepOf(c, s, t, a).value)
  {
    if !s.threads[t].Writing? {
      InvReader(c, s, t, a);
    } else if a.Put? {
      InvPut(c, s, t, a);
    } else if a.Full? {
      ThreadStep(c, s, t, Ready(s.threads[t].todo));
    } else {
      CommitStep(c, s, t);
    }
  }

  lemma InvStep(c: Config, s: State, a: Action)
    requires Inv(c, s) && Consistency(c) && Step(c, s, a).Some?
    ensures Inv(c, Step(c, s, a).value)
  {
    if a == NextPass {
      PassStep(c, s);
    } else {
      InvThread(c, s, a.t, a);
    }
  }

  /** The invariant holds after every run, whatever the interleaving and the full maps. */
  lemma {:induction false} InvRun(c: Config, db: Db, run: seq<Action>)
    requires Represents(db, c.before) && Consistency(c)
    requires Run(c, Start(c, db), run).Some?
    ensures Inv(c, Run(c, Start(c, db), run).value)
  {
    if run == [] {
      InvStart(c, db);
    } else {
      InvRun(c, db, run[..|run| - 1]);
      InvStep(c, Run(c, Start(c, db), run[..|run| - 1]).value, run[|run| - 1]);
    }
  }

  // ---- What follows ----

  /** In every committed state an outpoint is in ADDR exactly when it is in TXO. */
  lemma Agreement(c: Config, db: Db, run: seq<Action>, id: Key, n: nat)
    requires Represents(db, c.before) && Consistency(c)
    requires Run(c, Start(c, db), run).Some?
    ensures var d := Run(c, Start(c, db), run).value.committed;
      (exists a :: (a, Point(id, n)) in d.addr) <==> (id in d.txo && n < |d.txo[id]|)
  {
    InvRun(c, db, run);
    var s := Run(c, Start(c, db), run).value;
    var B := c.before + BlocksIn(s.log);
    Universe(c, s);
    Sub(B, c.before + BlocksIn(AllBlocks(c.files)));
    AddrIffTxo(s.committed, TxsOf(B), id, n);
  }

  /** Without a worker every pass is over as it begins, and nothing is stored. */
  lemma {:induction false} NoWorkers(c: Config, db: Db, run: seq<Action>)
    requires c.workers == 0 && Run(c, Start(c, db), run).Some?
    ensures var s := Run(c, Start(c, db), run).value;
      s.threads == [] && AllDone(s) && s.committed == db && s.log == []
  {
    if run != [] {
      NoWorkers(c, db, run[..|run| - 1]);
    }
  }

  /** When a pass ends, each block was committed once per pass, and the database is the union
      of all blocks: it is the same for every interleaving, every pattern of full maps and
      every number of workers but none, and the second pass leaves it as it was. Without a
      worker it stays what it was before. */
  lemma PassEnd(c: Config, db: Db, run: seq<Action>, whole: Db)
    requires Represents(db, c.before) && Consistency(c)
    requires Run(c, Start(c, db), run).Some?
    requires Represents(whole, c.before + BlocksIn(AllBlocks(c.files)))
    ensures var s := Run(c, Start(c, db), run).value;
      if c.workers == 0 then AllDone(s) && s.committed == db && s.log == []
      else
        && (AllDone(s) ==> multiset(s.log) == Owed(c, s.mode) && s.committed == whole)
        && (s.mode == 1 ==> s.committed == whole)
  {
    if c.workers == 0 {
      NoWorkers(c, db, run);
      return;
    }
    InvRun(c, db, run);
    var s := Run(c, Start(c, db), run).value;
    var all := BlocksIn(AllBlocks(c.files));
    Universe(c, s);
    if AllDone(s) {
      AllCommitted(c, s);
      AllLogged(c, s);
    }
    if AllDone(s) || s.mode == 1 {
      assert BlocksIn(s.log) == all;
      UnionUnique(s.committed, whole, c.before + all);
    }
  }

  /** Files whose blocks are all stored already change nothing, at any point of any run. */
  lemma Rerun(c: Config, db: Db, run: seq<Action>)
    requires Represents(db, c.before) && Consistency(c)
    requires BlocksIn(AllBlocks(c.files)) <= c.before && Run(c, Start(c, db), run).Some?
    ensures Run(c, Start(c, db), run).value.committed == db
  {
    InvRun(c, db, run);
    var s := Run(c, Start(c, db), run).value;
    Universe(c, s);
    assert c.before + BlocksIn(s.log) == c.before;
    UnionUnique(s.committed, db, c.before);
  }

  /** The preload never gets stuck: until the second pass is over some step other than a full
      map is possible. */
  lemma Progress(c: Config, s: State)
    requires Inv(c, s) && Consistency(c) && !(s.mode == 1 && AllDone(s))
    ensures exists a: Action :: !a.Full? && Step(c, s, a).Some?
  {
    if AllDone(s) {
      assert Step(c, s, NextPass).Some?;
    } else if Locked(s) {
      WriterMoves(c, s);
    } else {
      var t :| 0 <= t < |s.threads| && s.threads[t] != Done;
      match s.threads[t]
      case Fetch =>
        if s.pos < |c.files| {
          assert Step(c, s, Claim(t)).Some?;
        } else {
          assert Step(c, s, Finish(t)).Some?;
        }
      case Ready(todo) =>
        if todo == [] {
          assert Step(c, s, FileEnd(t)).Some?;
        } else {
          assert Step(c, s, Begin(t)).Some?;
        }
    }
  }

  lemma WriterMoves(c: Config, s: State)
    requires Inv(c, s) && Consistency(c) && Locked(s)
    ensures exists a: Action :: !a.Full? && Step(c, s, a).Some?
  {
    var t :| 0 <= t < |s.threads| && s.threads[t].Writing?;
    var a := if s.threads[t].pc == AtEnd then Commit(t) else Put(t);
    assert StepOf(c, s, t, a).Some? by { WriterStep(c, s, t); }
    assert !a.Full? && Step(c, s, a).Some?;
  }

  lemma WriterStep(c: Config, s: State, t: nat)
    requires Inv(c, s) && Consistency(c) && t < |s.threads| && s.threads[t].Writing?
    ensures StepOf(c, s, t, if s.threads[t].pc == AtEnd then Commit(t) else Put(t)).Some?
  {
    if s.threads[t].pc != AtEnd {
      PutsStep(c, s, t);
    }
  }

  // ---- The preload ends ----

  /** Outputs from the j-th of transaction i on. */
  function OutsLeft(b: Blk, i: nat, j: nat): nat
    decreases |b.txs| - i
  {
    if i >= |b.txs| then 0
    else (if j < |b.txs[i].outs| then |b.txs[i].outs| - j else 0) + OutsLeft(b, i + 1, 0)
  }

  /** Puts left in the transaction of a block, at most. */
  function PutsLeft(b: Blk, pc: Pc): nat
    requires PcOk(b, pc)
  {
    match pc
    case AtHeader => 1 + 2 * OutsLeft(b, 0, 0)
    case AtAddr(i, j) => 2 * OutsLeft(b, i, j)
    case AtTxo(i, j) => 2 * OutsLeft(b, i, j) - 1
    case AtEnd => 0
  }

  lemma NextLeft(b: Blk, i: nat, j: nat)
    ensures PcOk(b, Next(b, i, j)) && PutsLeft(b, Next(b, i, j)) == 2 * OutsLeft(b, i, j)
    decreases |b.txs| - i
  {
    if i < |b.txs| && j >= |b.txs[i].outs| {
      NextLeft(b, i + 1, 0);
    }
  }

  lemma PutDescends(mode: nat, b: Blk, pc: Pc, w: Db)
    requires PcOk(b, pc) && pc != AtEnd && PutStep(mode, b, pc, w).Some?
    ensures var pc' := PutStep(mode, b, pc, w).value.0; PcOk(b, pc') && PutsLeft(b, pc') < PutsLeft(b, pc)
  {
    match pc
    case AtHeader => NextLeft(b, 0, 0);
    case AtAddr(i, j) => NextLeft(b, i, j + 1);
    case AtTxo(i, j) => NextLeft(b, i, j + 1);
  }

  /** Steps a list of blocks takes: beginning, puts and commit of each. */
  function BlockCost(bs: seq<Blk>): nat {
    if bs == [] then 0 else 2 + PutsLeft(bs[0], AtHeader) + BlockCost(bs[1..])
  }

  function ThreadCost(x: Thread): nat {
    match x
    case Fetch => 1
    case Ready(todo) => 2 + BlockCost(todo)
    case Writing(todo, pc, _) =>
      if todo != [] && PcOk(todo[0], pc) then 3 + PutsLeft(todo[0], pc) + BlockCost(todo[1..]) else 0
    case Done => 0
    case Dead => 0
  }

  function ThreadsCost(ts: seq<Thread>): nat {
    if ts == [] then 0 else ThreadCost(ts[0]) + ThreadsCost(ts[1..])
  }

  function FilesCost(files: seq<seq<Blk>>): nat {
    if files == [] then 0 else 2 + BlockCost(files[0]) + FilesCost(files[1..])
  }

  /** Steps to the end of the second pass, at most, if the map is never full again. */
  function Cost(c: Config, s: State): nat
    requires s.pos <= |c.files|
  {
    (if s.mode == 0 then 1 + |s.threads| + FilesCost(c.files) else 0)
    + FilesCost(c.files[s.pos..]) + ThreadsCost(s.threads)
  }

  lemma {:induction false} ThreadsUpdate(ts: seq<Thread>, t: nat, x: Thread)
    requires t < |ts|
    ensures ThreadsCost(ts[t := x]) + ThreadCost(ts[t]) == ThreadsCost(ts) + ThreadCost(x)
  {
    if t > 0 {
      ThreadsUpdate(ts[1..], t - 1, x);
      assert ts[t := x][1..] == ts[1..][t - 1 := x];
    } else {
      assert ts[0 := x][1..] == ts[1..];
    }
  }

  lemma {:induction false} FetchersCost(n: nat)
    ensures ThreadsCost(Fetchers(n)) == n
  {
    if n > 0 {
      FetchersCost(n - 1);
      assert Fetchers(n)[1..] == Fetchers(n - 1);
    }
  }

  /** Thread t and the files left cost less in s' than in s, and nothing else has changed. */
  ghost predicate Cheaper(c: Config, s: State, t: nat, s': State) {
    && t < |s.threads| && s.pos <= s'.pos <= |c.files| && s'.mode == s.mode
    && |s'.threads| == |s.threads| && s'.threads == s.threads[t := s'.threads[t]]
    && ThreadCost(s'.threads[t]) + FilesCost(c.files[s'.pos..]) < ThreadCost(s.threads[t]) + FilesCost(c.files[s.pos..])
  }

  lemma PutCheaper(c: Config, s: State, t: nat)
    requires Inv(c, s) && Consistency(c) && t < |s.threads| && StepOf(c, s, t, Put(t)).Some?
    ensures Cheaper(c, s, t, StepOf(c, s, t, Put(t)).value)
  {
    var x := s.threads[t];
    PutsStep(c, s, t);
    PutDescends(s.mode, x.todo[0], x.pc, x.working);
  }

  lemma ClaimCheaper(c: Config, s: State, t: nat)
    requires Inv(c, s) && t < |s.threads| && StepOf(c, s, t, Claim(t)).Some?
    ensures Cheaper(c, s, t, StepOf(c, s, t, Claim(t)).value)
  {
    assert c.files[s.pos..][1..] == c.files[s.pos + 1..];
  }

  lemma ThreadDescends(c: Config, s: State, t: nat, a: Action)
    requires Inv(c, s) && Consistency(c) && !a.Full? && a != NextPass && a.t == t < |s.threads|
    requires StepOf(c, s, t, a).Some?
    ensures Cheaper(c, s, t, StepOf(c, s, t, a).value)
  {
    if a.Put? {
      PutCheaper(c, s, t);
    } else if a.Claim? {
      ClaimCheaper(c, s, t);
    }
  }

  /** Every step but a full map brings the end nearer. */
  lemma StepDescends(c: Config, s: State, a: Action)
    requires Inv(c, s) && Consistency(c) && !a.Full? && Step(c, s, a).Some?
    ensures Step(c, s, a).value.pos <= |c.files| && Cost(c, Step(c, s, a).value) < Cost(c, s)
  {
    var s' := Step(c, s, a).value;
    if a == NextPass {
      FetchersCost(|s.threads|);
      assert c.files[0..] == c.files;
    } else {
      ThreadDescends(c, s, a.t, a);
      ThreadsUpdate(s.threads, a.t, s'.threads[a.t]);
    }
  }

  lemma RunSnoc(c: Config, s: State, run: seq<Action>, a: Action, m: Option<State>)
    requires m == Run(c, s, run)
    ensures Run(c, s, run + [a]) == if m.Some? then Step(c, m.value, a) else None
  {
    assert (run + [a])[..|run|] == run;
  }

  lemma RunOne(c: Config, s: State, a: Action)
    ensures Run(c, s, [a]) == Step(c, s, a)
  {
    RunSnoc(c, s, [], a, Some(s));
    assert [] + [a] == [a];
  }

  lemma {:induction false} RunOn(c: Config, s: State, a: Action, run: seq<Action>)
    requires Step(c, s, a).Some?
    ensures Run(c, s, [a] + run) == Run(c, Step(c, s, a).value, run)
  {
    if run == [] {
      RunOne(c, s, a);
      assert [a] + [] == [a];
    } else {
      var n := |run| - 1;
      RunOn(c, s, a, run[..n]);
      RunMore(c, s, Step(c, s, a).value, a, run[..n], run[n]);
      assert run[..n] + [run[n]] == run;
    }
  }

  lemma RunMore(c: Config, s: State, s': State, a: Action, run: seq<Action>, b: Action)
    requires Run(c, s, [a] + run) == Run(c, s', run)
    ensures Run(c, s, [a] + (run + [b])) == Run(c, s', run + [b])
  {
    RunSnoc(c, s, [a] + run, b, Run(c, s', run));
    RunSnoc(c, s', run, b, Run(c, s', run));
    assert [a] + (run + [b]) == [a] + run + [b];
  }

  /** A run from s that ends the second pass within so many steps. */
  ghost predicate Completes(c: Config, s: State, run: seq<Action>, bound: nat) {
    |run| <= bound && Run(c, s, run).Some? && Run(c, s, run).value.mode == 1 && AllDone(Run(c, s, run).value)
  }

  lemma CompletesOn(c: Config, s: State, a: Action, run: seq<Action>, bound: nat)
    requires Step(c, s, a).Some? && Completes(c, Step(c, s, a).value, run, bound)
    ensures Completes(c, s, [a] + run, bound + 1)
  {
    RunOn(c, s, a, run);
  }

  /** A step towards the end. */
  lemma Nearer(c: Config, s: State) returns (a: Action, next: State)
    requires Inv(c, s) && Consistency(c) && !(s.mode == 1 && AllDone(s))
    ensures Step(c, s, a) == Some(next) && Inv(c, next) && Cost(c, next) < Cost(c, s)
  {
    Progress(c, s);
    a :| !a.Full? && Step(c, s, a).Some?;
    next := Step(c, s, a).value;
    StepDescends(c, s, a);
    InvStep(c, s, a);
  }

  lemma Already(c: Config, s: State, bound: nat)
    requires s.mode == 1 && AllDone(s)
    ensures Completes(c, s, [], bound)
  {
  }

  lemma Looser(c: Config, s: State, run: seq<Action>, bound: nat, more: nat)
    requires Completes(c, s, run, bound) && bound <= more
    ensures Completes(c, s, run, more)
  {
  }

  /** From every state that can be reached the preload can be finished, in at most Cost steps. */
  lemma {:induction false} Finishes(c: Config, s: State) returns (run: seq<Action>)
    requires Inv(c, s) && Consistency(c)
    ensures Completes(c, s, run, Cost(c, s))
    decreases Cost(c, s)
  {
    if s.mode == 1 && AllDone(s) {
      run := [];
      Already(c, s, Cost(c, s));
    } else {
      var a, next := Nearer(c, s);
      var tail := Finishes(c, next);
      run := [a] + tail;
      CompletesOn(c, s, a, tail, Cost(c, next));
      Looser(c, s, run, Cost(c, next) + 1, Cost(c, s));
    }
  }

  // ---- The price of full maps ----

  function Fulls(run: seq<Action>): nat {
    if run == [] then 0 else Fulls(run[..|run| - 1]) + if run[|run| - 1].Full? then 1 else 0
  }

  /** Puts of the longest transaction among those of these blocks. */
  function MaxPuts(bs: seq<Blk>): (m: nat)
    ensures forall i :: 0 <= i < |bs| ==> PutsLeft(bs[i], AtHeader) <= m
  {
    if bs == [] then 0 else
      var first, more := PutsLeft(bs[0], AtHeader), MaxPuts(bs[1..]);
      if first < more then more else first
  }

  lemma FullThread(todo: seq<Blk>, pc: Pc, w: Db)
    requires todo != [] && PcOk(todo[0], pc) && pc != AtEnd
    ensures ThreadCost(Ready(todo)) <= ThreadCost(Writing(todo, pc, w)) + PutsLeft(todo[0], AtHeader)
  {
    assert PutsLeft(todo[0], pc) > 0;
  }

  /** A full map undoes no more than the puts of one transaction. */
  lemma FullCosts(c: Config, s: State, a: Action)
    requires Inv(c, s) && a.Full? && Step(c, s, a).Some?
    ensures var s' := Step(c, s, a).value;
      s'.pos <= |c.files| && Cost(c, s') <= Cost(c, s) + MaxPuts(AllBlocks(c.files))
  {
    var x := s.threads[a.t];
    var b := x.todo[0];
    Universe(c, s);
    assert b in Todo(x) && b in BlocksIn(AllBlocks(c.files));
    FullThread(x.todo, x.pc, x.working);
    ThreadsUpdate(s.threads, a.t, Ready(x.todo));
  }

  /** What a full map sets the preload back by, at most. */
  function Setback(c: Config): nat {
    MaxPuts(AllBlocks(c.files)) + 1
  }

  function Price(a: Action, m: nat): nat {
    if a.Full? then m else 0
  }

  function Prices(run: seq<Action>, m: nat): nat {
    if run == [] then 0 else Prices(run[..|run| - 1], m) + Price(run[|run| - 1], m)
  }

  lemma {:induction false} PricesAre(run: seq<Action>, m: nat)
    ensures Prices(run, m) == Fulls(run) * m
  {
    if run != [] {
      var n := Fulls(run[..|run| - 1]);
      PricesAre(run[..|run| - 1], m);
      assert (n + 1) * m == n * m + m;
    }
  }

  lemma StepCosts(c: Config, s: State, a: Action)
    requires Inv(c, s) && Consistency(c) && Step(c, s, a).Some?
    ensures var s' := Step(c, s, a).value;
      s'.pos <= |c.files| && 1 + Cost(c, s') <= Cost(c, s) + Price(a, Setback(c))
  {
    if a.Full? {
      FullCosts(c, s, a);
    } else {
      StepDescends(c, s, a);
    }
  }

  lemma InvNext(c: Config, db: Db, run: seq<Action>)
    requires Represents(db, c.before) && Consistency(c) && run != [] && Run(c, Start(c, db), run).Some?
    ensures Run(c, Start(c, db), run[..|run| - 1]).Some?
    ensures var s := Run(c, Start(c, db), run[..|run| - 1]).value;
      Inv(c, s) && Step(c, s, run[|run| - 1]) == Run(c, Start(c, db), run)
  {
    InvRun(c, db, run[..|run| - 1]);
  }

  lemma {:induction false} Priced(c: Config, db: Db, run: seq<Action>)
    requires Represents(db, c.before) && Consistency(c) && Run(c, Start(c, db), run).Some?
    ensures var s := Run(c, Start(c, db), run).value;
      s.pos <= |c.files| && |run| + Cost(c, s) <= Cost(c, Start(c, db)) + Prices(run, Setback(c))
  {
    if run != [] {
      var front := run[..|run| - 1];
      InvNext(c, db, run);
      StepCosts(c, Run(c, Start(c, db), front).value, run[|run| - 1]);
      Priced(c, db, front);
    }
  }

  /** Every run is at most as long as the preload costs, and one transaction more for every
      full map: if the map is full finitely often, the preload ends. */
  lemma Bounded(c: Config, db: Db, run: seq<Action>)
    requires Represents(db, c.before) && Consistency(c) && Run(c, Start(c, db), run).Some?
    ensures var s := Run(c, Start(c, db), run).value;
      s.pos <= |c.files| && |run| + Cost(c, s) <= Cost(c, Start(c, db)) + Fulls(run) * Setback(c)
  {
    Priced(c, db, run);
    PricesAre(run, Setback(c));
  }
}
