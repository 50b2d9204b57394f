/**
 prevector.h: a vector that keeps up to N elements in place and more on the heap. Its size
 field also says which of the two it is. It refines a plain sequence, and growing it by
 push_back moves a linear number of elements in all.
 */
module Prevectors {
  /** Where the elements are: in place, or on the heap with room for `capacity`. */
  datatype Storage<T> = Direct(slots: array<T>) | Indirect(capacity: nat, slots: array<T>)

  class Prevector<T> {
    const N: nat
    /** T{} */
    const zero: T
    var size_: nat
    var union: Storage<T>
    /** Elements copied by changes of capacity so far. */
    ghost var moved: nat

    /** The size field tells where the elements are, and there is room for them. */
    ghost predicate Valid()
      reads this, union.slots
    {
      && (union.Direct? <==> size_ <= N)
      && union.slots.Length == Capacity()
      && (union.Indirect? ==> union.capacity > N)
      && Size() <= Capacity()
    }

    predicate IsDirect()
      reads this
    {
      size_ <= N
    }

    function Size(): nat
      reads this
    {
      if IsDirect() then size_ else size_ - N - 1
    }

    function Capacity(): nat
      reads this
    {
      if union.Direct? then N else union.capacity
    }

    ghost function Elements(): seq<T>
      requires Valid()
      reads this, union.slots
    {
      union.slots[..Size()]
    }

    constructor (n: nat, zero: T)
      ensures Valid() && fresh(union.slots) && Elements() == [] && N == n && this.zero == zero
      ensures moved == 0 && Capacity() == n
    {
      N := n;
      this.zero := zero;
      size_ := 0;
      var slots := new T[n](_ => zero);
      union := Direct(slots);
      moved := 0;
    }

    /** What every method keeps about the storage. */
    twostate predicate Kept()
      reads this
    {
      union.slots == old(union.slots) || fresh(union.slots)
    }

    method Copy(src: array<T>, dst: array<T>, n: nat)
      requires n <= src.Length && n <= dst.Length && src != dst
      modifies dst
      ensures dst[..n] == src[..n]
    {
      forall i | 0 <= i < n {
        dst[i] := src[i];
      }
    }

    method ChangeCapacity(newCapacity: nat)
      requires Valid() && Size() <= newCapacity
      modifies this
      ensures Valid() && Kept() && Elements() == old(Elements())
      ensures Capacity() == if newCapacity <= N then N else newCapacity
      ensures moved == old(moved) + if newCapacity <= N && old(IsDirect()) then 0 else Size()
    {
      if newCapacity <= N {
        if !IsDirect() {
          var slots := new T[N](_ => zero);
          Copy(union.slots, slots, Size());
          moved := moved + Size();
          union := Direct(slots);
          size_ := size_ - (N + 1);
        }
      } else {
        var slots := new T[newCapacity](_ => zero);
        Copy(union.slots, slots, Size());
        moved := moved + Size();
        if IsDirect() {
          size_ := size_ + N + 1;
        }
        union := Indirect(newCapacity, slots);
      }
    }

    /** Makes room for newSize elements and half as many again. */
    method Grow(newSize: nat)
      requires Valid() && Size() <= newSize
      modifies this
      ensures Valid() && Kept() && Elements() == old(Elements()) && newSize <= Capacity()
      ensures Capacity() == if old(Capacity()) < newSize then newSize + newSize / 2 else old(Capacity())
      ensures moved == old(moved) + if old(Capacity()) < newSize then Size() else 0
    {
      if Capacity() < newSize {
        ChangeCapacity(newSize + newSize / 2);
      }
    }

    method Fill(at: nat, count: nat, val: T)
      requires Valid() && at + count <= Capacity()
      modifies union.slots
      ensures union.slots[..] == old(union.slots[..at]) + seq(count, _ => val) + old(union.slots[at + count..])
    {
      forall i | at <= i < at + count {
        union.slots[i] := val;
      }
    }

    method FillRange(at: nat, xs: seq<T>)
      requires Valid() && at + |xs| <= Capacity()
      modifies union.slots
      ensures union.slots[..] == old(union.slots[..at]) + xs + old(union.slots[at + |xs|..])
    {
      forall i | at <= i < at + |xs| {
        union.slots[i] := xs[i - at];
      }
    }

    method Erase(first: nat, last: nat)
      requires Valid() && first <= last <= Size()
      modifies this`size_, union.slots
      ensures Valid() && Elements() == old(Elements()[..first] + Elements()[last..])
      ensures Capacity() == old(Capacity())
    {
      var end := Size();
      ghost var was := Elements();
      size_ := size_ - (last - first);
      forall i | first <= i < first + end - last {
        union.slots[i] := union.slots[i + (last - first)];
      }
      Shifted(was, union.slots[..], first, last, end - (last - first));
    }

    /** Storage whose end has moved down holds the parts in order. */
    lemma Shifted(was: seq<T>, all: seq<T>, first: nat, last: nat, size: nat)
      requires first <= last <= |was| && size == |was| - (last - first) <= |all|
      requires forall i :: 0 <= i < first ==> all[i] == was[i]
      requires forall i :: first <= i < size ==> all[i] == was[i + (last - first)]
      ensures all[..size] == was[..first] + was[last..]
    {
    }

    method Resize(newSize: nat)
      requires Valid()
      modifies this, union.slots
      ensures Valid() && Kept()
      ensures Elements() == if newSize <= |old(Elements())| then old(Elements())[..newSize]
                            else old(Elements()) + seq(newSize - |old(Elements())|, _ => zero)
    {
      var curSize := Size();
      if curSize == newSize {
        return;
      }
      if curSize > newSize {
        Erase(newSize, curSize);
        return;
      }
      if newSize > Capacity() {
        ChangeCapacity(newSize);
      }
      Fill(curSize, newSize - curSize, zero);
      size_ := size_ + (newSize - curSize);
    }

    method Reserve(newCapacity: nat)
      requires Valid()
      modifies this
      ensures Valid() && Kept() && Elements() == old(Elements()) && newCapacity <= Capacity()
    {
      if newCapacity > Capacity() {
        ChangeCapacity(newCapacity);
      }
    }

    /** In place again if the elements fit. */
    method ShrinkToFit()
      requires Valid()
      modifies this
      ensures Valid() && Kept() && Elements() == old(Elements())
      ensures IsDirect() <==> Size() <= N
      ensures Capacity() == if Size() <= N then N else Size()
    {
      ChangeCapacity(Size());
    }

    method Clear()
      requires Valid()
      modifies this, union.slots
      ensures Valid() && Kept() && Elements() == []
    {
      Resize(0);
    }

    method AssignFill(n: nat, val: T)
      requires Valid()
      modifies this, union.slots
      ensures Valid() && Kept() && Elements() == seq(n, _ => val)
    {
      Clear();
      if Capacity() < n {
        ChangeCapacity(n);
      }
      size_ := size_ + n;
      Fill(0, n, val);
    }

    method Assign(xs: seq<T>)
      requires Valid()
      modifies this, union.slots
      ensures Valid() && Kept() && Elements() == xs
    {
      Clear();
      if Capacity() < |xs| {
        ChangeCapacity(|xs|);
      }
      size_ := size_ + |xs|;
      FillRange(0, xs);
    }

    /** Moves the elements from p on up by count places. */
    method Open(p: nat, count: nat)
      requires Valid() && p <= Size() && Size() + count <= Capacity()
      modifies union.slots
      ensures union.slots[..p] == old(union.slots[..p])
      ensures union.slots[p + count..Size() + count] == old(union.slots[p..Size()])
    {
      var end := Size();
      forall i | p + count <= i < end + count {
        union.slots[i] := union.slots[i - count];
      }
    }

    /** The common part of the insertions: count free places before element p. */
    method MakeRoom(p: nat, count: nat)
      requires Valid() && p <= Size()
      modifies this, union.slots
      ensures Valid() && Kept() && Size() == old(Size()) + count
      ensures union.slots[..p] == old(Elements()[..p])
      ensures union.slots[p + count..Size()] == old(Elements()[p..])
    {
      ghost var was := Elements();
      Grow(Size() + count);
      assert union.slots[..p] == was[..p] && union.slots[p..Size()] == was[p..];
      Open(p, count);
      size_ := size_ + count;
    }

    /** Storage whose middle is written holds the parts in order. */
    lemma Joined(before: seq<T>, mid: seq<T>, after: seq<T>, all: seq<T>, p: nat, end: nat)
      requires p + |mid| <= end <= |all| && |before| == |all|
      requires all == before[..p] + mid + before[p + |mid|..] && after == before[p + |mid|..end]
      ensures all[..end] == before[..p] + mid + after
    {
    }

    lemma Replaced(before: seq<T>, p: nat, value: T)
      requires p < |before|
      ensures before[p := value] == before[..p] + [value] + before[p + 1..]
    {
    }

    method Insert(p: nat, value: T)
      requires Valid() && p <= Size()
      modifies this, union.slots
      ensures Valid() && Kept() && Elements() == old(Elements()[..p] + [value] + Elements()[p..])
    {
      MakeRoom(p, 1);
      ghost var before := union.slots[..];
      union.slots[p] := value;
      assert union.slots[..] == before[p := value];
      Replaced(before, p, value);
      Joined(before, [value], before[p + 1..Size()], union.slots[..], p, Size());
    }

    method InsertFill(p: nat, count: nat, value: T)
      requires Valid() && p <= Size()
      modifies this, union.slots
      ensures Valid() && Kept()
      ensures Elements() == old(Elements()[..p]) + seq(count, _ => value) + old(Elements()[p..])
    {
      MakeRoom(p, count);
      ghost var before, mid := union.slots[..], seq(count, _ => value);
      Fill(p, count, value);
      Joined(before, mid, before[p + count..Size()], union.slots[..], p, Size());
    }

    method InsertRange(p: nat, xs: seq<T>)
      requires Valid() && p <= Size()
      modifies this, union.slots
      ensures Valid() && Kept() && Elements() == old(Elements()[..p]) + xs + old(Elements()[p..])
    {
      MakeRoom(p, |xs|);
      ghost var before := union.slots[..];
      FillRange(p, xs);
      Joined(before, xs, before[p + |xs|..Size()], union.slots[..], p, Size());
    }

    method PushBack(value: T)
      requires Valid()
      modifies this, union.slots
      ensures Valid() && Kept() && Elements() == old(Elements()) + [value]
      ensures Capacity() ==
        if old(Size() < Capacity()) then old(Capacity()) else old(Size()) + 1 + (old(Size()) + 1) / 2
      ensures moved == old(moved) + if old(Size() < Capacity()) then 0 else old(Size())
    {
      Grow(Size() + 1);
      union.slots[Size()] := value;
      size_ := size_ + 1;
    }

    method PopBack()
      requires Valid() && Size() > 0
      modifies this`size_, union.slots
      ensures Valid() && Elements() == old(Elements())[..old(Size()) - 1]
    {
      Erase(Size() - 1, Size());
    }

    /** Elements, storage and the size that says where they are change places. */
    method Swap(other: Prevector<T>)
      requires Valid() && other.Valid() && N == other.N
      modifies this`union, this`size_, other`union, other`size_
      ensures Valid() && other.Valid()
      ensures union == old(other.union) && other.union == old(union)
      ensures size_ == old(other.size_) && other.size_ == old(size_)
      ensures Elements() == old(other.Elements()) && other.Elements() == old(Elements())
    {
      var storage := union;
      union := other.union;
      other.union := storage;
      var size := size_;
      size_ := other.size_;
      other.size_ := size;
    }
  }

  // ---- Runs of operations ----

  datatype Op<T> =
    | DoAssign(xs: seq<T>)
    | DoAssignFill(n: nat, val: T)
    | DoResize(n: nat)
    | DoReserve(n: nat)
    | DoShrink
    | DoClear
    | DoInsert(p: nat, val: T)
    | DoInsertFill(p: nat, n: nat, val: T)
    | DoInsertRange(p: nat, xs: seq<T>)
    | DoErase(p: nat, q: nat)
    | DoPush(val: T)
    | DoPop

  /** The positions an operation names are in the vector. */
  predicate Allowed<T>(op: Op<T>, s: seq<T>) {
    match op
    case DoInsert(p, _) => p <= |s|
    case DoInsertFill(p, _, _) => p <= |s|
    case DoInsertRange(p, _) => p <= |s|
    case DoErase(p, q) => p <= q <= |s|
    case DoPop => s != []
    case _ => true
  }

  /** The operation on a plain sequence. */
  function Apply<T>(op: Op<T>, zero: T, s: seq<T>): seq<T>
    requires Allowed(op, s)
  {
    match op
    case DoAssign(xs) => xs
    case DoAssignFill(n, val) => seq(n, _ => val)
    case DoResize(n) => if n <= |s| then s[..n] else s + seq(n - |s|, _ => zero)
    case DoReserve(_) => s
    case DoShrink => s
    case DoClear => []
    case DoInsert(p, val) => s[..p] + [val] + s[p..]
    case DoInsertFill(p, n, val) => s[..p] + seq(n, _ => val) + s[p..]
    case DoInsertRange(p, xs) => s[..p] + xs + s[p..]
    case DoErase(p, q) => s[..p] + s[q..]
    case DoPush(val) => s + [val]
    case DoPop => s[..|s| - 1]
  }

  ghost predicate AllAllowed<T>(ops: seq<Op<T>>, zero: T, s: seq<T>) {
    ops != [] ==> Allowed(ops[0], s) && AllAllowed(ops[1..], zero, Apply(ops[0], zero, s))
  }

  ghost function ApplyAll<T>(ops: seq<Op<T>>, zero: T, s: seq<T>): seq<T>
    requires AllAllowed(ops, zero, s)
    decreases |ops|
  {
    if ops == [] then s else ApplyAll(ops[1..], zero, Apply(ops[0], zero, s))
  }

  method Do<T>(v: Prevector<T>, op: Op<T>)
    requires v.Valid() && Allowed(op, v.Elements())
    modifies v, v.union.slots
    ensures v.Valid() && (v.union.slots == old(v.union.slots) || fresh(v.union.slots))
    ensures v.Elements() == Apply(op, v.zero, old(v.Elements()))
  {
    match op
    case DoAssign(xs) => v.Assign(xs);
    case DoAssignFill(n, val) => v.AssignFill(n, val);
    case DoResize(n) => v.Resize(n);
    case DoReserve(n) => v.Reserve(n);
    case DoShrink => v.ShrinkToFit();
    case DoClear => v.Clear();
    case DoInsert(p, val) => v.Insert(p, val);
    case DoInsertFill(p, n, val) => v.InsertFill(p, n, val);
    case DoInsertRange(p, xs) => v.InsertRange(p, xs);
    case DoErase(p, q) => v.Erase(p, q);
    case DoPush(val) => v.PushBack(val);
    case DoPop => v.PopBack();
  }

  /** Any run of operations on one vector leaves what it leaves in a plain sequence. */
  method Run<T>(v: Prevector<T>, ops: seq<Op<T>>)
    requires v.Valid() && AllAllowed(ops, v.zero, v.Elements())
    modifies v, v.union.slots
    ensures v.Valid() && v.Elements() == ApplyAll(ops, v.zero, old(v.Elements()))
  {
    for i := 0 to |ops|
      invariant v.Valid() && (v.union.slots == old(v.union.slots) || fresh(v.union.slots))
      invariant AllAllowed(ops[i..], v.zero, v.Elements())
      invariant ApplyAll(ops[i..], v.zero, v.Elements()) == ApplyAll(ops, v.zero, old(v.Elements()))
    {
      assert ops[i..][1..] == ops[i + 1..];
      Do(v, ops[i]);
    }
  }

  // ---- Runs over two vectors ----

  datatype PairOp<T> = OnFirst(op: Op<T>) | OnSecond(op: Op<T>) | DoSwap

  predicate PairAllowed<T>(op: PairOp<T>, p: (seq<T>, seq<T>)) {
    match op
    case OnFirst(o) => Allowed(o, p.0)
    case OnSecond(o) => Allowed(o, p.1)
    case DoSwap => true
  }

  function PairApply<T>(op: PairOp<T>, zero: T, p: (seq<T>, seq<T>)): (seq<T>, seq<T>)
    requires PairAllowed(op, p)
  {
    match op
    case OnFirst(o) => (Apply(o, zero, p.0), p.1)
    case OnSecond(o) => (p.0, Apply(o, zero, p.1))
    case DoSwap => (p.1, p.0)
  }

  ghost predicate AllPairAllowed<T>(ops: seq<PairOp<T>>, zero: T, p: (seq<T>, seq<T>)) {
    ops != [] ==> PairAllowed(ops[0], p) && AllPairAllowed(ops[1..], zero, PairApply(ops[0], zero, p))
  }

  ghost function PairApplyAll<T>(ops: seq<PairOp<T>>, zero: T, p: (seq<T>, seq<T>)): (seq<T>, seq<T>)
    requires AllPairAllowed(ops, zero, p)
    decreases |ops|
  {
    if ops == [] then p else PairApplyAll(ops[1..], zero, PairApply(ops[0], zero, p))
  }

  /** Two vectors of one type that share no storage. */
  ghost predicate Separate<T>(v: Prevector<T>, w: Prevector<T>)
    reads v, w, v.union.slots, w.union.slots
  {
    v != w && v.union.slots != w.union.slots && v.Valid() && w.Valid() && v.N == w.N && v.zero == w.zero
  }

  ghost function Both<T>(v: Prevector<T>, w: Prevector<T>): (seq<T>, seq<T>)
    requires v.Valid() && w.Valid()
    reads v, w, v.union.slots, w.union.slots
  {
    (v.Elements(), w.Elements())
  }

  method DoPair<T>(v: Prevector<T>, w: Prevector<T>, op: PairOp<T>)
    requires Separate(v, w) && PairAllowed(op, Both(v, w))
    modifies v, w, v.union.slots, w.union.slots
    ensures Separate(v, w) && fresh({v.union.slots, w.union.slots} - old({v.union.slots, w.union.slots}))
    ensures Both(v, w) == PairApply(op, v.zero, old(Both(v, w)))
  {
    match op
    case OnFirst(o) => Do(v, o);
    case OnSecond(o) => Do(w, o);
    case DoSwap => v.Swap(w);
  }

  /** Any run of operations on two vectors, exchanges of the two among them, leaves what it
      leaves in two plain sequences. */
  method RunPair<T>(v: Prevector<T>, w: Prevector<T>, ops: seq<PairOp<T>>)
    requires Separate(v, w) && AllPairAllowed(ops, v.zero, Both(v, w))
    modifies v, w, v.union.slots, w.union.slots
    ensures Separate(v, w) && Both(v, w) == PairApplyAll(ops, v.zero, old(Both(v, w)))
  {
    for i := 0 to |ops|
      invariant Separate(v, w) && fresh({v.union.slots, w.union.slots} - old({v.union.slots, w.union.slots}))
      invariant AllPairAllowed(ops[i..], v.zero, Both(v, w))
      invariant PairApplyAll(ops[i..], v.zero, Both(v, w)) == PairApplyAll(ops, v.zero, old(Both(v, w)))
    {
      assert ops[i..][1..] == ops[i + 1..];
      DoPair(v, w, ops[i]);
    }
  }

  // ---- Growth ----

  /** Growing from a full vector of c elements pays for the copy out of the new capacity. */
  lemma GrowthPays(c: nat, moved: nat)
    requires moved <= 2 * c
    ensures moved + c <= 2 * (c + 1 + (c + 1) / 2) && moved + c <= 3 * c
  {
  }

  /** Pushing n elements onto an empty vector moves at most 3n elements in all. */
  method PushAll<T>(n: nat, zero: T, xs: seq<T>) returns (v: Prevector<T>)
    ensures fresh(v) && v.Valid() && v.Elements() == xs && v.moved <= 3 * |xs|
  {
    v := new Prevector<T>(n, zero);
    for i := 0 to |xs|
      invariant fresh(v) && fresh(v.union.slots) && v.Valid() && v.Elements() == xs[..i]
      invariant v.moved <= 2 * v.Capacity() && v.moved <= 3 * v.Size()
    {
      assert xs[..i + 1] == xs[..i] + [xs[i]];
      GrowthPays(v.Capacity(), v.moved);
      v.PushBack(xs[i]);
    }
    assert xs[..|xs|] == xs;
  }
}
