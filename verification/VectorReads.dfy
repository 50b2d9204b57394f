/**
 serialize.h: reading a vector element by element from a stream, its slots resized in steps.
 */
module VectorReads {
  import opened Wrappers
  import opened Wire

  /** A stream operation did what the format says. */
  ghost predicate Outcome<T>(d: Dec<T>, r: Result<T>, rest: seq<byte>) {
    match d
    case Good(v, t) => r == Ok(v) && rest == t
    case Bad(t) => r == Thrown && rest == t
  }

  /** Most methods are proved for any format g that decodes like the one they implement. */
  ghost predicate Same<T>(g: Format<T>, h: Format<T>) {
    forall s {:trigger h.dec(s)} :: g.dec(s) == h.dec(s)
  }

  /** std::vector::resize */
  function Resize<T>(v: seq<T>, n: nat, x: T): (w: seq<T>)
    ensures |w| == n && forall i :: 0 <= i < n ==> w[i] == if i < |v| then v[i] else x
    decreases n - |v|
  {
    if n <= |v| then v[..n] else Resize(v + [x], n, x)
  }

  function Prepend<T>(xs: seq<T>, d: Dec<seq<T>>): Dec<seq<T>> {
    match d
    case Bad(r) => Bad(r)
    case Good(ys, r) => Good(xs + ys, r)
  }

  lemma PrependNone<T>(d: Dec<seq<T>>)
    ensures Prepend([], d) == d
  {
    if d.Good? {
      assert [] + d.value == d.value;
    }
  }

  /** What is still to be read after the first i elements. */
  lemma PrependNext<T>(g: Format<T>, xs: seq<T>, k: nat, s: seq<byte>)
    requires k > 0
    ensures Prepend(xs, ManyDec(g, k, s)) ==
      match g.dec(s) { case Bad(r) => Bad(r) case Good(x, r) => Prepend(xs + [x], ManyDec(g, k - 1, r)) }
  {
    var d := g.dec(s);
    if d.Good? && ManyDec(g, k - 1, d.rest).Good? {
      var ys := ManyDec(g, k - 1, d.rest).value;
      assert xs + ([d.value] + ys) == xs + [d.value] + ys;
    }
  }

  /** The vector's first i elements are read, the others are yet to be. */
  ghost predicate Reading<T>(g: Format<T>, nSize: nat, whole: Dec<seq<T>>, v: seq<T>, i: nat, rest: seq<byte>) {
    i <= |v| && i <= nSize && Prepend(v[..i], ManyDec(g, nSize - i, rest)) == whole
  }

  lemma ReadingNext<T>(g: Format<T>, nSize: nat, whole: Dec<seq<T>>, v: seq<T>, i: nat, rest: seq<byte>, x: Result<T>,
          rest': seq<byte>)
    requires Reading(g, nSize, whole, v, i, rest) && i < nSize && i < |v| && Outcome(g.dec(rest), x, rest')
    ensures x.Thrown? ==> whole == Bad(rest')
    ensures x.Ok? ==> Reading(g, nSize, whole, v[i := x.value], i + 1, rest')
  {
    PrependNext(g, v[..i], nSize - i, rest);
    if x.Ok? {
      assert v[i := x.value][..i + 1] == v[..i] + [x.value];
    }
  }

  lemma ReadingResize<T>(g: Format<T>, nSize: nat, whole: Dec<seq<T>>, v: seq<T>, i: nat, rest: seq<byte>, n: nat, x: T)
    requires Reading(g, nSize, whole, v, i, rest) && i <= n
    ensures Reading(g, nSize, whole, Resize(v, n, x), i, rest)
  {
    assert Resize(v, n, x)[..i] == v[..i];
  }

  lemma ReadingStart<T>(g: Format<T>, nSize: nat, s: seq<byte>)
    ensures Reading(g, nSize, ManyDec(g, nSize, s), [], 0, s)
  {
    PrependNone(ManyDec(g, nSize, s));
  }

  lemma ReadingEnd<T>(g: Format<T>, nSize: nat, whole: Dec<seq<T>>, v: seq<T>, rest: seq<byte>)
    requires Reading(g, nSize, whole, v, nSize, rest) && |v| == nSize
    ensures whole == Good(v, rest)
  {
    assert v[..nSize] == v && v + [] == v;
  }

  /** The outcome of reading the first i of n slots. */
  ghost predicate Filled<T>(g: Format<T>, nSize: nat, whole: Dec<seq<T>>, n: nat, i: nat, r: Result<seq<T>>,
          rest: seq<byte>)
  {
    if r.Ok? then |r.value| == n && Reading(g, nSize, whole, r.value, i, rest) else whole == Bad(rest)
  }
}
