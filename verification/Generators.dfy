/**
 Codes whose generator has three consecutive roots, as the design of bech32.cpp wants it:
 states are polynomials, a step is Horner's rule, and x^6 and its remainder have the same
 value at a root.
 */
module Generators {
  import opened Checksums
  import opened Syndromes

  /** A polynomial, the first coefficient highest, at the n-th power of the root. */
  function Value<W(!new)>(F: Space<W>, n: nat, ps: seq<W>): W {
    if ps == [] then F.zero else F.add(Turn(F, n, Value(F, n, ps[..|ps| - 1])), ps[|ps| - 1])
  }

  lemma ValueSnoc<W(!new)>(F: Space<W>, n: nat, ps: seq<W>, p: W)
    ensures Value(F, n, ps + [p]) == F.add(Turn(F, n, Value(F, n, ps)), p)
  {
    assert (ps + [p])[..|ps|] == ps;
  }

  lemma {:induction false} ValueAdds<W(!new)>(F: Space<W>, n: nat, ps: seq<W>, qs: seq<W>, rs: seq<W>)
    requires Vectors(F) && Turns(F)
    requires |ps| == |qs| == |rs| && forall i :: 0 <= i < |ps| ==> rs[i] == F.add(ps[i], qs[i])
    ensures Value(F, n, rs) == F.add(Value(F, n, ps), Value(F, n, qs))
  {
    if ps != [] {
      var k := |ps| - 1;
      var a, b := Value(F, n, ps[..k]), Value(F, n, qs[..k]);
      ValueAdds(F, n, ps[..k], qs[..k], rs[..k]);
      TurnSum(F, n, a, b);
      Pairs(F, Turn(F, n, a), Turn(F, n, b), ps[k], qs[k]);
    }
  }

  /** The highest coefficient and the others. */
  lemma {:induction false} ValueCons<W(!new)>(F: Space<W>, n: nat, p: W, ps: seq<W>)
    requires Vectors(F) && Turns(F)
    ensures Value(F, n, [p] + ps) == F.add(Turn(F, Angle(n, |ps|), p), Value(F, n, ps))
  {
    if ps == [] {
      ValueOne(F, n, p);
      assert [p] + ps == [p] && Angle(n, 0) == 0;
    } else {
      var k := |ps| - 1;
      var a, q := Turn(F, Angle(n, k), p), Value(F, n, ps[..k]);
      assert [p] + ps == [p] + ps[..k] + [ps[k]];
      ValueSnoc(F, n, [p] + ps[..k], ps[k]);
      ValueCons(F, n, p, ps[..k]);
      TurnSum(F, n, a, q);
      TurnOnce(F, n, k + 1, p);
      assert Associates(F, Turn(F, Angle(n, k + 1), p), Turn(F, n, q), ps[k]);
    }
  }

  lemma ValueSix<W(!new)>(F: Space<W>, n: nat, ps: seq<W>, t1: W, t2: W, t3: W, t4: W, t5: W)
    requires Vectors(F) && Turns(F) && |ps| == 6
    requires Turn(F, n, ps[0]) == t1 && Turn(F, n, F.add(t1, ps[1])) == t2 && Turn(F, n, F.add(t2, ps[2])) == t3
    requires Turn(F, n, F.add(t3, ps[3])) == t4 && Turn(F, n, F.add(t4, ps[4])) == t5
    ensures Value(F, n, ps) == F.add(t5, ps[5])
  {
    assert ps[..1] == [ps[0]] && ps[..2] == ps[..1] + [ps[1]] && ps[..3] == ps[..2] + [ps[2]];
    assert ps[..4] == ps[..3] + [ps[3]] && ps[..5] == ps[..4] + [ps[4]] && ps == ps[..5] + [ps[5]];
    ValueOne(F, n, ps[0]);
    ValueSnoc(F, n, ps[..1], ps[1]);
    ValueSnoc(F, n, ps[..2], ps[2]);
    ValueSnoc(F, n, ps[..3], ps[3]);
    ValueSnoc(F, n, ps[..4], ps[4]);
    ValueSnoc(F, n, ps[..5], ps[5]);
  }

  lemma ValueOne<W(!new)>(F: Space<W>, n: nat, p: W)
    requires Vectors(F) && Turns(F)
    ensures Value(F, n, [p]) == p == F.add(p, F.zero)
  {
    ValueSnoc(F, n, [], p);
    TurnZero(F, n);
    assert [] + [p] == [p] && Commutes(F, F.zero, p);
  }

  /** Coefficients that are m turns of others make m turns of their value. */
  lemma {:induction false} ValueTurns<W(!new)>(F: Space<W>, n: nat, m: nat, ps: seq<W>, qs: seq<W>)
    requires Vectors(F) && Turns(F)
    requires |ps| == |qs| && forall i :: 0 <= i < |ps| ==> qs[i] == Turn(F, m, ps[i])
    ensures Value(F, n, qs) == Turn(F, m, Value(F, n, ps))
  {
    if ps == [] {
      TurnZero(F, m);
    } else {
      var k := |ps| - 1;
      var a := Value(F, n, ps[..k]);
      ValueTurns(F, n, m, ps[..k], qs[..k]);
      TurnAdd(F, n, m, a);
      TurnAdd(F, m, n, a);
      TurnSum(F, m, Turn(F, n, a), ps[k]);
    }
  }

  /** Coefficients that are m turns of others keep the value of x^6 times w, turned too. */
  lemma TurnedReduced<W(!new)>(F: Space<W>, n: nat, m: nat, ps: seq<W>, qs: seq<W>, w: W)
    requires Vectors(F) && Turns(F) && Value(F, n, ps) == Turn(F, Angle(n, 6), w)
    requires |ps| == |qs| && forall i :: 0 <= i < |ps| ==> qs[i] == Turn(F, m, ps[i])
    ensures Value(F, n, qs) == Turn(F, Angle(n, 6), Turn(F, m, w))
  {
    ValueTurns(F, n, m, ps, qs);
    TurnAdd(F, m, Angle(n, 6), w);
    TurnAdd(F, Angle(n, 6), m, w);
  }

  // ---- Generators with three roots ----

  /** The space of the roots, of which the first is `base` turns of one, and the place of the
      symbols in it. A step moves a state up by a symbol and adds what the symbol moved out is
      reduced to. */
  datatype Generator<!S(!new), !W(!new)> = Generator(
    space: Space<W>, base: nat, place: S -> W, moved: (S, S) -> S, reduced: S -> S)

  /** A state as a polynomial. */
  function Places<S(!new), W(!new)>(C: Code<S>, G: Generator<S, W>, c: S): (ps: seq<W>)
    ensures |ps| == 6 && forall i :: 0 <= i < 6 ==> ps[i] == G.place(Six(C, c)[i])
  {
    var s := Six(C, c);
    seq(6, i requires 0 <= i < 6 => G.place(s[i]))
  }

  /** The value of a state at the n-th power of the root. */
  function At<S(!new), W(!new)>(C: Code<S>, G: Generator<S, W>, n: nat, c: S): W {
    Value(G.space, n, Places(C, G, c))
  }

  ghost predicate CutsAdd<S(!new)>(C: Code<S>, c: S, d: S) {
    C.low(C.add(c, d)) == C.add(C.low(c), C.low(d)) && C.high(C.add(c, d)) == C.add(C.high(c), C.high(d))
  }

  ghost predicate PlacesAdd<S(!new), W(!new)>(C: Code<S>, G: Generator<S, W>, v: S, w: S) {
    G.place(C.add(v, w)) == G.space.add(G.place(v), G.place(w))
  }

  ghost predicate Additive<S(!new), W(!new)>(C: Code<S>, G: Generator<S, W>) {
    && (forall c, d {:trigger CutsAdd(C, c, d)} :: CutsAdd(C, c, d))
    && (forall v, w {:trigger PlacesAdd(C, G, v, w)} :: PlacesAdd(C, G, v, w))
  }

  ghost predicate StepMoves<S(!new), W(!new)>(C: Code<S>, G: Generator<S, W>, c: S, v: S) {
    && C.step(c, v) == C.add(G.moved(c, v), G.reduced(Six(C, c)[0]))
    && Six(C, G.moved(c, v)) == Six(C, c)[1..] + [v]
  }

  ghost predicate Moves<S(!new), W(!new)>(C: Code<S>, G: Generator<S, W>) {
    forall c, v {:trigger StepMoves(C, G, c, v)} :: C.isState(c) && C.isSymbol(v) ==> StepMoves(C, G, c, v)
  }

  /** The n-th power is a root of the generator: x^6 and its remainder have the same value. */
  ghost predicate Root<S(!new), W(!new)>(C: Code<S>, G: Generator<S, W>, n: nat) {
    forall s {:trigger G.reduced(s)} :: C.isSymbol(s) ==>
      At(C, G, n, G.reduced(s)) == Turn(G.space, Angle(n, 6), G.place(s))
  }

  ghost predicate Faithful<S(!new), W(!new)>(C: Code<S>, G: Generator<S, W>) {
    forall v {:trigger G.place(v)} :: C.isSymbol(v) && G.place(v) == G.space.zero ==> v == C.zero
  }

  ghost predicate Generates<S(!new), W(!new)>(C: Code<S>, G: Generator<S, W>) {
    && Rotates(G.space) && Additive(C, G) && Moves(C, G)
    && Root(C, G, G.base) && Root(C, G, G.base + 1) && Root(C, G, G.base + 2)
    && Faithful(C, G)
  }

  lemma SixAdds<S(!new), W(!new)>(C: Code<S>, G: Generator<S, W>, c: S, d: S)
    requires Additive(C, G)
    ensures forall i :: 0 <= i < 6 ==> Six(C, C.add(c, d))[i] == C.add(Six(C, c)[i], Six(C, d)[i])
  {
    var c1, d1 := C.high(c), C.high(d);
    var c2, d2 := C.high(c1), C.high(d1);
    var c3, d3 := C.high(c2), C.high(d2);
    var c4, d4 := C.high(c3), C.high(d3);
    assert CutsAdd(C, c, d) && CutsAdd(C, c1, d1) && CutsAdd(C, c2, d2) && CutsAdd(C, c3, d3) && CutsAdd(C, c4, d4);
    assert CutsAdd(C, C.high(c4), C.high(d4));
  }

  lemma AtAdds<S(!new), W(!new)>(C: Code<S>, G: Generator<S, W>, n: nat, c: S, d: S)
    requires Vectors(G.space) && Turns(G.space) && Additive(C, G)
    ensures At(C, G, n, C.add(c, d)) == G.space.add(At(C, G, n, c), At(C, G, n, d))
  {
    SixAdds(C, G, c, d);
    forall i | 0 <= i < 6
      ensures Places(C, G, C.add(c, d))[i] == G.space.add(Places(C, G, c)[i], Places(C, G, d)[i])
    {
      assert PlacesAdd(C, G, Six(C, c)[i], Six(C, d)[i]);
    }
    ValueAdds(G.space, n, Places(C, G, c), Places(C, G, d), Places(C, G, C.add(c, d)));
  }

  lemma DoubleOnly<W(!new)>(F: Space<W>, a: W)
    requires Vectors(F) && a == F.add(a, a)
    ensures a == F.zero
  {
    assert Commutes(F, a, a);
  }

  lemma PlacesMoved<S(!new), W(!new)>(C: Code<S>, G: Generator<S, W>, c: S, v: S)
    requires StepMoves(C, G, c, v)
    ensures Places(C, G, c) + [G.place(v)] == [G.place(Six(C, c)[0])] + Places(C, G, G.moved(c, v))
  {
    var s, m := Six(C, c), Six(C, G.moved(c, v));
    assert m == s[1..] + [v];
    forall i | 0 <= i < 7
      ensures (Places(C, G, c) + [G.place(v)])[i] == ([G.place(s[0])] + Places(C, G, G.moved(c, v)))[i]
    {
      assert i > 0 ==> m[i - 1] == if i < 6 then s[i] else v;
    }
  }

  /** A turn of the value and one more symbol: the symbol moved out comes back as x^6. */
  lemma AtMoved<S(!new), W(!new)>(C: Code<S>, G: Generator<S, W>, n: nat, c: S, v: S)
    requires Vectors(G.space) && Turns(G.space) && StepMoves(C, G, c, v)
    ensures G.space.add(Turn(G.space, n, At(C, G, n, c)), G.place(v)) ==
      G.space.add(Turn(G.space, Angle(n, 6), G.place(Six(C, c)[0])), At(C, G, n, G.moved(c, v)))
  {
    ValueSnoc(G.space, n, Places(C, G, c), G.place(v));
    PlacesMoved(C, G, c, v);
    ValueCons(G.space, n, G.place(Six(C, c)[0]), Places(C, G, G.moved(c, v)));
  }

  lemma FirstSymbol<S(!new)>(C: Code<S>, c: S)
    requires Restoring(C) && C.isState(c)
    ensures C.isSymbol(Six(C, c)[0])
  {
    PackSix(C, c);
  }

  /** A step of the checksum is a turn of the value, and the new symbol. */
  lemma AtStep<S(!new), W(!new)>(C: Code<S>, G: Generator<S, W>, n: nat, c: S, v: S)
    requires Restoring(C) && Rotates(G.space) && Additive(C, G) && Moves(C, G) && Root(C, G, n)
    requires C.isState(c) && C.isSymbol(v)
    ensures At(C, G, n, C.step(c, v)) == G.space.add(Turn(G.space, n, At(C, G, n, c)), G.place(v))
  {
    var s := Six(C, c)[0];
    assert StepMoves(C, G, c, v);
    FirstSymbol(C, c);
    AtAdds(C, G, n, G.moved(c, v), G.reduced(s));
    AtMoved(C, G, n, c, v);
    assert Commutes(G.space, At(C, G, n, G.moved(c, v)), At(C, G, n, G.reduced(s)));
  }

  lemma AtZero<S(!new), W(!new)>(C: Code<S>, G: Generator<S, W>, n: nat)
    requires Rotates(G.space) && Additive(C, G) && C.add(C.zero, C.zero) == C.zero
    ensures At(C, G, n, C.zero) == G.space.zero && G.place(C.zero) == G.space.zero
  {
    AtAdds(C, G, n, C.zero, C.zero);
    DoubleOnly(G.space, At(C, G, n, C.zero));
    assert PlacesAdd(C, G, C.zero, C.zero);
    DoubleOnly(G.space, G.place(C.zero));
  }

  function RootsOf<S(!new), W(!new)>(C: Code<S>, G: Generator<S, W>): Roots<S, W> {
    Roots(G.space, G.base, (i: nat, c: S) => At(C, G, G.base + i, c), G.place)
  }

  lemma RootsStep<S(!new), W(!new)>(C: Code<S>, G: Generator<S, W>, i: nat, c: S, v: S)
    requires Restoring(C) && Rotates(G.space) && Additive(C, G) && Moves(C, G) && Root(C, G, G.base + i)
    requires C.isState(c) && C.isSymbol(v)
    ensures StepAt(C, RootsOf(C, G), i, c, v)
  {
    AtStep(C, G, G.base + i, c, v);
  }

  lemma RootsZero<S(!new), W(!new)>(C: Code<S>, G: Generator<S, W>, i: nat)
    requires Rotates(G.space) && Additive(C, G) && C.add(C.zero, C.zero) == C.zero
    ensures RootsOf(C, G).at(i, C.zero) == G.space.zero && G.place(C.zero) == G.space.zero
  {
    AtZero(C, G, G.base + i);
  }

  lemma RootsSteps<S(!new), W(!new)>(C: Code<S>, G: Generator<S, W>, R: Roots<S, W>, i: nat)
    requires Restoring(C) && Rotates(G.space) && Additive(C, G) && Moves(C, G) && Root(C, G, G.base + i)
    requires C.add(C.zero, C.zero) == C.zero && R == RootsOf(C, G)
    ensures Steps(C, R, i)
  {
    RootsZero(C, G, i);
    forall c, v | C.isState(c) && C.isSymbol(v) ensures StepAt(C, R, i, c, v) {
      RootsStep(C, G, i, c, v);
    }
  }

  lemma AddNone<S(!new)>(C: Code<S>)
    requires Group(C)
    ensures C.add(C.zero, C.zero) == C.zero
  {
  }

  lemma GeneratedSteps<S(!new), W(!new)>(C: Code<S>, G: Generator<S, W>, R: Roots<S, W>, i: nat)
    requires Laws(C) && Generates(C, G) && R == RootsOf(C, G) && i < 3
    ensures Steps(C, R, i)
  {
    assert C.add(C.zero, C.zero) == C.zero by { AddNone(C); }
    assert Root(C, G, G.base + i) by { GeneratedRoot(C, G, i); }
    RootsSteps(C, G, R, i);
  }

  lemma GeneratedRoot<S(!new), W(!new)>(C: Code<S>, G: Generator<S, W>, i: nat)
    requires Generates(C, G) && i < 3
    ensures Root(C, G, G.base + i)
  {
  }

  lemma GeneratedPlaces<S(!new), W(!new)>(C: Code<S>, G: Generator<S, W>, R: Roots<S, W>)
    requires Rotates(G.space) && Additive(C, G) && Faithful(C, G)
    requires C.add(C.zero, C.zero) == C.zero && R == RootsOf(C, G)
    ensures Part(C, R, 5)
  {
    RootsZero(C, G, 0);
  }

  lemma GeneratedPart<S(!new), W(!new)>(C: Code<S>, G: Generator<S, W>, R: Roots<S, W>, k: nat)
    requires Laws(C) && Generates(C, G) && R == RootsOf(C, G)
    ensures Part(C, R, k)
  {
    if 2 <= k <= 4 {
      GeneratedSteps(C, G, R, k - 2);
    } else if k > 4 {
      AddNone(C);
      GeneratedPlaces(C, G, R);
    }
  }

  /** The states of a code whose generator has three consecutive roots are evaluated there. */
  lemma GeneratedDesigned<S(!new), W(!new)>(C: Code<S>, G: Generator<S, W>)
    requires Laws(C) && Generates(C, G)
    ensures Designed(C, RootsOf(C, G))
  {
    forall k: nat ensures Part(C, RootsOf(C, G), k) {
      GeneratedPart(C, G, RootsOf(C, G), k);
    }
  }
}
