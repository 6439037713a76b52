/** Exactly when flattening keeps the meaning of conditions. */
module FlattenExactly {
  import opened Wrappers
  import opened Zql
  import opened AstNormalise

  predicate Leaf<V>(c: Condition<V>) { c.Simple? || c.Exists? }

  /** The same ANDs and ORs, with any leaves. */
  predicate SameShape<U, V>(c: Condition<U>, d: Condition<V>)
    decreases c, 0
  {
    match c
    case And(cs) => d.And? && SameShapes(cs, d.conditions)
    case Or(cs) => d.Or? && SameShapes(cs, d.conditions)
    case _ => Leaf(d)
  }

  predicate SameShapes<U, V>(cs: seq<Condition<U>>, ds: seq<Condition<V>>)
    decreases cs, 0
  {
    |cs| == |ds| && (cs == [] || (SameShape(cs[0], ds[0]) && SameShapes(cs[1..], ds[1..])))
  }

  // ----- dropping is a matter of shape

  lemma {:induction false} ShapeIsSafe<U, V>(conj: bool, c: Condition<U>, d: Condition<V>)
    requires SameShape(c, d)
    ensures Hollow(c) == Hollow(d) && Constant(c) == Constant(d) && Safe(conj, c) == Safe(conj, d)
    decreases c, 0
  {
    match c
    case And(cs) => ShapesAreSafe(true, cs, d.conditions);
    case Or(cs) => ShapesAreSafe(false, cs, d.conditions);
    case _ =>
  }

  lemma {:induction false} ShapesAreSafe<U, V>(conj: bool, cs: seq<Condition<U>>, ds: seq<Condition<V>>)
    requires SameShapes(cs, ds)
    ensures AllHollow(cs) == AllHollow(ds) && SafeAll(conj, cs) == SafeAll(conj, ds)
    ensures forall b :: SomeConstant(b, cs) == SomeConstant(b, ds)
    decreases cs, 0
  {
    hide Hollow, Safe, SameShape;
    if cs != [] {
      ShapeIsSafe(conj, cs[0], ds[0]);
      ShapesAreSafe(conj, cs[1..], ds[1..]);
    }
  }

  // ----- leaves that are true or false at will

  /** A leaf is true or false as its operator says. */
  function Plainly(): World<bool> {
    World(_ => [], _ => [], t => t, (_, c) => c, (op, _, _) => if op == "true" then T else F, (_, _) => T, (_, _) => [],
          (_, _, _, _) => true)
  }

  function LeafOf(b: bool): Condition<bool> {
    Simple(if b then "true" else "false", Literal(b), Literal(b))
  }

  function TriOf(b: bool): Tri { if b then T else F }

  function NoRow(): Row<bool> { _ => false }

  function Truthful(c: Condition<bool>): Tri { Truth(Plainly(), c, "", NoRow()) }

  function AllTruthful(conj: bool, cs: seq<Condition<bool>>): Tri { Combined(Plainly(), conj, cs, "", NoRow()) }

  /** The condition with all leaves true, or all false. */
  function Filled<V>(c: Condition<V>, b: bool): Condition<bool>
    decreases c, 0
  {
    match c
    case And(cs) => And(AllFilled(cs, b))
    case Or(cs) => Or(AllFilled(cs, b))
    case _ => LeafOf(b)
  }

  function AllFilled<V>(cs: seq<Condition<V>>, b: bool): (r: seq<Condition<bool>>)
    ensures |r| == |cs|
    decreases cs, 0
  {
    if cs == [] then [] else [Filled(cs[0], b)] + AllFilled(cs[1..], b)
  }

  lemma {:induction false} FilledShape<V>(c: Condition<V>, b: bool)
    ensures SameShape(c, Filled(c, b)) && Hollow(Filled(c, b)) == Hollow(c)
    decreases c, 0
  {
    match c
    case And(cs) => AllFilledShape(cs, b);
    case Or(cs) => AllFilledShape(cs, b);
    case _ =>
  }

  lemma {:induction false} AllFilledShape<V>(cs: seq<Condition<V>>, b: bool)
    ensures SameShapes(cs, AllFilled(cs, b)) && AllHollow(AllFilled(cs, b)) == AllHollow(cs)
    decreases cs, 0
  {
    hide SameShape, Filled, Hollow;
    if cs != [] {
      FilledShape(cs[0], b);
      AllFilledShape(cs[1..], b);
      assert AllFilled(cs, b)[1..] == AllFilled(cs[1..], b);
    }
  }

  // ----- what flattening makes of a list

  lemma EachStep(conj: bool, c: Condition<bool>, rest: seq<Condition<bool>>)
    ensures AllTruthful(conj, FlatEach([c] + rest))
         == Combine(conj, TruthIn(Plainly(), conj, Flattened(c), "", NoRow()), AllTruthful(conj, FlatEach(rest)))
  {
    hide Flattened, Truth;
    assert ([c] + rest)[1..] == rest;
    CombinedConcat(Plainly(), conj, Defined(Flattened(c)), FlatEach(rest), "", NoRow());
    OneCombined(conj, Flattened(c));
  }

  lemma OneCombined(conj: bool, o: Option<Condition<bool>>)
    ensures AllTruthful(conj, Defined(o)) == TruthIn(Plainly(), conj, o, "", NoRow())
  {
    if o.Some? {
      AllStep(conj, o.value, []);
      assert [o.value] + [] == [o.value];
    }
  }

  lemma AllStep(conj: bool, c: Condition<bool>, rest: seq<Condition<bool>>)
    ensures AllTruthful(conj, [c] + rest) == Combine(conj, Truthful(c), AllTruthful(conj, rest))
  {
    assert ([c] + rest)[1..] == rest;
  }

  /** Children of the parent's kind are flattened one level deeper, which is the same to the parent. */
  lemma {:induction false} EachIsParts(conj: bool, cs: seq<Condition<bool>>)
    ensures AllTruthful(conj, FlatParts(conj, cs)) == AllTruthful(conj, FlatEach(cs))
    decreases cs
  {
    hide Flattened, Truth, AllTruthful, FlatEach, Combined;
    if cs == [] {
      NoParts(conj);
    } else {
      var c := cs[0];
      EachIsParts(conj, cs[1..]);
      assert cs == [c] + cs[1..];
      EachStep(conj, c, cs[1..]);
      PartsStep(conj, c, cs[1..]);
      if IsJunction(conj, c) {
        EachIsParts(conj, c.conditions);
        FlatJunction(conj, c);
      } else {
        OneCombined(conj, Flattened(c));
      }
    }
  }

  lemma NoParts(conj: bool)
    ensures AllTruthful(conj, FlatParts(conj, [])) == AllTruthful(conj, FlatEach([])) == Neutral(conj)
  {
  }

  lemma PartsStep(conj: bool, c: Condition<bool>, rest: seq<Condition<bool>>)
    ensures AllTruthful(conj, FlatParts(conj, [c] + rest))
         == Combine(conj, AllTruthful(conj, if IsJunction(conj, c) then FlatEach(c.conditions) else Defined(Flattened(c))),
                    AllTruthful(conj, FlatParts(conj, rest)))
  {
    hide Flattened, Truth, FlatEach;
    assert ([c] + rest)[1..] == rest;
    CombinedConcat(Plainly(), conj, if IsJunction(conj, c) then FlatEach(c.conditions) else Defined(Flattened(c)),
                   FlatParts(conj, rest), "", NoRow());
  }

  /** What becomes of an AND or an OR. */
  lemma FlatJunction(conj: bool, c: Condition<bool>)
    requires IsJunction(conj, c)
    ensures TruthIn(Plainly(), conj, Flattened(c), "", NoRow()) == AllTruthful(conj, FlatParts(conj, c.conditions))
    ensures Flattened(c).None? <==> FlatParts(conj, c.conditions) == []
  {
    hide Truth, FlatParts;
    var parts := FlatParts(conj, c.conditions);
    if parts != [] { JoinedMeans(Plainly(), conj, parts, "", NoRow()); }
  }

  /** With all leaves alike, what is left is like them. */
  lemma {:induction false} FilledFlat<V>(c: Condition<V>, b: bool)
    requires !Hollow(c)
    ensures Flattened(Filled(c, b)).Some? && Truthful(Flattened(Filled(c, b)).value) == TriOf(b)
    decreases c, 0
  {
    hide FlatParts, FlatEach, AllTruthful, AllHollow;
    var d := Filled(c, b);
    FilledShape(c, b);
    DroppedIsHollow(d);
    match c
    case And(cs) =>
      FlatJunction(true, d);
      EachIsParts(true, d.conditions);
      AllFilledFlat(true, cs, b);
    case Or(cs) =>
      FlatJunction(false, d);
      EachIsParts(false, d.conditions);
      AllFilledFlat(false, cs, b);
    case _ =>
  }

  lemma {:induction false} AllFilledFlat<V>(conj: bool, cs: seq<Condition<V>>, b: bool)
    ensures AllTruthful(conj, FlatEach(AllFilled(cs, b))) == if AllHollow(cs) then Neutral(conj) else TriOf(b)
    decreases cs, 0
  {
    hide Flattened, Filled, FlatEach, AllTruthful, Hollow;
    if cs == [] {
      NoParts(conj);
    } else {
      AllFilledFlat(conj, cs[1..], b);
      EachStep(conj, Filled(cs[0], b), AllFilled(cs[1..], b));
      FilledShape(cs[0], b);
      DroppedIsHollow(Filled(cs[0], b));
      if !Hollow(cs[0]) { FilledFlat(cs[0], b); }
    }
  }

  // ----- where dropping is not safe

  /** Two ways to choose the leaves that the conditions do not tell apart, but what flattening makes of them does. */
  ghost predicate Told(conj: bool, ds: seq<Condition<bool>>, es: seq<Condition<bool>>) {
    && AllTruthful(conj, ds) == AllTruthful(conj, es)
    && AllTruthful(conj, FlatEach(ds)) == T && AllTruthful(conj, FlatEach(es)) == F
  }

  lemma {:induction false} UnsafeAll<V>(conj: bool, cs: seq<Condition<V>>)
    returns (ds: seq<Condition<bool>>, es: seq<Condition<bool>>)
    requires !SafeAll(conj, cs) && !AllHollow(cs)
    ensures SameShapes(cs, ds) && SameShapes(cs, es) && Told(conj, ds, es)
    decreases cs, 1
  {
    hide Flattened, Filled, FlatEach, AllTruthful, Hollow, Safe, SameShape, Truth, Constant;
    var c := cs[0];
    if SafeAll(conj, cs[1..]) && !Hollow(c) {
      var d, e := Unsafe(conj, c);
      ds, es := [d] + AllFilled(cs[1..], conj), [e] + AllFilled(cs[1..], conj);
      AllFilledShape(cs[1..], conj);
      AllFilledFlat(conj, cs[1..], conj);
      EachStep(conj, d, AllFilled(cs[1..], conj));
      EachStep(conj, e, AllFilled(cs[1..], conj));
      AllStep(conj, d, AllFilled(cs[1..], conj));
      AllStep(conj, e, AllFilled(cs[1..], conj));
    } else if !SafeAll(conj, cs[1..]) && !AllHollow(cs[1..]) {
      var ds', es' := UnsafeAll(conj, cs[1..]);
      var d := Filled(c, conj);
      ds, es := [d] + ds', [d] + es';
      FilledShape(c, conj);
      DroppedIsHollow(d);
      if !Hollow(c) { FilledFlat(c, conj); }
      EachStep(conj, d, ds');
      EachStep(conj, d, es');
      AllStep(conj, d, ds');
      AllStep(conj, d, es');
    } else {
      ds, es := AllFilled(cs, true), AllFilled(cs, false);
      AllFilledShape(cs, conj);
      AllFilledShape(cs, !conj);
      AllFilledFlat(conj, cs, conj);
      AllFilledFlat(conj, cs, !conj);
      WrongConstant(conj, cs);
      ConstantAnyway(conj, cs, conj);
      ConstantAnyway(conj, cs, !conj);
    }
  }

  /** Some condition is dropped that decides everything. */
  ghost predicate Decided<V>(conj: bool, cs: seq<Condition<V>>) {
    exists i :: 0 <= i < |cs| && Hollow(cs[i]) && Constant(cs[i]) != conj
  }

  lemma WrongConstant<V>(conj: bool, cs: seq<Condition<V>>)
    requires cs != [] && !SafeAll(conj, cs)
    requires !(SafeAll(conj, cs[1..]) && !Hollow(cs[0])) && !(!SafeAll(conj, cs[1..]) && !AllHollow(cs[1..]))
    ensures Decided(conj, cs)
  {
    if SafeAll(conj, cs[1..]) {
      assert Hollow(cs[0]) && Constant(cs[0]) != conj;
    } else {
      var i := WrongHollow(conj, cs[1..]);
      assert cs[i + 1] == cs[1..][i];
    }
  }

  lemma {:induction false} WrongHollow<V>(conj: bool, cs: seq<Condition<V>>) returns (i: nat)
    requires AllHollow(cs) && !SafeAll(conj, cs)
    ensures i < |cs| && Hollow(cs[i]) && Constant(cs[i]) != conj
  {
    hide Hollow, Constant;
    if Safe(conj, cs[0]) {
      var j := WrongHollow(conj, cs[1..]);
      i := j + 1;
    } else {
      i := 0;
    }
  }

  lemma {:induction false} ConstantAnyway<V>(conj: bool, cs: seq<Condition<V>>, b: bool)
    requires Decided(conj, cs)
    ensures AllTruthful(conj, AllFilled(cs, b)) == Neutral(!conj)
    decreases cs
  {
    hide Hollow, Constant, Truth, Filled, AllTruthful;
    var i :| 0 <= i < |cs| && Hollow(cs[i]) && Constant(cs[i]) != conj;
    AllStep(conj, Filled(cs[0], b), AllFilled(cs[1..], b));
    if i == 0 {
      FilledShape(cs[0], b);
      ShapeIsSafe(conj, cs[0], Filled(cs[0], b));
      HollowIsConstant(Plainly(), Filled(cs[0], b), "", NoRow());
    } else {
      assert cs[1..][i - 1] == cs[i];
      ConstantAnyway(conj, cs[1..], b);
    }
  }

  /** The same for one condition with leaves. */
  lemma {:induction false} Unsafe<V>(conj: bool, c: Condition<V>) returns (d: Condition<bool>, e: Condition<bool>)
    requires !Hollow(c) && !Safe(conj, c)
    ensures SameShape(c, d) && SameShape(c, e) && Truthful(d) == Truthful(e)
    ensures Flattened(d).Some? && Truthful(Flattened(d).value) == T && Flattened(e).Some? && Truthful(Flattened(e).value) == F
    decreases c, 0
  {
    hide Flattened, FlatEach, FlatParts;
    var ds, es := UnsafeAll(c.And?, c.conditions);
    d, e := Junction(c.And?, ds), Junction(c.And?, es);
    ShapeIsSafe(conj, c, d);
    ShapeIsSafe(conj, c, e);
    DroppedIsHollow(d);
    DroppedIsHollow(e);
    FlatJunction(c.And?, d);
    FlatJunction(c.And?, e);
    EachIsParts(c.And?, ds);
    EachIsParts(c.And?, es);
  }

  // ----- the exact condition

  /** Flattening keeps the truth of the condition in every world. */
  ghost predicate Kept(conj: bool, d: Condition<bool>) {
    forall w: World<bool>, table: string, row: Row<bool> :: TruthIn(w, conj, Flattened(d), table, row) == Truth(w, d, table, row)
  }

  /**
   Flattening keeps the truth of all conditions with the ANDs and ORs of `c`, whatever their leaves are, exactly if dropping
   is safe in `c`.
   */
  lemma SafeExactly<V>(conj: bool, c: Condition<V>)
    ensures Safe(conj, c) <==> forall d: Condition<bool> :: SameShape(c, d) ==> Kept(conj, d)
  {
    hide Truth, Flattened, Hollow, SameShape;
    if Safe(conj, c) {
      forall d: Condition<bool> | SameShape(c, d) ensures Kept(conj, d) {
        ShapeIsSafe(conj, c, d);
        forall w: World<bool>, table: string, row: Row<bool>
          ensures TruthIn(w, conj, Flattened(d), table, row) == Truth(w, d, table, row)
        {
          FlattenedMeans(w, conj, d, table, row);
        }
      }
    } else if Hollow(c) {
      var d := Filled(c, true);
      FilledShape(c, true);
      ShapeIsSafe(conj, c, d);
      DroppedIsHollow(d);
      HollowIsConstant(Plainly(), d, "", NoRow());
      assert !Kept(conj, d);
    } else {
      var d, e := Unsafe(conj, c);
      assert !(Kept(conj, d) && Kept(conj, e));
    }
  }
}
