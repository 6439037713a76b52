/** The normal form of queries, and why it means the same. */
module AstNormalise {
  import opened Wrappers
  import opened Zql
  import opened AstTransform

  // ----- flattening

  function Junction<V>(conj: bool, cs: seq<Condition<V>>): Condition<V> { if conj then And(cs) else Or(cs) }

  predicate IsJunction<V>(conj: bool, c: Condition<V>) { if conj then c.And? else c.Or? }

  function Defined<V>(o: Option<Condition<V>>): seq<Condition<V>> { if o.Some? then [o.value] else [] }

  /** `flattened` */
  function Flattened<V>(c: Condition<V>): Option<Condition<V>>
    decreases c, 0
  {
    match c
    case Simple(_, _, _) => Some(c)
    case Exists(_, _) => Some(c)
    case And(cs) => Joined(true, FlatParts(true, cs))
    case Or(cs) => Joined(false, FlatParts(false, cs))
  }

  function Joined<V>(conj: bool, parts: seq<Condition<V>>): Option<Condition<V>> {
    if |parts| == 0 then None else if |parts| == 1 then Some(parts[0]) else Some(Junction(conj, parts))
  }

  /** Children of the parent's own kind give way to their children. */
  function FlatParts<V>(conj: bool, cs: seq<Condition<V>>): seq<Condition<V>>
    decreases cs, 0
  {
    if cs == [] then [] else
      (if IsJunction(conj, cs[0]) then FlatEach(cs[0].conditions) else Defined(Flattened(cs[0]))) + FlatParts(conj, cs[1..])
  }

  function FlatEach<V>(cs: seq<Condition<V>>): seq<Condition<V>>
    decreases cs, 0
  {
    if cs == [] then [] else Defined(Flattened(cs[0])) + FlatEach(cs[1..])
  }

  // ----- what flattening means

  function Neutral(conj: bool): Tri { if conj then T else F }

  function Combine(conj: bool, a: Tri, b: Tri): Tri { if conj then And3(a, b) else Or3(a, b) }

  function Combined<V>(w: World<V>, conj: bool, cs: seq<Condition<V>>, table: string, row: Row<V>): Tri {
    if conj then All(w, cs, table, row) else Any(w, cs, table, row)
  }

  /** The truth of a condition that may have been dropped from a conjunction or a disjunction. */
  function TruthIn<V>(w: World<V>, conj: bool, o: Option<Condition<V>>, table: string, row: Row<V>): Tri {
    if o.Some? then Truth(w, o.value, table, row) else Neutral(conj)
  }

  lemma {:induction false} CombinedConcat<V>(w: World<V>, conj: bool, xs: seq<Condition<V>>, ys: seq<Condition<V>>,
                                            table: string, row: Row<V>)
    ensures Combined(w, conj, xs + ys, table, row)
         == Combine(conj, Combined(w, conj, xs, table, row), Combined(w, conj, ys, table, row))
  {
    if xs == [] {
      assert xs + ys == ys;
    } else {
      assert (xs + ys)[1..] == xs[1..] + ys;
      CombinedConcat(w, conj, xs[1..], ys, table, row);
    }
  }

  /** Nothing but empty ANDs and ORs. */
  predicate Hollow<V>(c: Condition<V>)
    decreases c, 0
  {
    (c.And? || c.Or?) && AllHollow(c.conditions)
  }

  predicate AllHollow<V>(cs: seq<Condition<V>>)
    decreases cs, 0
  {
    cs == [] || (Hollow(cs[0]) && AllHollow(cs[1..]))
  }

  /** The truth value of a condition without any leaves. */
  predicate Constant<V>(c: Condition<V>)
    decreases c, 0
  {
    match c
    case And(cs) => !SomeConstant(false, cs)
    case Or(cs) => SomeConstant(true, cs)
    case _ => true
  }

  predicate SomeConstant<V>(b: bool, cs: seq<Condition<V>>)
    decreases cs, 0
  {
    cs != [] && (Constant(cs[0]) == b || SomeConstant(b, cs[1..]))
  }

  /**
   * Dropping is safe: a condition that is dropped from an AND is constantly true, and from an OR constantly false.
   * At the top of a query `conj` is true, because a query without a condition selects every row.
   */
  predicate Safe<V>(conj: bool, c: Condition<V>)
    decreases c, 0
  {
    if Hollow(c) then Constant(c) == conj
    else match c
      case And(cs) => SafeAll(true, cs)
      case Or(cs) => SafeAll(false, cs)
      case _ => true
  }

  predicate SafeAll<V>(conj: bool, cs: seq<Condition<V>>)
    decreases cs, 0
  {
    cs == [] || (Safe(conj, cs[0]) && SafeAll(conj, cs[1..]))
  }

  lemma {:induction false} HollowParts<V>(conj: bool, cs: seq<Condition<V>>)
    ensures (FlatParts(conj, cs) == []) == (FlatEach(cs) == []) == AllHollow(cs)
    decreases cs, 1
  {
    if cs != [] {
      DroppedIsHollow(cs[0]);
      if cs[0].And? || cs[0].Or? { HollowParts(conj, cs[0].conditions); }
      HollowParts(conj, cs[1..]);
    }
  }

  /** What flattening drops is what has no leaves. */
  lemma {:induction false} DroppedIsHollow<V>(c: Condition<V>)
    ensures Flattened(c).None? <==> Hollow(c)
    decreases c, 1
  {
    match c
    case And(cs) => HollowParts(true, cs);
    case Or(cs) => HollowParts(false, cs);
    case _ =>
  }

  lemma {:induction false} HollowAll<V>(w: World<V>, conj: bool, cs: seq<Condition<V>>, table: string, row: Row<V>)
    requires AllHollow(cs)
    ensures Combined(w, conj, cs, table, row) == if SomeConstant(!conj, cs) then Neutral(!conj) else Neutral(conj)
    decreases cs, 0
  {
    if cs != [] {
      HollowIsConstant(w, cs[0], table, row);
      HollowAll(w, conj, cs[1..], table, row);
    }
  }

  /** A condition without leaves has the same truth for every row of every world. */
  lemma {:induction false} HollowIsConstant<V>(w: World<V>, c: Condition<V>, table: string, row: Row<V>)
    requires Hollow(c)
    ensures Truth(w, c, table, row) == if Constant(c) then T else F
    decreases c, 0
  {
    match c
    case And(cs) => HollowAll(w, true, cs, table, row);
    case Or(cs) => HollowAll(w, false, cs, table, row);
    case _ =>
  }

  lemma {:induction false} FlattenedMeansParts<V>(w: World<V>, conj: bool, cs: seq<Condition<V>>, table: string, row: Row<V>)
    requires SafeAll(conj, cs)
    ensures Combined(w, conj, FlatParts(conj, cs), table, row) == Combined(w, conj, cs, table, row)
    decreases cs, 0
  {
    hide Flattened;
    if cs != [] {
      var c := cs[0];
      FlattenedMeansParts(w, conj, cs[1..], table, row);
      if IsJunction(conj, c) {
        FlattenedMeansChildren(w, conj, c, table, row);
        CombinedConcat(w, conj, FlatEach(c.conditions), FlatParts(conj, cs[1..]), table, row);
      } else {
        FlattenedMeans(w, conj, c, table, row);
        CombinedConcat(w, conj, Defined(Flattened(c)), FlatParts(conj, cs[1..]), table, row);
      }
    }
  }

  lemma {:induction false} FlattenedMeansChildren<V>(w: World<V>, conj: bool, c: Condition<V>, table: string, row: Row<V>)
    requires IsJunction(conj, c) && Safe(conj, c)
    ensures Combined(w, conj, FlatEach(c.conditions), table, row) == Truth(w, c, table, row)
    decreases c, 0
  {
    if Hollow(c) {
      HollowIsConstant(w, c, table, row);
      HollowParts(conj, c.conditions);
    } else {
      FlattenedMeansEach(w, conj, c.conditions, table, row);
    }
  }

  lemma {:induction false} FlattenedMeansEach<V>(w: World<V>, conj: bool, cs: seq<Condition<V>>, table: string, row: Row<V>)
    requires SafeAll(conj, cs)
    ensures Combined(w, conj, FlatEach(cs), table, row) == Combined(w, conj, cs, table, row)
    decreases cs, 0
  {
    hide Flattened;
    if cs != [] {
      FlattenedMeans(w, conj, cs[0], table, row);
      FlattenedMeansEach(w, conj, cs[1..], table, row);
      CombinedConcat(w, conj, Defined(Flattened(cs[0])), FlatEach(cs[1..]), table, row);
    }
  }

  lemma JoinedMeans<V>(w: World<V>, conj: bool, parts: seq<Condition<V>>, table: string, row: Row<V>)
    requires parts != []
    ensures Truth(w, Joined(conj, parts).value, table, row) == Combined(w, conj, parts, table, row)
  {
    if |parts| == 1 {
      assert parts[1..] == [];
      assert Combined(w, conj, parts[1..], table, row) == Neutral(conj);
    }
  }

  /** Where dropping is safe, flattening keeps the truth of a condition, whatever its leaves are. */
  lemma {:induction false} FlattenedMeans<V>(w: World<V>, conj: bool, c: Condition<V>, table: string, row: Row<V>)
    requires Safe(conj, c)
    ensures TruthIn(w, conj, Flattened(c), table, row) == Truth(w, c, table, row)
    decreases c, 0
  {
    DroppedIsHollow(c);
    if Hollow(c) {
      HollowIsConstant(w, c, table, row);
    } else {
      match c
      case And(cs) =>
        FlattenedMeansParts(w, true, cs, table, row);
        JoinedMeans(w, true, FlatParts(true, cs), table, row);
      case Or(cs) =>
        FlattenedMeansParts(w, false, cs, table, row);
        JoinedMeans(w, false, FlatParts(false, cs), table, row);
      case _ =>
    }
  }

  // ----- the shape that flattening leaves

  /** Every AND and OR, short of those inside subqueries, has at least two conditions. */
  predicate Branching<V>(c: Condition<V>)
    decreases c, 0
  {
    (c.And? || c.Or?) ==> |c.conditions| >= 2 && AllBranching(c.conditions)
  }

  predicate AllBranching<V>(cs: seq<Condition<V>>)
    decreases cs, 0
  {
    cs == [] || (Branching(cs[0]) && AllBranching(cs[1..]))
  }

  lemma {:induction false} AllBranchingConcat<V>(xs: seq<Condition<V>>, ys: seq<Condition<V>>)
    ensures AllBranching(xs + ys) <==> AllBranching(xs) && AllBranching(ys)
  {
    if xs == [] {
      assert xs + ys == ys;
    } else {
      assert (xs + ys)[1..] == xs[1..] + ys;
      AllBranchingConcat(xs[1..], ys);
    }
  }

  lemma {:induction false} FlatPartsBranch<V>(conj: bool, cs: seq<Condition<V>>)
    ensures AllBranching(FlatParts(conj, cs))
    decreases cs, 0
  {
    if cs != [] {
      FlatPartsBranch(conj, cs[1..]);
      if IsJunction(conj, cs[0]) {
        FlatEachBranch(cs[0].conditions);
        AllBranchingConcat(FlatEach(cs[0].conditions), FlatParts(conj, cs[1..]));
      } else {
        FlattenedBranches(cs[0]);
        AllBranchingConcat(Defined(Flattened(cs[0])), FlatParts(conj, cs[1..]));
      }
    }
  }

  lemma {:induction false} FlatEachBranch<V>(cs: seq<Condition<V>>)
    ensures AllBranching(FlatEach(cs))
    decreases cs, 0
  {
    if cs != [] {
      FlattenedBranches(cs[0]);
      FlatEachBranch(cs[1..]);
      AllBranchingConcat(Defined(Flattened(cs[0])), FlatEach(cs[1..]));
    }
  }

  /** No AND or OR with fewer than two conditions is left, however deep. */
  lemma {:induction false} FlattenedBranches<V>(c: Condition<V>)
    ensures Flattened(c).Some? ==> Branching(Flattened(c).value)
    decreases c, 0
  {
    match c
    case And(cs) => FlatPartsBranch(true, cs);
    case Or(cs) => FlatPartsBranch(false, cs);
    case _ =>
  }

  /** No AND directly inside an AND, no OR directly inside an OR. */
  predicate Flat<V>(c: Condition<V>)
    decreases c, 0
  {
    (c.And? || c.Or?) ==> FlatWithin(c.And?, c.conditions)
  }

  predicate FlatWithin<V>(conj: bool, cs: seq<Condition<V>>)
    decreases cs, 0
  {
    cs == [] || (!IsJunction(conj, cs[0]) && Flat(cs[0]) && FlatWithin(conj, cs[1..]))
  }

  /** No three ANDs directly inside each other, nor three ORs. */
  predicate Shallow<V>(c: Condition<V>)
    decreases c, 0
  {
    (c.And? || c.Or?) ==> ShallowWithin(c.And?, c.conditions)
  }

  predicate ShallowWithin<V>(conj: bool, cs: seq<Condition<V>>)
    decreases cs, 0
  {
    cs == [] || ((if IsJunction(conj, cs[0]) then NoneWithin(conj, cs[0].conditions) else Shallow(cs[0])) && ShallowWithin(conj, cs[1..]))
  }

  predicate NoneWithin<V>(conj: bool, cs: seq<Condition<V>>)
    decreases cs, 0
  {
    cs == [] || (!IsJunction(conj, cs[0]) && Shallow(cs[0]) && NoneWithin(conj, cs[1..]))
  }

  lemma {:induction false} FlatWithinConcat<V>(conj: bool, xs: seq<Condition<V>>, ys: seq<Condition<V>>)
    ensures FlatWithin(conj, xs + ys) <==> FlatWithin(conj, xs) && FlatWithin(conj, ys)
  {
    if xs == [] {
      assert xs + ys == ys;
    } else {
      assert (xs + ys)[1..] == xs[1..] + ys;
      FlatWithinConcat(conj, xs[1..], ys);
    }
  }

  lemma {:induction false} PartsStay<V>(conj: bool, cs: seq<Condition<V>>)
    requires AllBranching(cs)
    ensures |FlatEach(cs)| == |cs| && |FlatParts(conj, cs)| >= |cs|
    decreases cs, 0
  {
    if cs != [] {
      KindStays(cs[0]);
      if IsJunction(conj, cs[0]) { PartsStay(conj, cs[0].conditions); }
      PartsStay(conj, cs[1..]);
    }
  }

  lemma {:induction false} KindStays<V>(c: Condition<V>)
    requires Branching(c)
    ensures Flattened(c).Some? && Flattened(c).value.And? == c.And? && Flattened(c).value.Or? == c.Or?
    decreases c, 0
  {
    match c
    case And(cs) => PartsStay(true, cs);
    case Or(cs) => PartsStay(false, cs);
    case _ =>
  }

  lemma {:induction false} FlatPartsFlat<V>(conj: bool, cs: seq<Condition<V>>)
    requires AllBranching(cs)
    ensures FlatWithin(conj, FlatParts(conj, cs)) <==> ShallowWithin(conj, cs)
    decreases cs, 0
  {
    hide Flattened;
    if cs != [] {
      FlatPartsFlat(conj, cs[1..]);
      if IsJunction(conj, cs[0]) {
        FlatEachFlat(conj, cs[0].conditions);
        FlatWithinConcat(conj, FlatEach(cs[0].conditions), FlatParts(conj, cs[1..]));
      } else {
        KindStays(cs[0]);
        OneLevel(cs[0]);
        FlatWithinConcat(conj, Defined(Flattened(cs[0])), FlatParts(conj, cs[1..]));
      }
    }
  }

  lemma {:induction false} FlatEachFlat<V>(conj: bool, cs: seq<Condition<V>>)
    requires AllBranching(cs)
    ensures FlatWithin(conj, FlatEach(cs)) <==> NoneWithin(conj, cs)
    decreases cs, 0
  {
    hide Flattened;
    if cs != [] {
      KindStays(cs[0]);
      OneLevel(cs[0]);
      FlatEachFlat(conj, cs[1..]);
      FlatWithinConcat(conj, Defined(Flattened(cs[0])), FlatEach(cs[1..]));
    }
  }

  /**
   * One pass removes one level of nesting: what comes out is flat exactly if no three conditions of the same kind were
   * nested directly in each other.
   */
  lemma {:induction false} OneLevel<V>(c: Condition<V>)
    requires Branching(c)
    ensures Flattened(c).Some? && (Flat(Flattened(c).value) <==> Shallow(c))
    decreases c, 0
  {
    KindStays(c);
    match c
    case And(cs) =>
      FlatPartsFlat(true, cs);
      PartsStay(true, cs);
    case Or(cs) =>
      FlatPartsFlat(false, cs);
      PartsStay(false, cs);
    case _ =>
  }
}
