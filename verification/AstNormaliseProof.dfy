/** Normalisation keeps the result of a query. */
module AstNormaliseProof {
  import opened Wrappers
  import opened Zql
  import opened AstTransform
  import opened AstNormalise
  import opened KeyOrder
  import opened Lists

  /** How a list of conditions is sorted. The comparison is not an order, so all that is known is that nothing gets lost. */
  type Sorting<!V> = seq<Condition<V>> -> seq<Condition<V>>

  ghost predicate Rearranges<V(!new)>(s: Sorting<V>) {
    forall cs :: multiset(s(cs)) == multiset(cs)
  }

  function Inserted<V>(r: Relationship<V>, rels: seq<Relationship<V>>): (sorted: seq<Relationship<V>>)
    ensures |sorted| == |rels| + 1
  {
    if rels == [] || CompareUtf8(r.alias, rels[0].alias) <= 0 then [r] + rels
    else [rels[0]] + Inserted(r, rels[1..])
  }

  /** `sortedRelated`; the sort is stable. */
  function SortedRelated<V>(rels: seq<Relationship<V>>): (sorted: seq<Relationship<V>>)
    ensures |sorted| == |rels|
  {
    if rels == [] then [] else Inserted(rels[0], SortedRelated(rels[1..]))
  }

  function Normalising<V>(s: Sorting<V>): Transform<V> {
    Transform(t => t, (_, c) => c, rels => SortedRelated(rels), c => Flattened(c), s)
  }

  // ----- flattening makes conditions smaller

  lemma {:induction false} SizeOfConcat<V>(xs: seq<Condition<V>>, ys: seq<Condition<V>>)
    ensures SizeOfConditions(xs + ys) == SizeOfConditions(xs) + SizeOfConditions(ys)
  {
    if xs == [] {
      assert xs + ys == ys;
    } else {
      assert (xs + ys)[1..] == xs[1..] + ys;
      SizeOfConcat(xs[1..], ys);
    }
  }

  lemma {:induction false} FlatPartsShrink<V>(conj: bool, cs: seq<Condition<V>>)
    ensures SizeOfConditions(FlatParts(conj, cs)) <= SizeOfConditions(cs)
    decreases cs, 0
  {
    hide Flattened;
    if cs != [] {
      FlatPartsShrink(conj, cs[1..]);
      if IsJunction(conj, cs[0]) {
        FlatEachShrinks(cs[0].conditions);
        SizeOfConcat(FlatEach(cs[0].conditions), FlatParts(conj, cs[1..]));
      } else {
        FlattenedShrinks(cs[0]);
        SizeOfConcat(Defined(Flattened(cs[0])), FlatParts(conj, cs[1..]));
      }
    }
  }

  lemma {:induction false} FlatEachShrinks<V>(cs: seq<Condition<V>>)
    ensures SizeOfConditions(FlatEach(cs)) <= SizeOfConditions(cs)
    decreases cs, 0
  {
    hide Flattened;
    if cs != [] {
      FlattenedShrinks(cs[0]);
      FlatEachShrinks(cs[1..]);
      SizeOfConcat(Defined(Flattened(cs[0])), FlatEach(cs[1..]));
    }
  }

  lemma {:induction false} FlattenedShrinks<V>(c: Condition<V>)
    ensures Flattened(c).Some? ==> SizeOfCondition(Flattened(c).value) <= SizeOfCondition(c)
    decreases c, 0
  {
    match c
    case And(cs) => FlatPartsShrink(true, cs);
    case Or(cs) => FlatPartsShrink(false, cs);
    case _ =>
  }

  lemma NormalisingShrinks<V(!new)>(s: Sorting<V>)
    ensures Shrinking(Normalising(s))
  {
    forall c: Condition<V> | Normalising(s).where(c).Some?
      ensures SizeOfCondition(Normalising(s).where(c).value) <= SizeOfCondition(c)
    {
      FlattenedShrinks(c);
    }
  }

  /** `normalizeAST` */
  function NormalAst<V(!new)>(q: Ast<V>, s: Sorting<V>): Ast<V> {
    NormalisingShrinks(s);
    TransformAst(q, Normalising(s))
  }

  function NormalRelated<V(!new)>(rels: seq<Relationship<V>>, s: Sorting<V>): (r: seq<Relationship<V>>)
    ensures |r| == |rels|
    ensures forall i :: 0 <= i < |rels| ==> r[i] == NormalRelationship(rels[i], s)
  {
    if rels == [] then [] else [NormalRelationship(rels[0], s)] + NormalRelated(rels[1..], s)
  }

  function NormalRelationship<V(!new)>(r: Relationship<V>, s: Sorting<V>): Relationship<V> {
    r.(subquery := NormalAst(r.subquery, s))
  }

  function NormalCondition<V(!new)>(c: Condition<V>, s: Sorting<V>): Condition<V>
    decreases c, 0
  {
    match c
    case Simple(_, _, _) => c
    case And(cs) => And(s(NormalConditions(cs, s)))
    case Or(cs) => Or(s(NormalConditions(cs, s)))
    case Exists(_, rel) => Exists(c.negated, NormalRelationship(rel, s))
  }

  function NormalConditions<V(!new)>(cs: seq<Condition<V>>, s: Sorting<V>): (r: seq<Condition<V>>)
    ensures |r| == |cs|
    decreases cs, 0
  {
    if cs == [] then [] else [NormalCondition(cs[0], s)] + NormalConditions(cs[1..], s)
  }

  function NormalWhere<V(!new)>(c: Option<Condition<V>>, s: Sorting<V>): Option<Condition<V>> {
    if c.None? || Flattened(c.value).None? then None else Some(NormalCondition(Flattened(c.value).value, s))
  }

  // ----- what normalisation does to each part

  lemma NormalRelationshipIs<V(!new)>(r: Relationship<V>, table: string, s: Sorting<V>)
    requires Shrinking(Normalising(s))
    ensures TransformRelationship(r, table, Normalising(s)) == NormalRelationship(r, s)
  {
    hide TransformAst, Shrinking;
    assert Renamed(Normalising(s), table, r.parentField) == r.parentField;
    assert Renamed(Normalising(s), r.subquery.table, r.childField) == r.childField;
  }

  lemma {:induction false} NormalRelatedIs<V(!new)>(rels: seq<Relationship<V>>, table: string, s: Sorting<V>)
    requires Shrinking(Normalising(s))
    ensures TransformRelated(rels, table, Normalising(s)) == NormalRelated(rels, s)
  {
    hide TransformAst, Shrinking, TransformRelationship, NormalRelationship;
    if rels != [] {
      NormalRelationshipIs(rels[0], table, s);
      NormalRelatedIs(rels[1..], table, s);
    }
  }

  lemma {:induction false} NormalConditionsAre<V(!new)>(cs: seq<Condition<V>>, table: string, s: Sorting<V>)
    requires Shrinking(Normalising(s))
    ensures TransformConditions(cs, table, Normalising(s)) == NormalConditions(cs, s)
    decreases cs, 0
  {
    hide TransformWhere, Shrinking, NormalCondition;
    if cs != [] {
      NormalConditionIs(cs[0], table, s);
      NormalConditionsAre(cs[1..], table, s);
    }
  }

  lemma {:induction false} NormalConditionIs<V(!new)>(c: Condition<V>, table: string, s: Sorting<V>)
    requires Shrinking(Normalising(s))
    ensures TransformWhere(c, table, Normalising(s)) == NormalCondition(c, s)
    decreases c, 0
  {
    hide TransformConditions, Shrinking, TransformRelationship, NormalRelationship, NormalConditions;
    match c
    case And(cs) => NormalConditionsAre(cs, table, s);
    case Or(cs) => NormalConditionsAre(cs, table, s);
    case Exists(_, rel) => NormalRelationshipIs(rel, table, s);
    case Simple(_, left, _) =>
  }

  /** Only the condition and the order of the relationships differ. */
  lemma NormalAstIs<V(!new)>(q: Ast<V>, s: Sorting<V>)
    ensures NormalAst(q, s)
         == Ast(q.table, NormalWhere(q.where, s), SortedRelated(NormalRelated(q.related, s)), q.start, q.orderBy, q.limit)
  {
    hide TransformWhere, TransformRelated, Shrinking, NormalRelated, NormalCondition, SortedRelated, Flattened;
    NormalisingShrinks(s);
    var t := Normalising(s);
    NormalRelatedIs(q.related, q.table, s);
    assert t.related(TransformRelated(q.related, q.table, t)) == SortedRelated(NormalRelated(q.related, s));
    if q.where.Some? {
      assert t.where(q.where.value) == Flattened(q.where.value);
      if Flattened(q.where.value).Some? { NormalConditionIs(Flattened(q.where.value).value, q.table, s); }
    }
    if q.start.Some? { assert RenamedPairs(t, q.table, q.start.value.row) == q.start.value.row; }
    if q.orderBy.Some? { assert RenamedPairs(t, q.table, q.orderBy.value) == q.orderBy.value; }
  }

  // ----- queries whose meaning is kept

  /** Dropping is safe at every level, and junction edges lead through at most one relationship. */
  predicate SafeQuery<V>(q: Ast<V>)
    decreases q, 1
  {
    (q.where.Some? ==> Safe(true, q.where.value) && SafeInside(q.where.value)) && SafeRelated(q.related)
  }

  predicate SafeInside<V>(c: Condition<V>)
    decreases c, 0
  {
    match c
    case Simple(_, _, _) => true
    case And(cs) => AllSafeInside(cs)
    case Or(cs) => AllSafeInside(cs)
    case Exists(_, rel) => SafeQuery(rel.subquery)
  }

  predicate AllSafeInside<V>(cs: seq<Condition<V>>)
    decreases cs, 0
  {
    cs == [] || (SafeInside(cs[0]) && AllSafeInside(cs[1..]))
  }

  predicate SafeRelated<V>(rels: seq<Relationship<V>>)
    decreases rels, 0
  {
    rels == [] || (SafeQuery(rels[0].subquery) && (rels[0].hidden ==> |rels[0].subquery.related| <= 1) && SafeRelated(rels[1..]))
  }

  /** Junction edges lead through at most one relationship. */
  predicate OneHop<V>(q: Ast<V>)
    decreases q, 1
  {
    (q.where.Some? ==> OneHopCondition(q.where.value)) && OneHopRelated(q.related)
  }

  predicate OneHopCondition<V>(c: Condition<V>)
    decreases c, 0
  {
    match c
    case Simple(_, _, _) => true
    case And(cs) => OneHopConditions(cs)
    case Or(cs) => OneHopConditions(cs)
    case Exists(_, rel) => OneHop(rel.subquery)
  }

  predicate OneHopConditions<V>(cs: seq<Condition<V>>)
    decreases cs, 0
  {
    cs == [] || (OneHopCondition(cs[0]) && OneHopConditions(cs[1..]))
  }

  predicate OneHopRelated<V>(rels: seq<Relationship<V>>)
    decreases rels, 0
  {
    rels == [] || (OneHop(rels[0].subquery) && (rels[0].hidden ==> |rels[0].subquery.related| <= 1) && OneHopRelated(rels[1..]))
  }

  lemma {:induction false} SafeInsideConcat<V>(xs: seq<Condition<V>>, ys: seq<Condition<V>>)
    ensures AllSafeInside(xs + ys) <==> AllSafeInside(xs) && AllSafeInside(ys)
  {
    if xs == [] {
      assert xs + ys == ys;
    } else {
      assert (xs + ys)[1..] == xs[1..] + ys;
      SafeInsideConcat(xs[1..], ys);
    }
  }

  lemma {:induction false} FlatPartsSafe<V>(conj: bool, cs: seq<Condition<V>>)
    requires AllSafeInside(cs)
    ensures AllSafeInside(FlatParts(conj, cs))
    decreases cs, 0
  {
    hide Flattened, SafeQuery;
    if cs != [] {
      FlatPartsSafe(conj, cs[1..]);
      if IsJunction(conj, cs[0]) {
        FlatEachSafe(cs[0].conditions);
        SafeInsideConcat(FlatEach(cs[0].conditions), FlatParts(conj, cs[1..]));
      } else {
        FlattenedSafe(cs[0]);
        SafeInsideConcat(Defined(Flattened(cs[0])), FlatParts(conj, cs[1..]));
      }
    }
  }

  lemma {:induction false} FlatEachSafe<V>(cs: seq<Condition<V>>)
    requires AllSafeInside(cs)
    ensures AllSafeInside(FlatEach(cs))
    decreases cs, 0
  {
    hide Flattened, SafeQuery;
    if cs != [] {
      FlattenedSafe(cs[0]);
      FlatEachSafe(cs[1..]);
      SafeInsideConcat(Defined(Flattened(cs[0])), FlatEach(cs[1..]));
    }
  }

  lemma {:induction false} FlattenedSafe<V>(c: Condition<V>)
    requires SafeInside(c)
    ensures Flattened(c).Some? ==> SafeInside(Flattened(c).value)
    decreases c, 0
  {
    hide SafeQuery;
    match c
    case And(cs) => FlatPartsSafe(true, cs);
    case Or(cs) => FlatPartsSafe(false, cs);
    case _ =>
  }

  // ----- the order of conditions and relationships does not matter

  lemma {:induction false} CombinedPull<V>(w: World<V>, conj: bool, cs: seq<Condition<V>>, i: nat, table: string, row: Row<V>)
    requires i < |cs|
    ensures Combined(w, conj, cs, table, row)
         == Combine(conj, Truth(w, cs[i], table, row), Combined(w, conj, cs[..i] + cs[i + 1..], table, row))
  {
    hide Truth;
    CombinedConcat(w, conj, cs[..i], cs[i..], table, row);
    CombinedConcat(w, conj, cs[..i], cs[i + 1..], table, row);
    assert cs == cs[..i] + cs[i..];
    assert cs[i..][0] == cs[i] && cs[i..][1..] == cs[i + 1..];
  }

  lemma {:induction false} CombinedPermuted<V>(w: World<V>, conj: bool, xs: seq<Condition<V>>, ys: seq<Condition<V>>,
                                              table: string, row: Row<V>)
    requires multiset(xs) == multiset(ys)
    ensures Combined(w, conj, xs, table, row) == Combined(w, conj, ys, table, row)
  {
    hide Truth;
    if xs == [] {
      assert |multiset(ys)| == 0;
    } else {
      var i := Without(xs, ys);
      CombinedPermuted(w, conj, xs[1..], ys[..i] + ys[i + 1..], table, row);
      CombinedPull(w, conj, ys, i, table, row);
    }
  }

  lemma RelatedStep<V>(w: World<V>, r: Relationship<V>, rest: seq<Relationship<V>>, f: Format, table: string, row: Row<V>)
    ensures RelatedOf(w, [r] + rest, f, table, row)
         == map[r.alias := RelationshipOf(w, r, FormatOf(f, r.alias), table, row)] + RelatedOf(w, rest, f, table, row)
  {
    hide RelationshipOf, FormatOf;
    assert ([r] + rest)[1..] == rest;
  }

  lemma Swapped<A>(k: string, v: A, l: string, u: A, m: map<string, A>)
    requires k != l
    ensures map[k := v] + (map[l := u] + m) == map[l := u] + (map[k := v] + m)
  {
  }

  lemma {:induction false} InsertedMeans<V>(w: World<V>, r: Relationship<V>, rels: seq<Relationship<V>>, f: Format,
                                           table: string, row: Row<V>)
    ensures RelatedOf(w, Inserted(r, rels), f, table, row)
         == map[r.alias := RelationshipOf(w, r, FormatOf(f, r.alias), table, row)] + RelatedOf(w, rels, f, table, row)
  {
    hide RelationshipOf, FormatOf, RelatedOf;
    if rels == [] || CompareUtf8(r.alias, rels[0].alias) <= 0 {
      RelatedStep(w, r, rels, f, table, row);
    } else {
      var first := rels[0];
      InsertedMeans(w, r, rels[1..], f, table, row);
      RelatedStep(w, first, Inserted(r, rels[1..]), f, table, row);
      RelatedStep(w, first, rels[1..], f, table, row);
      assert rels == [first] + rels[1..];
      Swapped(r.alias, RelationshipOf(w, r, FormatOf(f, r.alias), table, row),
              first.alias, RelationshipOf(w, first, FormatOf(f, first.alias), table, row), RelatedOf(w, rels[1..], f, table, row));
    }
  }

  /** Sorting is stable, so that of relationships with the same alias the last one stays the last one. */
  lemma {:induction false} SortedMeans<V>(w: World<V>, rels: seq<Relationship<V>>, f: Format, table: string, row: Row<V>)
    ensures RelatedOf(w, SortedRelated(rels), f, table, row) == RelatedOf(w, rels, f, table, row)
  {
    hide RelationshipOf, FormatOf, RelatedOf;
    if rels != [] {
      assert rels == [rels[0]] + rels[1..];
      RelatedStep(w, rels[0], rels[1..], f, table, row);
      SortedMeans(w, rels[1..], f, table, row);
      InsertedMeans(w, rels[0], SortedRelated(rels[1..]), f, table, row);
    }
  }

  // ----- the order of relationships is canonical

  ghost predicate ByAlias<V>(rels: seq<Relationship<V>>) {
    forall i, j :: 0 <= i < j < |rels| ==> CompareUtf8(rels[i].alias, rels[j].alias) <= 0
  }

  ghost predicate DistinctAliases<V>(rels: seq<Relationship<V>>) {
    forall i, j :: 0 <= i < j < |rels| ==> rels[i].alias != rels[j].alias
  }

  ghost predicate Follow<V>(alias: string, rels: seq<Relationship<V>>) {
    forall i :: 0 <= i < |rels| ==> CompareUtf8(alias, rels[i].alias) <= 0
  }

  lemma {:induction false} InsertedFollows<V>(alias: string, r: Relationship<V>, rels: seq<Relationship<V>>)
    requires CompareUtf8(alias, r.alias) <= 0 && Follow(alias, rels)
    ensures Follow(alias, Inserted(r, rels))
  {
    hide CompareUtf8;
    if rels != [] && CompareUtf8(r.alias, rels[0].alias) > 0 { InsertedFollows(alias, r, rels[1..]); }
  }

  lemma {:induction false} InsertedMembers<V>(r: Relationship<V>, rels: seq<Relationship<V>>)
    ensures multiset(Inserted(r, rels)) == multiset{r} + multiset(rels)
  {
    hide CompareUtf8;
    if rels != [] && CompareUtf8(r.alias, rels[0].alias) > 0 {
      InsertedMembers(r, rels[1..]);
      assert rels == [rels[0]] + rels[1..];
    }
  }

  lemma InFront<V>(r: Relationship<V>, rels: seq<Relationship<V>>)
    requires ByAlias(rels) && Follow(r.alias, rels)
    ensures ByAlias([r] + rels)
  {
    hide CompareUtf8;
  }

  lemma FirstFollows<V>(alias: string, rels: seq<Relationship<V>>)
    requires ByAlias(rels) && rels != [] && CompareUtf8(alias, rels[0].alias) <= 0
    ensures Follow(alias, rels)
  {
    hide CompareUtf8;
    forall j | 0 < j < |rels| ensures CompareUtf8(alias, rels[j].alias) <= 0 {
      AtMostTransitive(alias, rels[0].alias, rels[j].alias);
    }
  }

  lemma {:induction false} InsertedByAlias<V>(r: Relationship<V>, rels: seq<Relationship<V>>)
    requires ByAlias(rels)
    ensures ByAlias(Inserted(r, rels))
  {
    hide CompareUtf8, Follow;
    if rels == [] || CompareUtf8(r.alias, rels[0].alias) <= 0 {
      if rels != [] { FirstFollows(r.alias, rels); InFront(r, rels); }
    } else {
      InsertedByAlias(r, rels[1..]);
      Antisymmetric(rels[0].alias, r.alias);
      assert Follow(rels[0].alias, rels[1..]) by { RestFollows(rels); }
      InsertedFollows(rels[0].alias, r, rels[1..]);
      InFront(rels[0], Inserted(r, rels[1..]));
    }
  }

  lemma RestFollows<V>(rels: seq<Relationship<V>>)
    requires ByAlias(rels) && rels != []
    ensures Follow(rels[0].alias, rels[1..])
  {
    hide CompareUtf8;
  }

  lemma NoneByAlias<V>()
    ensures ByAlias<V>([])
  {
  }

  /** Sorting orders the relationships by alias, and loses none. */
  lemma {:induction false} SortedByAlias<V>(rels: seq<Relationship<V>>)
    ensures ByAlias(SortedRelated(rels)) && multiset(SortedRelated(rels)) == multiset(rels)
  {
    hide Inserted, ByAlias;
    if rels == [] {
      NoneByAlias<V>();
    } else {
      SortedByAlias(rels[1..]);
      InsertedByAlias(rels[0], SortedRelated(rels[1..]));
      InsertedMembers(rels[0], SortedRelated(rels[1..]));
      assert rels == [rels[0]] + rels[1..];
    }
  }

  lemma LeastIsFirst<V>(xs: seq<Relationship<V>>, ys: seq<Relationship<V>>)
    requires multiset(xs) == multiset(ys) && ByAlias(xs) && ByAlias(ys) && DistinctAliases(ys) && xs != []
    ensures ys != [] && xs[0] == ys[0]
  {
    hide CompareUtf8;
    assert xs[0] in multiset(ys);
    var i :| 0 <= i < |ys| && ys[i] == xs[0];
    assert ys[0] in multiset(xs);
    var j :| 0 <= j < |xs| && xs[j] == ys[0];
    Reflexive(xs[0].alias);
    assert CompareUtf8(ys[0].alias, ys[i].alias) <= 0 && CompareUtf8(xs[0].alias, xs[j].alias) <= 0;
    Antisymmetric(xs[0].alias, ys[0].alias);
    Same(xs[0].alias, ys[0].alias);
  }

  lemma Reflexive(a: string)
    ensures CompareUtf8(a, a) == 0
  {
  }

  lemma Same(a: string, b: string)
    requires CompareUtf8(a, b) == 0
    ensures a == b
  {
  }

  lemma {:induction false} OneOrder<V>(xs: seq<Relationship<V>>, ys: seq<Relationship<V>>)
    requires multiset(xs) == multiset(ys) && ByAlias(xs) && ByAlias(ys) && DistinctAliases(ys)
    ensures xs == ys
  {
    hide CompareUtf8;
    if xs == [] {
      assert |multiset(ys)| == 0;
    } else {
      LeastIsFirst(xs, ys);
      RestAgrees(xs, ys);
      OneOrder(xs[1..], ys[1..]);
    }
  }

  lemma RestAgrees<A>(xs: seq<A>, ys: seq<A>)
    requires multiset(xs) == multiset(ys) && xs != [] && ys != [] && xs[0] == ys[0]
    ensures multiset(xs[1..]) == multiset(ys[1..])
  {
    assert xs == [xs[0]] + xs[1..] && ys == [ys[0]] + ys[1..];
    assert multiset(xs[1..]) == multiset(xs) - multiset{xs[0]};
    assert multiset(ys[1..]) == multiset(ys) - multiset{ys[0]};
  }

  lemma DistinctAnyway<V>(xs: seq<Relationship<V>>, ys: seq<Relationship<V>>)
    requires multiset(xs) == multiset(ys) && DistinctAliases(xs)
    ensures DistinctAliases(ys)
  {
    forall i, j | 0 <= i < j < |ys| ensures ys[i].alias != ys[j].alias {
      if ys[i].alias == ys[j].alias {
        assert ys[i] in multiset(xs) && ys[j] in multiset(xs);
        var k :| 0 <= k < |xs| && xs[k] == ys[i];
        var l :| 0 <= l < |xs| && xs[l] == ys[j];
        assert ys[i] == ys[j];
        TwiceMeansTwo(ys, i, j);
        OnceMeansOne(xs, k);
      }
    }
  }

  lemma TwiceMeansTwo<A>(s: seq<A>, i: nat, j: nat)
    requires i < j < |s| && s[i] == s[j]
    ensures multiset(s)[s[i]] >= 2
  {
    assert s == s[..j] + [s[j]] + s[j + 1..];
    assert s[i] == s[..j][i] && s[i] in multiset(s[..j]);
  }

  lemma OnceMeansOne<V>(xs: seq<Relationship<V>>, k: nat)
    requires k < |xs| && DistinctAliases(xs)
    ensures multiset(xs)[xs[k]] == 1
  {
    assert xs == xs[..k] + [xs[k]] + xs[k + 1..];
    assert forall i :: 0 <= i < k ==> xs[..k][i].alias != xs[k].alias;
    assert forall i :: k < i < |xs| ==> xs[i].alias != xs[k].alias;
    assert xs[k] !in xs[..k] && xs[k] !in xs[k + 1..];
  }

  /** With distinct aliases, the order in which relationships were written does not show in the normal form. */
  lemma SortedIsCanonical<V>(xs: seq<Relationship<V>>, ys: seq<Relationship<V>>)
    requires multiset(xs) == multiset(ys) && DistinctAliases(xs)
    ensures SortedRelated(xs) == SortedRelated(ys)
  {
    SortedByAlias(xs);
    SortedByAlias(ys);
    DistinctAnyway(xs, SortedRelated(ys));
    OneOrder(SortedRelated(xs), SortedRelated(ys));
  }

  // ----- the meaning of the normal form

  lemma {:induction false} NormalAllTruth<V(!new)>(w: World<V>, conj: bool, cs: seq<Condition<V>>, s: Sorting<V>, table: string, row: Row<V>)
    requires Rearranges(s) && AllSafeInside(cs)
    ensures Combined(w, conj, NormalConditions(cs, s), table, row) == Combined(w, conj, cs, table, row)
    decreases SizeOfConditions(cs), 1, |cs|
  {
    hide Truth, NormalCondition, SafeInside, Rearranges;
    if cs != [] {
      NormalTruth(w, cs[0], s, table, row);
      NormalAllTruth(w, conj, cs[1..], s, table, row);
    }
  }

  /** The normal form of a condition is true, false or unknown for the same rows. */
  lemma {:induction false} NormalTruth<V(!new)>(w: World<V>, c: Condition<V>, s: Sorting<V>, table: string, row: Row<V>)
    requires Rearranges(s) && SafeInside(c)
    ensures Truth(w, NormalCondition(c, s), table, row) == Truth(w, c, table, row)
    decreases SizeOfCondition(c), 0
  {
    hide NormalConditions, NormalAst, Selected, AllSafeInside, SafeQuery, All, Any;
    match c
    case Simple(_, _, _) =>
    case And(cs) => NormalJunction(w, true, cs, s, table, row);
    case Or(cs) => NormalJunction(w, false, cs, s, table, row);
    case Exists(negated, rel) =>
      NormalSelected(w, rel.subquery, s, Some(Link(table, row, rel.parentField, rel.childField)));
  }

  lemma {:induction false} NormalJunction<V(!new)>(w: World<V>, conj: bool, cs: seq<Condition<V>>, s: Sorting<V>, table: string, row: Row<V>)
    requires Rearranges(s) && AllSafeInside(cs)
    ensures Combined(w, conj, s(NormalConditions(cs, s)), table, row) == Combined(w, conj, cs, table, row)
    decreases SizeOfConditions(cs), 2
  {
    hide NormalConditions, AllSafeInside, All, Any;
    CombinedPermuted(w, conj, s(NormalConditions(cs, s)), NormalConditions(cs, s), table, row);
    NormalAllTruth(w, conj, cs, s, table, row);
  }

  /** Whether a row meets a query's condition, where no condition is met by every row. */
  predicate Meets<V(!new)>(w: World<V>, c: Option<Condition<V>>, table: string, row: Row<V>) {
    c.Some? ==> Truth(w, c.value, table, row) == T
  }

  lemma NormalMeets<V(!new)>(w: World<V>, c: Option<Condition<V>>, s: Sorting<V>, table: string, row: Row<V>)
    requires Rearranges(s) && (c.Some? ==> Safe(true, c.value) && SafeInside(c.value))
    ensures Meets(w, NormalWhere(c, s), table, row) == Meets(w, c, table, row)
    decreases if c.Some? then SizeOfCondition(c.value) else 0, 1
  {
    hide Truth, NormalCondition, Safe, SafeInside, Flattened, Rearranges;
    if c.Some? {
      FlattenedMeans(w, true, c.value, table, row);
      FlattenedShrinks(c.value);
      FlattenedSafe(c.value);
      if Flattened(c.value).Some? { NormalTruth(w, Flattened(c.value).value, s, table, row); }
    }
  }

  lemma {:induction false} NormalKeep<V(!new)>(w: World<V>, c: Option<Condition<V>>, s: Sorting<V>, link: Option<Link<V>>, table: string,
                                        rows: seq<Row<V>>)
    requires Rearranges(s) && (c.Some? ==> Safe(true, c.value) && SafeInside(c.value))
    ensures Keep(w, NormalWhere(c, s), link, table, rows) == Keep(w, c, link, table, rows)
    decreases if c.Some? then SizeOfCondition(c.value) else 0, 2, |rows|
  {
    hide Truth, NormalWhere, Safe, SafeInside, Linked, Rearranges;
    if rows != [] {
      NormalMeets(w, c, s, table, rows[0]);
      NormalKeep(w, c, s, link, table, rows[1..]);
    }
  }

  lemma {:induction false} FromIs<V(!new)>(w: World<V>, q: Ast<V>, p: Ast<V>, rows: seq<Row<V>>)
    requires q.table == p.table && q.start == p.start && q.orderBy == p.orderBy
    ensures From(w, q, rows) == From(w, p, rows)
  {
    if q.start.Some? && rows != [] { FromIs(w, q, p, rows[1..]); }
  }

  /** The normal form of a query selects the same rows in the same order. */
  lemma {:induction false} NormalSelected<V(!new)>(w: World<V>, q: Ast<V>, s: Sorting<V>, link: Option<Link<V>>)
    requires Rearranges(s) && SafeQuery(q)
    ensures Selected(w, NormalAst(q, s), link) == Selected(w, q, link)
    decreases SizeOf(q), 0
  {
    hide NormalAst, Keep, From, InOrder, Safe, SafeInside, SafeRelated, NormalWhere, Rearranges;
    NormalAstIs(q, s);
    var rows := w.tables(w.tableName(q.table));
    NormalKeep(w, q.where, s, link, q.table, rows);
    FromIs(w, q, NormalAst(q, s), Keep(w, q.where, link, q.table, rows));
  }

  /** And the same edges. */
  lemma {:induction false} NormalEdges<V(!new)>(w: World<V>, q: Ast<V>, s: Sorting<V>, link: Option<Link<V>>)
    requires Rearranges(s) && SafeQuery(q)
    ensures Edges(w, NormalAst(q, s), link) == Edges(w, q, link)
    decreases SizeOf(q), 0
  {
    hide NormalAst, Keep, From, InOrder, Safe, SafeInside, SafeRelated, NormalWhere, Rearranges;
    NormalAstIs(q, s);
    var rows := w.tables(w.tableName(q.table));
    NormalKeep(w, q.where, s, link, q.table, rows);
    FromIs(w, q, NormalAst(q, s), Keep(w, q.where, link, q.table, rows));
  }

  lemma {:induction false} NormalRelatedMeans<V(!new)>(w: World<V>, rels: seq<Relationship<V>>, s: Sorting<V>, f: Format, table: string,
                                                row: Row<V>)
    requires Rearranges(s) && SafeRelated(rels)
    ensures RelatedOf(w, NormalRelated(rels, s), f, table, row) == RelatedOf(w, rels, f, table, row)
    decreases SizeOfRelated(rels), 7, |rels|
  {
    hide RelatedOf, RelationshipOf, FormatOf, SafeQuery, Rearranges, NormalAst;
    if rels != [] {
      var r := rels[0];
      assert rels == [r] + rels[1..];
      RelatedStep(w, r, rels[1..], f, table, row);
      RelatedStep(w, NormalRelationship(r, s), NormalRelated(rels[1..], s), f, table, row);
      NormalRelationshipMeans(w, r, s, FormatOf(f, r.alias), table, row);
      NormalRelatedMeans(w, rels[1..], s, f, table, row);
    }
  }

  lemma {:induction false} NormalDetails<V(!new)>(w: World<V>, q: Ast<V>, s: Sorting<V>, f: Format, rows: seq<Row<V>>)
    requires Rearranges(s) && SafeQuery(q)
    ensures Details(w, NormalAst(q, s), f, rows) == Details(w, q, f, rows)
    decreases SizeOf(q), 1, |rows|
  {
    hide RelatedOf, NormalAst, Rearranges, SortedRelated, NormalRelated, SafeRelated, SafeInside, Safe, ColumnsOf;
    if rows != [] {
      NormalAstIs(q, s);
      SortedMeans(w, NormalRelated(q.related, s), f, q.table, rows[0]);
      NormalRelatedMeans(w, q.related, s, f, q.table, rows[0]);
      NormalDetails(w, q, s, f, rows[1..]);
    }
  }

  lemma {:induction false} NormalReached<V(!new)>(w: World<V>, r: Relationship<V>, s: Sorting<V>, edgeTable: string, edges: seq<Row<V>>)
    requires Rearranges(s) && SafeQuery(r.subquery)
    ensures Reached(w, NormalRelationship(r, s), edgeTable, edges) == Reached(w, r, edgeTable, edges)
    decreases SizeOf(r.subquery), 2, |edges|
  {
    hide NormalAst, Rearranges, Keep, SafeRelated, SafeInside, Safe, NormalWhere;
    if edges != [] {
      var q := r.subquery;
      NormalAstIs(q, s);
      NormalKeep(w, q.where, s, Some(Link(edgeTable, edges[0], r.parentField, r.childField)), q.table,
                 w.tables(w.tableName(q.table)));
      NormalReached(w, r, s, edgeTable, edges[1..]);
    }
  }

  lemma {:induction false} NormalRelationshipMeans<V(!new)>(w: World<V>, r: Relationship<V>, s: Sorting<V>, f: Format, table: string,
                                                     row: Row<V>)
    requires Rearranges(s) && SafeQuery(r.subquery) && (r.hidden ==> |r.subquery.related| <= 1)
    ensures RelationshipOf(w, NormalRelationship(r, s), f, table, row) == RelationshipOf(w, r, f, table, row)
    decreases SizeOf(r.subquery), 5
  {
    hide NormalAst, Rearranges, SafeQuery, Result, Details, Reached, Edges, InOrder, From, Keep;
    NormalAstIs(r.subquery, s);
    if !r.hidden || r.subquery.related == [] {
      NormalResult(w, r.subquery, s, f, Some(Link(table, row, r.parentField, r.childField)));
    } else {
      NormalJunctionEdge(w, r, s, f, table, row);
    }
  }

  lemma {:induction false} NormalJunctionEdge<V(!new)>(w: World<V>, r: Relationship<V>, s: Sorting<V>, f: Format, table: string, row: Row<V>)
    requires Rearranges(s) && SafeQuery(r.subquery) && r.hidden && |r.subquery.related| == 1
    ensures RelationshipOf(w, NormalRelationship(r, s), f, table, row) == RelationshipOf(w, r, f, table, row)
    decreases SizeOf(r.subquery), 4
  {
    hide NormalAst, Rearranges, Details, Reached, Edges, InOrder, From, Keep, Safe, SafeInside;
    var last := r.subquery.related[0];
    var q := last.subquery;
    NormalAstIs(r.subquery, s);
    NormalAstIs(q, s);
    assert r.subquery.related[1..] == [];
    assert SortedRelated(NormalRelated(r.subquery.related, s)) == [NormalRelationship(last, s)] by {
      assert NormalRelated(r.subquery.related, s)[1..] == [];
    }
    assert SizeOf(q) < SizeOf(r.subquery);
    var edges := Edges(w, r.subquery, Some(Link(table, row, r.parentField, r.childField)));
    NormalEdges(w, r.subquery, s, Some(Link(table, row, r.parentField, r.childField)));
    NormalReached(w, last, s, r.subquery.table, edges);
    var reached := Reached(w, last, r.subquery.table, edges);
    FromIs(w, q, NormalAst(q, s), reached);
    NormalDetails(w, q, s, f, Take(InOrder(w, q.orderBy, q.table, From(w, q, reached)), q.limit));
  }

  /** The normal form of a query has the same result, relationships and all. */
  lemma {:induction false} NormalResult<V(!new)>(w: World<V>, q: Ast<V>, s: Sorting<V>, f: Format, link: Option<Link<V>>)
    requires Rearranges(s) && SafeQuery(q)
    ensures Result(w, NormalAst(q, s), f, link) == Result(w, q, f, link)
    decreases SizeOf(q), 3
  {
    hide NormalAst, Rearranges, SafeQuery, Details, Selected;
    NormalSelected(w, q, s, link);
    NormalDetails(w, q, s, f, Selected(w, q, link));
  }
}
