/** What the compiler looks at in a query, and what it leaves out. */
module CompilerScope {
  import opened Wrappers
  import opened Zql
  import opened SqlTree
  import opened CompilerProof
  import Compiler

  /** The part of a query that is compiled: no bounds, and of a junction edge only its table. */
  function Heard<V>(q: Ast<V>): (r: Ast<V>)
    ensures r.table == q.table && r.start.None? && r.orderBy == q.orderBy && r.limit == q.limit
    decreases q, 2
  {
    Ast(q.table, if q.where.None? then None else Some(HeardCondition(q.where.value)), HeardRelated(q.related), None, q.orderBy,
        q.limit)
  }

  function HeardCondition<V>(c: Condition<V>): Condition<V>
    decreases c, 0
  {
    match c
    case Simple(_, _, _) => c
    case And(cs) => And(HeardConditions(cs))
    case Or(cs) => Or(HeardConditions(cs))
    case Exists(negated, rel) => Exists(negated, rel.(subquery := Heard(rel.subquery)))
  }

  function HeardConditions<V>(cs: seq<Condition<V>>): (r: seq<Condition<V>>)
    ensures |r| == |cs|
    decreases cs, 0
  {
    if cs == [] then [] else [HeardCondition(cs[0])] + HeardConditions(cs[1..])
  }

  function HeardRelated<V>(rels: seq<Relationship<V>>): (r: seq<Relationship<V>>)
    ensures |r| == |rels| && forall i :: 0 <= i < |rels| ==> r[i].alias == rels[i].alias
    decreases rels, 0
  {
    if rels == [] then [] else [HeardRelationship(rels[0])] + HeardRelated(rels[1..])
  }

  function HeardRelationship<V>(r: Relationship<V>): (s: Relationship<V>)
    ensures s.alias == r.alias
    decreases r, 0
  {
    if !r.hidden || r.subquery.related == [] then
      r.(subquery := Heard(r.subquery))
    else
      var last := r.subquery.related[0];
      r.(subquery := Ast(r.subquery.table, None, [last.(subquery := Heard(last.subquery))] + r.subquery.related[1..], None, None,
                         None))
  }

  // ----- nothing else is compiled

  lemma {:induction false} SelectHears<V>(w: World<V>, q: Ast<V>, f: Format, c: Option<Compiler.Correlation>, n: nat)
    ensures Compiler.Select(w, Heard(q), f, c, n) == Compiler.Select(w, q, f, c, n)
    decreases q, 2
  {
    hide Compiler.Related, Compiler.Condition, Compiler.ColumnItems, Compiler.Correlator, Compiler.AliasOf, HeardCondition,
         HeardRelated;
    var t := Compiler.Parent(q.table, Compiler.AliasOf(q.table, n));
    RelatedHears(w, q.related, f, t, n + 1);
    ConditionHears(w, q.where, t, Compiler.Related(w, q.related, f, t, n + 1).1);
    SameNames(q.related, HeardRelated(q.related));
  }

  lemma SameNames<V>(rels: seq<Relationship<V>>, heard: seq<Relationship<V>>)
    requires |heard| == |rels| && forall i :: 0 <= i < |rels| ==> heard[i].alias == rels[i].alias
    ensures Compiler.AliasesUsed(heard) == Compiler.AliasesUsed(rels)
  {
    forall a | a in Compiler.AliasesUsed(rels) ensures a in Compiler.AliasesUsed(heard) {
      var i :| 0 <= i < |rels| && rels[i].alias == a;
      assert heard[i].alias == a;
    }
  }

  lemma {:induction false} ConditionHears<V>(w: World<V>, c: Option<Condition<V>>, t: Compiler.Parent, n: nat)
    ensures Compiler.Condition(w, if c.None? then None else Some(HeardCondition(c.value)), t, n) == Compiler.Condition(w, c, t, n)
    decreases c, 1
  {
    hide HeardCondition, Compiler.WhereOf;
    if c.Some? { WhereHears(w, c.value, t, n); }
  }

  lemma {:induction false} WhereHears<V>(w: World<V>, c: Condition<V>, t: Compiler.Parent, n: nat)
    ensures Compiler.WhereOf(w, HeardCondition(c), t, n) == Compiler.WhereOf(w, c, t, n)
    decreases c, 0
  {
    hide HeardConditions, Heard, Compiler.WhereAll, Compiler.Select;
    match c
    case Simple(_, _, _) =>
    case And(cs) => WhereAllHears(w, cs, t, n);
    case Or(cs) => WhereAllHears(w, cs, t, n);
    case Exists(_, rel) =>
      SelectHears(w, rel.subquery, NoFormat, Some(Compiler.Correlation(t, rel.parentField, rel.childField)), n);
  }

  lemma {:induction false} WhereAllHears<V>(w: World<V>, cs: seq<Condition<V>>, t: Compiler.Parent, n: nat)
    ensures Compiler.WhereAll(w, HeardConditions(cs), t, n) == Compiler.WhereAll(w, cs, t, n)
    decreases cs, 0
  {
    hide HeardCondition, Compiler.WhereOf;
    if cs != [] {
      WhereHears(w, cs[0], t, n);
      WhereAllHears(w, cs[1..], t, Compiler.WhereOf(w, cs[0], t, n).1);
    }
  }

  lemma {:induction false} RelatedHears<V>(w: World<V>, rels: seq<Relationship<V>>, f: Format, t: Compiler.Parent, n: nat)
    ensures Compiler.Related(w, HeardRelated(rels), f, t, n) == Compiler.Related(w, rels, f, t, n)
    decreases rels, 0
  {
    hide HeardRelationship, Compiler.RelationshipSubquery;
    if rels != [] {
      RelationshipHears(w, rels[0], FormatOf(f, rels[0].alias), t, n);
      RelatedHears(w, rels[1..], f, t, Compiler.RelationshipSubquery(w, rels[0], FormatOf(f, rels[0].alias), t, n).1);
    }
  }

  lemma {:induction false} RelationshipHears<V>(w: World<V>, r: Relationship<V>, f: Format, t: Compiler.Parent, n: nat)
    ensures Compiler.RelationshipSubquery(w, HeardRelationship(r), f, t, n) == Compiler.RelationshipSubquery(w, r, f, t, n)
    decreases r, 0
  {
    hide Heard, Compiler.Select, Compiler.Junction;
    if !r.hidden || r.subquery.related == [] {
      SelectHears(w, r.subquery, f, Some(Compiler.Correlation(t, r.parentField, r.childField)), n);
      NoneHeard(r.subquery);
    } else {
      JunctionHears(w, r, r.subquery.related[0], f, t, n);
    }
  }

  lemma NoneHeard<V>(q: Ast<V>)
    ensures Heard(q).related == [] <==> q.related == []
  {
  }

  lemma {:induction false} JunctionHears<V>(w: World<V>, r: Relationship<V>, last: Relationship<V>, f: Format, t: Compiler.Parent,
                                           n: nat)
    requires r.hidden && r.subquery.related != [] && last == r.subquery.related[0]
    ensures Compiler.Junction(w, HeardRelationship(r), last.(subquery := Heard(last.subquery)), f, t, n)
         == Compiler.Junction(w, r, last, f, t, n)
    decreases last, 3
  {
    hide Compiler.Related, Compiler.Condition, Compiler.ColumnItems, Compiler.Correlator, Compiler.AliasOf, HeardCondition,
         HeardRelated;
    var q := last.subquery;
    var t2 := Compiler.FarTable(last, n);
    RelatedHears(w, q.related, f, t2, n + 2);
    ConditionHears(w, q.where, t2, Compiler.Related(w, q.related, f, t2, n + 2).1);
  }

  /**
   What any query compiles to means what the compiled part of it means: the bounds and what restricts a junction edge itself
   do not matter. That part is plain if junctions lead through one visible relationship and no name is used twice behind them.
   */
  lemma CompileHears<V>(w: World<V>, q: Ast<V>, f: Format, e: Env<V>)
    requires Plain(w, Heard(q))
    ensures Compiler.Compile(w, q, f) == Compiler.Compile(w, Heard(q), f)
    ensures Eval(w, Compiler.Compile(w, q, f), Singular(f), e) == Result(w, Heard(q), f, None)
  {
    hide Compiler.Select, Heard, Eval, Result, Plain;
    SelectHears(w, q, f, None, 0);
    CompileMeans(w, Heard(q), f, e);
  }

  /** Queries that only differ in a bound compile to the same SQL. */
  lemma StartIsIgnored<V>(w: World<V>, q: Ast<V>, f: Format, start: Option<StartBound<V>>)
    ensures Compiler.Compile(w, q.(start := start), f) == Compiler.Compile(w, q, f)
  {
    hide Compiler.Select, HeardCondition, HeardRelated;
    SelectHears(w, q, f, None, 0);
    SelectHears(w, q.(start := start), f, None, 0);
  }

  /** Junction edges that only differ in their own filter, order, limit or bound compile to the same SQL. */
  lemma EdgeIsNotFiltered<V>(w: World<V>, r: Relationship<V>, f: Format, t: Compiler.Parent, n: nat, where: Option<Condition<V>>,
                             orderBy: Option<seq<(string, bool)>>, limit: Option<nat>, start: Option<StartBound<V>>)
    requires r.hidden && r.subquery.related != []
    ensures var r' := r.(subquery := r.subquery.(where := where, orderBy := orderBy, limit := limit, start := start));
      Compiler.RelationshipSubquery(w, r', f, t, n) == Compiler.RelationshipSubquery(w, r, f, t, n)
  {
    hide Compiler.RelationshipSubquery, Heard;
    var r' := r.(subquery := r.subquery.(where := where, orderBy := orderBy, limit := limit, start := start));
    RelationshipHears(w, r, f, t, n);
    RelationshipHears(w, r', f, t, n);
  }

  // ----- printing

  lemma {:induction false} PrintableJoin<V>(a: seq<Pred<V>>, b: seq<Pred<V>>)
    ensures PrintableAll(a + b) <==> PrintableAll(a) && PrintableAll(b)
  {
    if a == [] {
      assert a + b == b;
    } else {
      assert (a + b)[1..] == a[1..] + b;
      PrintableJoin(a[1..], b);
    }
  }

  lemma {:induction false} PrintableItemsJoin<V>(a: seq<Item<V>>, b: seq<Item<V>>)
    ensures PrintableItems(a + b) <==> PrintableItems(a) && PrintableItems(b)
  {
    if a == [] {
      assert a + b == b;
    } else {
      assert (a + b)[1..] == a[1..] + b;
      PrintableItemsJoin(a[1..], b);
    }
  }

  lemma {:induction false} CorrelatorPrints<V>(w: World<V>, p: Compiler.Parent, pf: seq<string>, c: Compiler.Parent,
                                              cf: seq<string>)
    ensures PrintableAll(Compiler.Correlator<V>(w, p, pf, c, cf))
  {
    if pf != [] && cf != [] {
      CorrelatorPrints(w, p, pf[1..], c, cf[1..]);
      var ps := Compiler.Correlator<V>(w, p, pf, c, cf);
      assert ps[1..] == Compiler.Correlator<V>(w, p, pf[1..], c, cf[1..]);
    }
  }

  lemma {:induction false} ColumnsPrint<V>(w: World<V>, columns: seq<string>, used: set<string>, t: Compiler.Parent)
    ensures PrintableItems(Compiler.ColumnItems<V>(w, columns, used, t))
  {
    if columns != [] {
      ColumnsPrint(w, columns[1..], used, t);
      var rest := Compiler.ColumnItems<V>(w, columns[1..], used, t);
      var items := Compiler.ColumnItems<V>(w, columns, used, t);
      assert items == rest || items[1..] == rest;
    }
  }

  /** Junction edges lead through exactly one relationship, which is not a junction edge itself: the compiler insists on it. */
  predicate Hops<V>(q: Ast<V>)
    decreases q, 1
  {
    (q.where.Some? ==> HopsCondition(q.where.value)) && HopsRelated(q.related)
  }

  predicate HopsCondition<V>(c: Condition<V>)
    decreases c, 0
  {
    match c
    case Simple(_, _, _) => true
    case And(cs) => HopsConditions(cs)
    case Or(cs) => HopsConditions(cs)
    case Exists(_, rel) => Hops(rel.subquery)
  }

  predicate HopsConditions<V>(cs: seq<Condition<V>>)
    decreases cs, 0
  {
    cs == [] || (HopsCondition(cs[0]) && HopsConditions(cs[1..]))
  }

  predicate HopsRelated<V>(rels: seq<Relationship<V>>)
    decreases rels, 0
  {
    rels == [] || (HopsRelationship(rels[0]) && HopsRelated(rels[1..]))
  }

  predicate HopsRelationship<V>(r: Relationship<V>)
    decreases r, 0
  {
    if r.hidden then
      |r.subquery.related| == 1 && !r.subquery.related[0].hidden && Hops(r.subquery.related[0].subquery)
    else
      Hops(r.subquery)
  }

  /** A query compiles to printable SQL exactly if no AND or OR in the compiled part of it is empty. */
  lemma {:induction false} SelectPrints<V>(w: World<V>, q: Ast<V>, f: Format, c: Option<Compiler.Correlation>, n: nat)
    requires Hops(q)
    ensures Printable(Compiler.Select(w, q, f, c, n).0) <==> NoEmpty(Heard(q))
    decreases q, 2
  {
    hide PrintableAll, PrintableItems, Compiler.Related, Compiler.Condition, Compiler.ColumnItems, Compiler.Correlator,
         Compiler.AliasOf, HopsRelated, HopsCondition, NoEmptyRelated, NoEmptyCondition, HeardCondition, HeardRelated;
    var t := Compiler.Parent(q.table, Compiler.AliasOf(q.table, n));
    var (related, n1) := Compiler.Related(w, q.related, f, t, n + 1);
    var (where, n2) := Compiler.Condition(w, q.where, t, n1);
    var columns := Compiler.ColumnItems<V>(w, w.columns(q.table), Compiler.AliasesUsed(q.related), t);
    RelatedPrints(w, q.related, f, t, n + 1);
    ConditionPrints(w, q.where, t, n1);
    ColumnsPrint(w, w.columns(q.table), Compiler.AliasesUsed(q.related), t);
    PrintableItemsJoin(related, columns);
    PrintableJoin(where, LinkPreds(w, c, t));
    NoPredsPrint<V>();
    if c.Some? { CorrelatorPrints(w, c.value.parent, c.value.parentField, t, c.value.childField); }
  }

  lemma NoPredsPrint<V>()
    ensures PrintableAll<V>([])
  {
  }

  lemma {:induction false} ConditionPrints<V>(w: World<V>, c: Option<Condition<V>>, t: Compiler.Parent, n: nat)
    requires c.Some? ==> HopsCondition(c.value)
    ensures PrintableAll(Compiler.Condition(w, c, t, n).0) <==> (c.Some? ==> NoEmptyCondition(HeardCondition(c.value)))
    decreases c, 1
  {
    if c.Some? {
      WherePrints(w, c.value, t, n);
      var p := Compiler.WhereOf(w, c.value, t, n).0;
      assert [p][1..] == [];
      assert PrintableAll([p]) <==> PrintablePred(p);
    }
  }

  lemma {:induction false} WherePrints<V>(w: World<V>, c: Condition<V>, t: Compiler.Parent, n: nat)
    requires HopsCondition(c)
    ensures PrintablePred(Compiler.WhereOf(w, c, t, n).0) <==> NoEmptyCondition(HeardCondition(c))
    decreases c, 0
  {
    hide PrintableAll, Compiler.WhereAll, Compiler.Select, Printable, NoEmpty, Hops, HopsConditions, NoEmptyConditions, Heard, HeardConditions;
    match c
    case Simple(_, _, _) =>
    case And(cs) => WhereAllPrints(w, cs, t, n);
    case Or(cs) => WhereAllPrints(w, cs, t, n);
    case Exists(_, rel) =>
      SelectPrints(w, rel.subquery, NoFormat, Some(Compiler.Correlation(t, rel.parentField, rel.childField)), n);
  }

  lemma {:induction false} WhereAllPrints<V>(w: World<V>, cs: seq<Condition<V>>, t: Compiler.Parent, n: nat)
    requires HopsConditions(cs)
    ensures PrintableAll(Compiler.WhereAll(w, cs, t, n).0) <==> NoEmptyConditions(HeardConditions(cs))
    decreases cs, 0
  {
    if cs != [] {
      WherePrints(w, cs[0], t, n);
      var (p, n1) := Compiler.WhereOf(w, cs[0], t, n);
      WhereAllPrints(w, cs[1..], t, n1);
      var ps := Compiler.WhereAll(w, cs[1..], t, n1).0;
      assert ([p] + ps)[1..] == ps;
    }
  }

  lemma {:induction false} RelatedPrints<V>(w: World<V>, rels: seq<Relationship<V>>, f: Format, t: Compiler.Parent, n: nat)
    requires HopsRelated(rels)
    ensures PrintableItems(Compiler.Related(w, rels, f, t, n).0) <==> NoEmptyRelated(HeardRelated(rels))
    decreases rels, 0
  {
    hide Printable, NoEmpty, Compiler.RelationshipSubquery, HopsRelationship, HeardRelationship;
    if rels != [] {
      var g := FormatOf(f, rels[0].alias);
      RelationshipPrints(w, rels[0], g, t, n);
      var (i, n1) := Compiler.RelationshipSubquery(w, rels[0], g, t, n);
      RelatedPrints(w, rels[1..], f, t, n1);
      var rest := Compiler.Related(w, rels[1..], f, t, n1).0;
      assert ([i] + rest)[1..] == rest;
    }
  }

  lemma {:induction false} RelationshipPrints<V>(w: World<V>, r: Relationship<V>, f: Format, t: Compiler.Parent, n: nat)
    requires HopsRelationship(r)
    ensures var i := Compiler.RelationshipSubquery(w, r, f, t, n).0; i.Nested? && (Printable(i.query) <==> NoEmpty(HeardRelationship(r).subquery))
    decreases r, 0
  {
    hide Printable, Hops, Compiler.Select, Compiler.Junction, NoEmptyRelated, Heard;
    if !r.hidden {
      SelectPrints(w, r.subquery, f, Some(Compiler.Correlation(t, r.parentField, r.childField)), n);
    } else {
      var last := r.subquery.related[0];
      JunctionPrints(w, r, last, f, t, n);
      OnlyRelated(HeardRelationship(r).subquery.related);
    }
  }

  lemma OnlyRelated<V>(rels: seq<Relationship<V>>)
    requires |rels| == 1
    ensures NoEmptyRelated(rels) <==> NoEmpty(rels[0].subquery)
  {
    assert rels[1..] == [];
  }

  lemma {:induction false} JunctionPrints<V>(w: World<V>, r: Relationship<V>, last: Relationship<V>, f: Format,
                                            t: Compiler.Parent, n: nat)
    requires Hops(last.subquery)
    ensures Printable(Compiler.Junction(w, r, last, f, t, n).0) <==> NoEmpty(Heard(last.subquery))
    decreases last, 3
  {
    hide PrintableAll, PrintableItems, Compiler.Related, Compiler.Condition, Compiler.ColumnItems, Compiler.Correlator,
         Compiler.AliasOf, HopsRelated, HopsCondition, NoEmptyRelated, NoEmptyCondition, HeardCondition, HeardRelated;
    var q := last.subquery;
    var t1, t2 := Compiler.EdgeTable(r, n), Compiler.FarTable(last, n);
    var (related, n1) := Compiler.Related(w, q.related, f, t2, n + 2);
    var where := Compiler.Condition(w, q.where, t2, n1).0;
    RelatedPrints(w, q.related, f, t2, n + 2);
    ConditionPrints(w, q.where, t2, n1);
    ColumnsPrint(w, w.columns(q.table), {}, t2);
    PrintableItemsJoin(related, Compiler.ColumnItems<V>(w, w.columns(q.table), {}, t2));
    PrintableJoin(Compiler.Correlator<V>(w, t, r.parentField, t1, r.childField), where);
    CorrelatorPrints(w, t, r.parentField, t1, r.childField);
  }

  // ----- plain queries

  lemma {:induction false} PlainHops<V>(w: World<V>, q: Ast<V>)
    requires Plain(w, q)
    ensures Hops(q)
    decreases q, 1
  {
    hide PlainCondition, PlainRelated, HopsCondition, HopsRelated;
    if q.where.Some? { PlainConditionHops(w, q.where.value); }
    PlainRelatedHops(w, q.related);
  }

  lemma {:induction false} PlainConditionHops<V>(w: World<V>, c: Condition<V>)
    requires PlainCondition(w, c)
    ensures HopsCondition(c)
    decreases c, 0
  {
    hide Plain, PlainConditions, Hops, HopsConditions;
    match c
    case Simple(_, _, _) =>
    case And(cs) => PlainConditionsHop(w, cs);
    case Or(cs) => PlainConditionsHop(w, cs);
    case Exists(_, rel) => PlainHops(w, rel.subquery);
  }

  lemma {:induction false} PlainConditionsHop<V>(w: World<V>, cs: seq<Condition<V>>)
    requires PlainConditions(w, cs)
    ensures HopsConditions(cs)
    decreases cs, 0
  {
    hide PlainCondition, HopsCondition;
    if cs != [] {
      PlainConditionHops(w, cs[0]);
      PlainConditionsHop(w, cs[1..]);
    }
  }

  lemma {:induction false} PlainRelatedHops<V>(w: World<V>, rels: seq<Relationship<V>>)
    requires PlainRelated(w, rels)
    ensures HopsRelated(rels)
    decreases rels, 0
  {
    hide Plain, Hops, NoClash;
    if rels != [] {
      PlainHops(w, if rels[0].hidden then rels[0].subquery.related[0].subquery else rels[0].subquery);
      PlainRelatedHops(w, rels[1..]);
    }
  }

  /** A query without an empty AND or OR has none in the part that is compiled. */
  lemma {:induction false} HeardNoEmpty<V>(q: Ast<V>)
    requires NoEmpty(q)
    ensures NoEmpty(Heard(q))
    decreases q, 2
  {
    hide NoEmptyCondition, NoEmptyRelated, HeardCondition, HeardRelated;
    if q.where.Some? { HeardConditionNoEmpty(q.where.value); }
    HeardRelatedNoEmpty(q.related);
  }

  lemma {:induction false} HeardConditionNoEmpty<V>(c: Condition<V>)
    requires NoEmptyCondition(c)
    ensures NoEmptyCondition(HeardCondition(c))
    decreases c, 0
  {
    hide NoEmpty, NoEmptyConditions, Heard, HeardConditions;
    match c
    case Simple(_, _, _) =>
    case And(cs) => HeardConditionsNoEmpty(cs);
    case Or(cs) => HeardConditionsNoEmpty(cs);
    case Exists(_, rel) => HeardNoEmpty(rel.subquery);
  }

  lemma {:induction false} HeardConditionsNoEmpty<V>(cs: seq<Condition<V>>)
    requires NoEmptyConditions(cs)
    ensures NoEmptyConditions(HeardConditions(cs))
    decreases cs, 0
  {
    hide NoEmptyCondition, HeardCondition;
    if cs != [] {
      HeardConditionNoEmpty(cs[0]);
      HeardConditionsNoEmpty(cs[1..]);
    }
  }

  lemma {:induction false} HeardRelatedNoEmpty<V>(rels: seq<Relationship<V>>)
    requires NoEmptyRelated(rels)
    ensures NoEmptyRelated(HeardRelated(rels))
    decreases rels, 0
  {
    hide NoEmpty, HeardRelationship;
    if rels != [] {
      HeardRelationshipNoEmpty(rels[0]);
      HeardRelatedNoEmpty(rels[1..]);
    }
  }

  lemma {:induction false} HeardRelationshipNoEmpty<V>(r: Relationship<V>)
    requires NoEmpty(r.subquery)
    ensures NoEmpty(HeardRelationship(r).subquery)
    decreases r, 0
  {
    hide Heard, NoEmptyCondition;
    if !r.hidden || r.subquery.related == [] {
      HeardNoEmpty(r.subquery);
    } else {
      var last := r.subquery.related[0];
      var heard := last.(subquery := Heard(last.subquery));
      HeardNoEmpty(last.subquery);
      assert ([heard] + r.subquery.related[1..])[1..] == r.subquery.related[1..];
    }
  }
}
