/** The shape of normal forms: what the compiler and a cache of queries rely on. */
module NormalForm {
  import opened Wrappers
  import opened Zql
  import opened AstNormalise
  import opened AstNormaliseProof
  import opened KeyOrder
  import Compiler
  import CompilerProof
  import CompilerScope
  import SqlTree

  // ----- no empty AND or OR is left

  lemma {:induction false} NoEmptyEach<V>(cs: seq<Condition<V>>)
    ensures NoEmptyConditions(cs) <==> forall c :: c in cs ==> NoEmptyCondition(c)
  {
    hide NoEmptyCondition;
    if cs != [] {
      NoEmptyEach(cs[1..]);
      assert cs == [cs[0]] + cs[1..];
      if NoEmptyConditions(cs) {
        forall c | c in cs ensures NoEmptyCondition(c) { assert c == cs[0] || c in cs[1..]; }
      }
      if forall c :: c in cs ==> NoEmptyCondition(c) {
        assert cs[0] in cs;
        forall c | c in cs[1..] ensures NoEmptyCondition(c) { assert c in cs; }
      }
    }
  }

  lemma NoEmptyRearranged<V(!new)>(s: Sorting<V>, cs: seq<Condition<V>>)
    requires Rearranges(s) && NoEmptyConditions(cs)
    ensures NoEmptyConditions(s(cs)) && (cs != [] ==> s(cs) != [])
  {
    hide NoEmptyConditions, NoEmptyCondition;
    NoEmptyEach(cs);
    NoEmptyEach(s(cs));
    assert multiset(s(cs)) == multiset(cs);
    forall c | c in s(cs) ensures c in cs { assert c in multiset(s(cs)); }
    if cs != [] { assert cs[0] in multiset(s(cs)); }
  }

  lemma {:induction false} NoEmptyInserted<V>(r: Relationship<V>, rels: seq<Relationship<V>>)
    requires NoEmpty(r.subquery) && NoEmptyRelated(rels)
    ensures NoEmptyRelated(Inserted(r, rels))
  {
    hide NoEmpty;
    if rels == [] || CompareUtf8(r.alias, rels[0].alias) <= 0 {
      assert ([r] + rels)[1..] == rels;
    } else {
      NoEmptyInserted(r, rels[1..]);
      assert Inserted(r, rels)[1..] == Inserted(r, rels[1..]);
    }
  }

  lemma {:induction false} NoEmptySorted<V>(rels: seq<Relationship<V>>)
    requires NoEmptyRelated(rels)
    ensures NoEmptyRelated(SortedRelated(rels))
  {
    hide NoEmpty;
    if rels != [] {
      NoEmptySorted(rels[1..]);
      NoEmptyInserted(rels[0], SortedRelated(rels[1..]));
    }
  }

  lemma {:induction false} NormalRelatedNoEmpty<V(!new)>(rels: seq<Relationship<V>>, s: Sorting<V>)
    requires Rearranges(s)
    ensures NoEmptyRelated(NormalRelated(rels, s))
    decreases AstTransform.SizeOfRelated(rels), 1, |rels|
  {
    hide NoEmpty, NormalAst, Rearranges;
    if rels != [] {
      NormalHasNoEmpty(rels[0].subquery, s);
      NormalRelatedNoEmpty(rels[1..], s);
    }
  }

  lemma {:induction false} NormalAllNoEmpty<V(!new)>(cs: seq<Condition<V>>, s: Sorting<V>)
    requires Rearranges(s) && AllBranching(cs)
    ensures NoEmptyConditions(NormalConditions(cs, s))
    decreases AstTransform.SizeOfConditions(cs), 1, |cs|
  {
    hide NoEmptyCondition, NormalCondition, Rearranges, Branching;
    if cs != [] {
      NormalConditionNoEmpty(cs[0], s);
      NormalAllNoEmpty(cs[1..], s);
    }
  }

  lemma {:induction false} NormalConditionNoEmpty<V(!new)>(c: Condition<V>, s: Sorting<V>)
    requires Rearranges(s) && Branching(c)
    ensures NoEmptyCondition(NormalCondition(c, s))
    decreases AstTransform.SizeOfCondition(c), 0
  {
    hide NoEmptyConditions, NormalConditions, Rearranges, AllBranching, NoEmpty, NormalAst;
    match c
    case Simple(_, _, _) =>
    case And(cs) =>
      NormalAllNoEmpty(cs, s);
      NoEmptyRearranged(s, NormalConditions(cs, s));
    case Or(cs) =>
      NormalAllNoEmpty(cs, s);
      NoEmptyRearranged(s, NormalConditions(cs, s));
    case Exists(_, rel) =>
      NormalHasNoEmpty(rel.subquery, s);
  }

  /** Whatever a query is like, its normal form has no AND and no OR without conditions, at any depth. */
  lemma {:induction false} NormalHasNoEmpty<V(!new)>(q: Ast<V>, s: Sorting<V>)
    requires Rearranges(s)
    ensures NoEmpty(NormalAst(q, s))
    decreases AstTransform.SizeOf(q), 0
  {
    hide NormalAst, NoEmptyCondition, NoEmptyRelated, Flattened, NormalCondition, NormalRelated, Branching, Rearranges, SortedRelated;
    NormalAstIs(q, s);
    NormalRelatedNoEmpty(q.related, s);
    NoEmptySorted(NormalRelated(q.related, s));
    if q.where.Some? && Flattened(q.where.value).Some? {
      FlattenedBranches(q.where.value);
      FlattenedShrinks(q.where.value);
      NormalConditionNoEmpty(Flattened(q.where.value).value, s);
    }
  }

  // ----- queries without empty ANDs and ORs are safe to normalise

  lemma {:induction false} NoEmptyAllSafe<V>(conj: bool, cs: seq<Condition<V>>)
    requires NoEmptyConditions(cs) && OneHopConditions(cs)
    ensures SafeAll(conj, cs) && AllSafeInside(cs) && (cs != [] ==> !AllHollow(cs))
    decreases cs, 0
  {
    hide NoEmptyCondition, OneHopCondition, Safe, SafeInside, Hollow;
    if cs != [] {
      NoEmptyConditionSafe(conj, cs[0]);
      NoEmptyAllSafe(conj, cs[1..]);
    }
  }

  lemma {:induction false} NoEmptyConditionSafe<V>(conj: bool, c: Condition<V>)
    requires NoEmptyCondition(c) && OneHopCondition(c)
    ensures Safe(conj, c) && SafeInside(c) && !Hollow(c)
    decreases c, 0
  {
    hide NoEmptyConditions, OneHopConditions, NoEmpty, OneHop, SafeQuery, SafeAll, AllSafeInside, AllHollow;
    match c
    case And(cs) => NoEmptyAllSafe(true, cs);
    case Or(cs) => NoEmptyAllSafe(false, cs);
    case Exists(_, rel) => NoEmptyIsSafe(rel.subquery);
    case Simple(_, _, _) =>
  }

  lemma {:induction false} NoEmptyRelatedSafe<V>(rels: seq<Relationship<V>>)
    requires NoEmptyRelated(rels) && OneHopRelated(rels)
    ensures SafeRelated(rels)
    decreases rels, 0
  {
    hide NoEmpty, OneHop, SafeQuery;
    if rels != [] {
      NoEmptyIsSafe(rels[0].subquery);
      NoEmptyRelatedSafe(rels[1..]);
    }
  }

  lemma {:induction false} NoEmptyIsSafe<V>(q: Ast<V>)
    requires NoEmpty(q) && OneHop(q)
    ensures SafeQuery(q)
    decreases q, 1
  {
    hide NoEmptyCondition, NoEmptyRelated, OneHopCondition, OneHopRelated, Safe, SafeInside, SafeRelated;
    if q.where.Some? { NoEmptyConditionSafe(true, q.where.value); }
    NoEmptyRelatedSafe(q.related);
  }

  /**
   Normalising keeps the result of every query without an empty AND or OR: bounds, orders, limits, restricted edges and all.
   */
  lemma NormalMeans<V(!new)>(w: World<V>, q: Ast<V>, s: Sorting<V>, f: Format, link: Option<Link<V>>)
    requires Rearranges(s) && NoEmpty(q) && OneHop(q)
    ensures Result(w, NormalAst(q, s), f, link) == Result(w, q, f, link)
  {
    hide NormalAst, NoEmpty, OneHop, SafeQuery, Rearranges, Result;
    NoEmptyIsSafe(q);
    NormalResult(w, q, s, f, link);
  }

  /** An empty OR is false of every row, but it is dropped, so that every row is selected. */
  lemma EmptyOrIsDropped<V(!new)>(w: World<V>, table: string, s: Sorting<V>)
    requires Rearranges(s)
    ensures var q := Ast(table, Some(Or([])), [], None, None, None);
      && Selected(w, q, None) == []
      && Selected(w, NormalAst(q, s), None) == w.tables(w.tableName(table))
  {
    var q := Ast(table, Some(Or([])), [], None, None, None);
    NormalAstIs(q, s);
    var rows := w.tables(w.tableName(table));
    NothingKept(w, table, rows);
    EverythingKept(w, table, rows);
  }

  lemma {:induction false} NothingKept<V>(w: World<V>, table: string, rows: seq<Row<V>>)
    ensures Keep(w, Some(Or([])), None, table, rows) == []
  {
    if rows != [] { NothingKept(w, table, rows[1..]); }
  }

  lemma {:induction false} EverythingKept<V>(w: World<V>, table: string, rows: seq<Row<V>>)
    ensures Keep(w, None, None, table, rows) == rows
  {
    if rows != [] { EverythingKept(w, table, rows[1..]); }
  }

  // ----- normal forms can be compiled

  lemma {:induction false} PlainConcat<V>(w: World<V>, xs: seq<Condition<V>>, ys: seq<Condition<V>>)
    ensures PlainConditions(w, xs + ys) <==> PlainConditions(w, xs) && PlainConditions(w, ys)
  {
    hide PlainCondition;
    if xs == [] {
      assert xs + ys == ys;
    } else {
      assert (xs + ys)[1..] == xs[1..] + ys;
      PlainConcat(w, xs[1..], ys);
    }
  }

  lemma {:induction false} FlatPartsPlain<V>(w: World<V>, conj: bool, cs: seq<Condition<V>>)
    requires PlainConditions(w, cs)
    ensures PlainConditions(w, FlatParts(conj, cs))
    decreases cs, 0
  {
    hide Flattened, Plain;
    if cs != [] {
      FlatPartsPlain(w, conj, cs[1..]);
      if IsJunction(conj, cs[0]) {
        FlatEachPlain(w, cs[0].conditions);
        PlainConcat(w, FlatEach(cs[0].conditions), FlatParts(conj, cs[1..]));
      } else {
        FlattenedPlain(w, cs[0]);
        PlainConcat(w, Defined(Flattened(cs[0])), FlatParts(conj, cs[1..]));
      }
    }
  }

  lemma {:induction false} FlatEachPlain<V>(w: World<V>, cs: seq<Condition<V>>)
    requires PlainConditions(w, cs)
    ensures PlainConditions(w, FlatEach(cs))
    decreases cs, 0
  {
    hide Flattened, Plain;
    if cs != [] {
      FlattenedPlain(w, cs[0]);
      FlatEachPlain(w, cs[1..]);
      PlainConcat(w, Defined(Flattened(cs[0])), FlatEach(cs[1..]));
    }
  }

  lemma {:induction false} FlattenedPlain<V>(w: World<V>, c: Condition<V>)
    requires PlainCondition(w, c)
    ensures Flattened(c).Some? ==> PlainCondition(w, Flattened(c).value)
    decreases c, 0
  {
    hide Plain;
    match c
    case And(cs) => FlatPartsPlain(w, true, cs);
    case Or(cs) => FlatPartsPlain(w, false, cs);
    case _ =>
  }

  lemma {:induction false} PlainEach<V>(w: World<V>, cs: seq<Condition<V>>)
    ensures PlainConditions(w, cs) <==> forall c :: c in cs ==> PlainCondition(w, c)
  {
    hide PlainCondition;
    if cs != [] {
      PlainEach(w, cs[1..]);
      assert cs == [cs[0]] + cs[1..];
      if PlainConditions(w, cs) {
        forall c | c in cs ensures PlainCondition(w, c) { assert c == cs[0] || c in cs[1..]; }
      }
      if forall c :: c in cs ==> PlainCondition(w, c) {
        assert cs[0] in cs;
        forall c | c in cs[1..] ensures PlainCondition(w, c) { assert c in cs; }
      }
    }
  }

  lemma PlainRearranged<V(!new)>(w: World<V>, s: Sorting<V>, cs: seq<Condition<V>>)
    requires Rearranges(s) && PlainConditions(w, cs)
    ensures PlainConditions(w, s(cs))
  {
    hide PlainConditions, PlainCondition;
    PlainEach(w, cs);
    PlainEach(w, s(cs));
    assert multiset(s(cs)) == multiset(cs);
    forall c | c in s(cs) ensures c in cs { assert c in multiset(s(cs)); }
  }

  lemma {:induction false} PlainInserted<V>(w: World<V>, r: Relationship<V>, rels: seq<Relationship<V>>)
    requires PlainRelationship(w, r) && PlainRelated(w, rels)
    ensures PlainRelated(w, Inserted(r, rels))
  {
    hide PlainRelationship;
    if rels == [] || CompareUtf8(r.alias, rels[0].alias) <= 0 {
      assert ([r] + rels)[1..] == rels;
    } else {
      PlainInserted(w, r, rels[1..]);
      assert Inserted(r, rels)[1..] == Inserted(r, rels[1..]);
    }
  }

  lemma {:induction false} PlainSorted<V>(w: World<V>, rels: seq<Relationship<V>>)
    requires PlainRelated(w, rels)
    ensures PlainRelated(w, SortedRelated(rels))
  {
    hide PlainRelationship;
    if rels != [] {
      PlainSorted(w, rels[1..]);
      PlainInserted(w, rels[0], SortedRelated(rels[1..]));
    }
  }

  lemma {:induction false} InsertedAliases<V>(w: World<V>, r: Relationship<V>, rels: seq<Relationship<V>>, columns: seq<string>)
    requires r.alias !in columns && forall i :: 0 <= i < |rels| ==> rels[i].alias !in columns
    ensures forall i :: 0 <= i < |Inserted(r, rels)| ==> Inserted(r, rels)[i].alias !in columns
  {
    if rels != [] && CompareUtf8(r.alias, rels[0].alias) > 0 { InsertedAliases(w, r, rels[1..], columns); }
  }

  lemma {:induction false} SortedAliases<V>(w: World<V>, rels: seq<Relationship<V>>, columns: seq<string>)
    requires forall i :: 0 <= i < |rels| ==> rels[i].alias !in columns
    ensures forall i :: 0 <= i < |SortedRelated(rels)| ==> SortedRelated(rels)[i].alias !in columns
  {
    if rels != [] {
      SortedAliases(w, rels[1..], columns);
      InsertedAliases(w, rels[0], SortedRelated(rels[1..]), columns);
    }
  }

  lemma {:induction false} NormalAllPlain<V(!new)>(w: World<V>, cs: seq<Condition<V>>, s: Sorting<V>)
    requires Rearranges(s) && PlainConditions(w, cs)
    ensures PlainConditions(w, NormalConditions(cs, s))
    decreases AstTransform.SizeOfConditions(cs), 1, |cs|
  {
    hide PlainCondition, NormalCondition, Rearranges;
    if cs != [] {
      NormalConditionPlain(w, cs[0], s);
      NormalAllPlain(w, cs[1..], s);
    }
  }

  lemma {:induction false} NormalConditionPlain<V(!new)>(w: World<V>, c: Condition<V>, s: Sorting<V>)
    requires Rearranges(s) && PlainCondition(w, c)
    ensures PlainCondition(w, NormalCondition(c, s))
    decreases AstTransform.SizeOfCondition(c), 0
  {
    hide PlainConditions, NormalConditions, Rearranges, Plain, NormalAst;
    match c
    case Simple(_, _, _) =>
    case And(cs) =>
      NormalAllPlain(w, cs, s);
      PlainRearranged(w, s, NormalConditions(cs, s));
    case Or(cs) =>
      NormalAllPlain(w, cs, s);
      PlainRearranged(w, s, NormalConditions(cs, s));
    case Exists(_, rel) =>
      NormalPlain(w, rel.subquery, s);
  }

  lemma {:induction false} NormalRelatedPlain<V(!new)>(w: World<V>, rels: seq<Relationship<V>>, s: Sorting<V>)
    requires Rearranges(s) && PlainRelated(w, rels)
    ensures PlainRelated(w, NormalRelated(rels, s))
    decreases AstTransform.SizeOfRelated(rels), 3, |rels|
  {
    hide PlainRelationship, NormalRelationship, Rearranges;
    if rels != [] {
      NormalRelationshipPlain(w, rels[0], s);
      NormalRelatedPlain(w, rels[1..], s);
    }
  }

  lemma {:induction false} NormalRelationshipPlain<V(!new)>(w: World<V>, r: Relationship<V>, s: Sorting<V>)
    requires Rearranges(s) && PlainRelationship(w, r)
    ensures PlainRelationship(w, NormalRelationship(r, s))
    decreases AstTransform.SizeOf(r.subquery), 2
  {
    hide NormalAst, Plain, Rearranges, NormalWhere, SortedRelated, NormalRelated, NoClash;
    if r.hidden {
      var last := r.subquery.related[0];
      NormalAstIs(r.subquery, s);
      OnlySorted(r.subquery.related, s);
      NormalWhereNone(s);
      NormalPlain(w, last.subquery, s);
      NormalNoClash(w, last.subquery, s);
    } else {
      NormalPlain(w, r.subquery, s);
    }
  }

  lemma NormalWhereNone<V(!new)>(s: Sorting<V>)
    ensures NormalWhere(None, s) == None
  {
  }

  lemma OnlySorted<V(!new)>(rels: seq<Relationship<V>>, s: Sorting<V>)
    requires |rels| == 1
    ensures SortedRelated(NormalRelated(rels, s)) == [NormalRelationship(rels[0], s)]
    ensures AstTransform.SizeOfRelated(rels) == AstTransform.SizeOf(rels[0].subquery)
  {
    assert rels[1..] == [];
    assert NormalRelated(rels, s)[1..] == [];
  }

  lemma NormalNoClash<V(!new)>(w: World<V>, q: Ast<V>, s: Sorting<V>)
    requires NoClash(w, q)
    ensures NoClash(w, NormalAst(q, s))
  {
    hide NormalAst, NormalWhere;
    NormalAstIs(q, s);
    SortedAliases(w, NormalRelated(q.related, s), w.columns(q.table));
  }

  lemma {:induction false} NormalPlain<V(!new)>(w: World<V>, q: Ast<V>, s: Sorting<V>)
    requires Rearranges(s) && Plain(w, q)
    ensures Plain(w, NormalAst(q, s))
    decreases AstTransform.SizeOf(q), 0
  {
    hide NormalAst, PlainCondition, PlainRelated, Flattened, NormalCondition, NormalRelated, Rearranges, SortedRelated;
    NormalAstIs(q, s);
    NormalRelatedPlain(w, q.related, s);
    PlainSorted(w, NormalRelated(q.related, s));
    if q.where.Some? && Flattened(q.where.value).Some? {
      FlattenedPlain(w, q.where.value);
      FlattenedShrinks(q.where.value);
      NormalConditionPlain(w, Flattened(q.where.value).value, s);
    }
  }

  /**
   * Normalised, then compiled, then evaluated: the result of the query itself, from SQL without an empty AND or OR.
   */
  lemma NormalisedCompiles<V(!new)>(w: World<V>, q: Ast<V>, s: Sorting<V>, f: Format, e: SqlTree.Env<V>)
    requires Rearranges(s) && Plain(w, q) && SafeQuery(q)
    ensures var sql := Compiler.Compile(w, NormalAst(q, s), f);
      SqlTree.Printable(sql) && SqlTree.Eval(w, sql, Singular(f), e) == Result(w, q, f, None)
  {
    hide NormalAst, Plain, NoEmpty, SafeQuery, Rearranges, Compiler.Select, SqlTree.Eval, Result, CompilerScope.Hops,
         CompilerScope.Heard;
    NormalPlain(w, q, s);
    NormalHasNoEmpty(q, s);
    CompilerScope.PlainHops(w, NormalAst(q, s));
    CompilerScope.HeardNoEmpty(NormalAst(q, s));
    CompilerScope.SelectPrints(w, NormalAst(q, s), f, None, 0);
    CompilerProof.CompileMeans(w, NormalAst(q, s), f, e);
    NormalResult(w, q, s, f, None);
  }
}
