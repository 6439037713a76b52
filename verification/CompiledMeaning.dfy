/** What compiled SQL hands out, in terms of the query and its format alone. */
module CompiledMeaning {
  import opened Wrappers
  import opened Zql
  import opened QueryMeaning
  import SqlTree
  import Compiler
  import CompilerProof

  /** A relationship is compiled to a single row exactly if the format says so under its alias; then it has a limit of one. */
  ghost predicate CompiledAs<V>(r: Relationship<V>, f: Format, item: SqlTree.Item<V>) {
    && item.Nested? && item.name == r.alias
    && (item.singular <==>
          f.Format? && r.alias in f.relationships && f.relationships[r.alias].Format? && f.relationships[r.alias].singular)
    && var limit := if r.hidden && r.subquery.related != [] then r.subquery.related[0].subquery.limit else r.subquery.limit;
       item.query.limit == if limit.Some? && limit.value == 0 then Some(0) else if item.singular then Some(1) else limit
  }

  lemma {:induction false} RelatedCompiledAs<V>(w: World<V>, rels: seq<Relationship<V>>, f: Format, t: Compiler.Parent, n: nat)
    ensures forall i :: 0 <= i < |rels| ==> CompiledAs(rels[i], f, Compiler.Related(w, rels, f, t, n).0[i])
    decreases |rels|
  {
    hide Compiler.Condition, Compiler.Correlator, Compiler.ColumnItems, CompiledAs;
    if rels != [] {
      OneCompiledAs(w, rels[0], f, t, n);
      var (item, n1) := Compiler.RelationshipSubquery(w, rels[0], FormatOf(f, rels[0].alias), t, n);
      RelatedCompiledAs(w, rels[1..], f, t, n1);
      var items := Compiler.Related(w, rels, f, t, n).0;
      forall i | 0 <= i < |rels| ensures CompiledAs(rels[i], f, items[i]) {
        if i > 0 { assert rels[i] == rels[1..][i - 1] && items[i] == items[1..][i - 1]; }
      }
    }
  }

  lemma OneCompiledAs<V>(w: World<V>, r: Relationship<V>, f: Format, t: Compiler.Parent, n: nat)
    ensures CompiledAs(r, f, Compiler.RelationshipSubquery(w, r, FormatOf(f, r.alias), t, n).0)
  {
    hide Compiler.Condition, Compiler.Correlator, Compiler.ColumnItems, Compiler.Related, Compiler.AliasOf;
  }

  /** The SQL of a query, under any enclosing aliases, hands out what the query's rows do. */
  lemma SelectHandsOut<V>(w: World<V>, q: Ast<V>, f: Format, c: Option<Compiler.Correlation>, n: nat, e: SqlTree.Env<V>,
                          link: Option<Link<V>>)
    requires Plain(w, q) && CompilerProof.Fits(c, link, e, n)
    ensures Hands(w, q, f, Selected(w, q, link), SqlTree.Eval(w, Compiler.Select(w, q, f, c, n).0, f.Format? && f.singular, e))
  {
    hide Hands, Selected, Result, SqlTree.Eval, Compiler.Select, CompilerProof.Fits, Plain;
    CompilerProof.SelectMeans(w, q, f, c, n, e, link);
    ResultMeans(w, q, f, link);
  }

  lemma CompileHandsOut<V>(w: World<V>, q: Ast<V>, f: Format, e: SqlTree.Env<V>)
    requires Plain(w, q)
    ensures Hands(w, q, f, Selected(w, q, None), SqlTree.Eval(w, Compiler.Compile(w, q, f), f.Format? && f.singular, e))
  {
    hide Hands, Selected, Result, SqlTree.Eval, Compiler.Select, Plain;
    CompilerProof.CompileMeans(w, q, f, e);
    ResultMeans(w, q, f, None);
  }
}
