/** Queries whose SQL does not mean what they mean. */
module CompilerCases {
  import opened Wrappers
  import opened Zql
  import opened SqlTree
  import opened CompilerProof
  import opened CompilerScope
  import Compiler

  /** One row in every table, one column in every row; no row lies behind a bound. */
  function Tiny(): World<int> {
    World(_ => [_ => 0], _ => ["id"], t => t, (_, c) => c, (_, _, _) => T, (_, _) => T,
          (keys, _) => seq(|keys|, i requires 0 <= i < |keys| => i), (_, _, _, _) => false)
  }

  function Whole(table: string): Ast<int> { Ast(table, None, [], None, None, None) }

  lemma {:induction false} AlwaysLinked(parentTable: string, parent: Row<int>, table: string, row: Row<int>,
                                        parentField: seq<string>, childField: seq<string>)
    ensures Correlated(Tiny(), parentTable, parent, table, row, parentField, childField) == T
  {
    if parentField != [] && childField != [] {
      AlwaysLinked(parentTable, parent, table, row, parentField[1..], childField[1..]);
    }
  }

  lemma TheRow(table: string)
    ensures var rows := Tiny().tables(Tiny().tableName(table)); |rows| == 1 && rows[1..] == []
  {
  }

  lemma AllKept(link: Option<Link<int>>, table: string)
    ensures var rows := Tiny().tables(Tiny().tableName(table)); Keep(Tiny(), None, link, table, rows) == rows
  {
    TheRow(table);
    var rows := Tiny().tables(Tiny().tableName(table));
    if link.Some? {
      var l := link.value;
      AlwaysLinked(l.parentTable, l.parent, table, rows[0], l.parentField, l.childField);
    }
  }

  lemma OneDetail(q: Ast<int>, f: Format, rows: seq<Row<int>>)
    ensures |Details(Tiny(), q, f, rows)| == |rows|
  {
    if rows != [] { OneDetail(q, f, rows[1..]); }
  }

  /** A bound: the query has no row behind it, but its SQL ignores it. */
  lemma StartIsLost(e: Env<int>)
    ensures var q := Whole("a").(start := Some(StartBound([], false)));
      Eval(Tiny(), Compiler.Compile(Tiny(), q, NoFormat), false, e) != Result(Tiny(), q, NoFormat, None)
  {
    hide Compiler.Compile, Eval;
    var q := Whole("a").(start := Some(StartBound([], false)));
    assert Heard(q) == Whole("a");
    CompileHears(Tiny(), q, NoFormat, e);
    AllKept(None, "a");
    TheRow("a");
    OneDetail(Whole("a"), NoFormat, Selected(Tiny(), Whole("a"), None));
    OneDetail(q, NoFormat, Selected(Tiny(), q, None));
  }

  /** The relationship "x", through the table "b" to the table "c". */
  function Through(edge: Ast<int>, far: Ast<int>): Ast<int> {
    Whole("a").(related := [
      Relationship("x", [], [], edge.(related := [Relationship("y", [], [], far, false)]), true)])
  }

  lemma OneRelated(q: Ast<int>, r: Relationship<int>)
    requires q == Whole("a").(related := [r])
    ensures var row := Tiny().tables("a")[0];
      Result(Tiny(), q, NoFormat, None)
      == Many([ColumnsOf(Tiny(), "a", row, ["id"]) + map[r.alias := RelationshipOf(Tiny(), r, NoFormat, "a", row)]])
  {
    hide RelationshipOf, ColumnsOf;
    AllKept(None, "a");
    TheRow("a");
    var row := Tiny().tables("a")[0];
    assert [r][1..] == [];
    assert Selected(Tiny(), q, None) == [row];
    assert [row][1..] == [] && Details(Tiny(), q, NoFormat, []) == [];
    assert RelatedOf(Tiny(), [r], NoFormat, "a", row) == map[r.alias := RelationshipOf(Tiny(), r, NoFormat, "a", row)];
    assert Details(Tiny(), q, NoFormat, [row]) == [ColumnsOf(Tiny(), "a", row, ["id"]) + RelatedOf(Tiny(), [r], NoFormat, "a", row)];
  }

  /** A junction edge that lets nothing through, by its filter or by its limit: the SQL leads through it all the same. */
  lemma EdgeIsLost(edge: Ast<int>, e: Env<int>)
    requires edge == Whole("b").(where := Some(Or([]))) || edge == Whole("b").(limit := Some(0))
    ensures var q := Through(edge, Whole("c"));
      Eval(Tiny(), Compiler.Compile(Tiny(), q, NoFormat), false, e) != Result(Tiny(), q, NoFormat, None)
  {
    hide Compiler.Compile, Eval, ColumnsOf, Result, RelationshipOf, Heard;
    var q := Through(edge, Whole("c"));
    var open := Through(Whole("b"), Whole("c"));
    HeardThrough(edge);
    CompileHears(Tiny(), q, NoFormat, e);
    var row := Tiny().tables("a")[0];
    OneRelated(q, q.related[0]);
    OneRelated(open, open.related[0]);
    NothingThrough(edge, row);
    SomethingThrough(row);
    Apart(ColumnsOf(Tiny(), "a", row, ["id"]), "x", RelationshipOf(Tiny(), q.related[0], NoFormat, "a", row),
          RelationshipOf(Tiny(), open.related[0], NoFormat, "a", row));
  }

  lemma Apart<A>(m: map<string, A>, k: string, x: A, y: A)
    requires x != y
    ensures m + map[k := x] != m + map[k := y]
  {
    assert (m + map[k := x])[k] != (m + map[k := y])[k];
  }

  lemma HeardThrough(edge: Ast<int>)
    requires edge.table == "b"
    ensures Heard(Through(edge, Whole("c"))) == Through(Whole("b"), Whole("c"))
  {
    var q := Through(edge, Whole("c"));
    var r := q.related[0];
    var last := r.subquery.related[0];
    assert q.related[1..] == [] && r.subquery.related[1..] == [];
    assert Heard(Whole("c")) == Whole("c");
    assert last.(subquery := Heard(last.subquery)) == last;
    assert HeardRelationship(r) == Through(Whole("b"), Whole("c")).related[0];
    assert HeardRelated(q.related) == [HeardRelationship(r)];
  }

  lemma NothingThrough(edge: Ast<int>, row: Row<int>)
    requires edge == Whole("b").(where := Some(Or([]))) || edge == Whole("b").(limit := Some(0))
    ensures RelationshipOf(Tiny(), Through(edge, Whole("c")).related[0], NoFormat, "a", row) == Many([])
  {
    TheRow("b");
    var r := Through(edge, Whole("c")).related[0];
    var link := Some(Link("a", row, r.parentField, r.childField));
    assert Edges(Tiny(), r.subquery, link) == [];
  }

  lemma SomethingThrough(row: Row<int>)
    ensures RelationshipOf(Tiny(), Through(Whole("b"), Whole("c")).related[0], NoFormat, "a", row) != Many([])
  {
    var r := Through(Whole("b"), Whole("c")).related[0];
    OneBehind(r.subquery.related[0], r, row);
  }

  lemma OneBehind(last: Relationship<int>, r: Relationship<int>, row: Row<int>)
    requires r.subquery.where.None? && r.subquery.start.None? && r.subquery.limit.None? && r.hidden
    requires r.subquery.related == [last] && last.subquery.where.None? && last.subquery.start.None?
    requires last.subquery.orderBy.None? && last.subquery.limit.None?
    ensures Joined(Tiny(), r, last, "a", row) == Tiny().tables(last.subquery.table)
    ensures RelationshipOf(Tiny(), r, NoFormat, "a", row) == Many(Details(Tiny(), last.subquery, NoFormat, Joined(Tiny(), r, last, "a", row)))
    ensures |Details(Tiny(), last.subquery, NoFormat, Joined(Tiny(), r, last, "a", row))| == 1
  {
    var edgeTable, q := r.subquery.table, last.subquery;
    AllKept(Some(Link("a", row, r.parentField, r.childField)), edgeTable);
    TheRow(edgeTable);
    TheRow(q.table);
    var edges := Tiny().tables(edgeTable);
    AllKept(Some(Link(edgeTable, edges[0], last.parentField, last.childField)), q.table);
    assert Reached(Tiny(), last, edgeTable, edges) == Tiny().tables(q.table);
    OneDetail(q, NoFormat, Tiny().tables(q.table));
  }

  /** A relationship behind a junction has the name of a column: the SQL hands out the column instead. */
  lemma RelationshipIsLost(e: Env<int>)
    ensures var far := Whole("c").(related := [Relationship("id", [], [], Whole("d"), false)]);
      var r := Through(Whole("b"), far).related[0];
      var t := Compiler.Parent("a", Compiler.AliasOf("a", 0));
      OutputValue(Tiny(), Compiler.RelationshipSubquery(Tiny(), r, NoFormat, t, 1).0, e)
      != RelationshipOf(Tiny(), r, NoFormat, "a", e(t.alias))
  {
    var far := Whole("c").(related := [Relationship("id", [], [], Whole("d"), false)]);
    var r := Through(Whole("b"), far).related[0];
    var last := r.subquery.related[0];
    var t := Compiler.Parent("a", Compiler.AliasOf("a", 0));
    AliasIsMade("a", 0, 1);
    assert far.related[0].alias in Tiny().columns("c");
    assert !NoClash(Tiny(), far);
    assert far.related[1..] == [];
    OneBehind(last, r, e(t.alias));
    JunctionMeans(Tiny(), r, last, NoFormat, t, 1, e);
  }
}
