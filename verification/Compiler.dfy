/** The compiler from queries to SQL: every table occurrence gets an alias of its own from a counter. */
module Compiler {
  import opened Wrappers
  import opened Zql
  import opened SqlTree

  function Decimal(n: nat): string {
    if n < 10 then ["0123456789"[n]] else Decimal(n / 10) + ["0123456789"[n % 10]]
  }

  /** `makeTable` */
  function AliasOf(table: string, n: nat): string {
    table + "_" + Decimal(n)
  }

  datatype Parent = Parent(table: string, alias: string)

  function Ident<V>(w: World<V>, t: Parent, column: string): ColRef {
    ColRef(t.alias, w.columnName(t.table, column))
  }

  /** `makeCorrelator` */
  function Correlator<V>(w: World<V>, parent: Parent, parentField: seq<string>, child: Parent, childField: seq<string>)
    : seq<Pred<V>>
  {
    if parentField == [] || childField == [] then [] else
      [Equals(Ident(w, parent, parentField[0]), Ident(w, child, childField[0]))]
      + Correlator(w, parent, parentField[1..], child, childField[1..])
  }

  datatype Correlation = Correlation(parent: Parent, parentField: seq<string>, childField: seq<string>)

  /** `limit` */
  function Limit(limit: Option<nat>, singular: bool): Option<nat> {
    if limit == Some(0) then Some(0) else if singular then Some(1) else limit
  }

  function OrderBy<V>(w: World<V>, o: seq<(string, bool)>, t: Parent): seq<(ColRef, bool)> {
    if o == [] then [] else [(Ident(w, t, o[0].0), o[0].1)] + OrderBy(w, o[1..], t)
  }

  function Order<V>(w: World<V>, o: Option<seq<(string, bool)>>, t: Parent): Option<seq<(ColRef, bool)>> {
    if o.None? then None else Some(OrderBy(w, o.value, t))
  }

  function Compared<V>(w: World<V>, o: Operand<V>, t: Parent): Term<V> {
    if o.Column? then Ref(Ident(w, t, o.name)) else Const(o.value)
  }

  function AliasesUsed<V>(rels: seq<Relationship<V>>): set<string> {
    set i | 0 <= i < |rels| :: rels[i].alias
  }

  function ColumnItems<V>(w: World<V>, columns: seq<string>, used: set<string>, t: Parent): seq<Item<V>> {
    if columns == [] then [] else
      (if columns[0] in used then [] else [Output(Ident(w, t, columns[0]), columns[0])])
      + ColumnItems(w, columns[1..], used, t)
  }

  /** `select`; the second result is the counter afterwards. */
  function Select<V>(w: World<V>, q: Ast<V>, f: Format, c: Option<Correlation>, n: nat): (r: (Query<V>, nat))
    ensures r.1 > n
    decreases q, 2, 0
  {
    var t := Parent(q.table, AliasOf(q.table, n));
    var (related, n1) := Related(w, q.related, f, t, n + 1);
    var items := related + ColumnItems(w, w.columns(q.table), AliasesUsed(q.related), t);
    var (where, n2) := Condition(w, q.where, t, n1);
    var correlate := if c.None? then [] else Correlator(w, c.value.parent, c.value.parentField, t, c.value.childField);
    (Query.Select(items, Table(w.tableName(q.table), t.alias), [], where + correlate, Order(w, q.orderBy, t),
                  Limit(q.limit, Singular(f))), n2)
  }

  /** `compile`: the query starts with a counter of zero and without an enclosing query. */
  function Compile<V>(w: World<V>, q: Ast<V>, f: Format): Query<V> {
    Select(w, q, f, None, 0).0
  }

  function Condition<V>(w: World<V>, c: Option<Zql.Condition<V>>, t: Parent, n: nat): (r: (seq<Pred<V>>, nat))
    ensures r.1 >= n
    decreases c, 1, 0
  {
    if c.None? then ([], n) else
      var (p, n1) := WhereOf(w, c.value, t, n);
      ([p], n1)
  }

  /** `where` */
  function WhereOf<V>(w: World<V>, c: Zql.Condition<V>, t: Parent, n: nat): (r: (Pred<V>, nat))
    ensures r.1 >= n
    decreases c, 0, 0
  {
    match c
    case Simple(op, l, r) => (Compare(op, Compared(w, l, t), Compared(w, r, t)), n)
    case And(cs) =>
      var (ps, n1) := WhereAll(w, cs, t, n);
      (AndP(ps), n1)
    case Or(cs) =>
      var (ps, n1) := WhereAll(w, cs, t, n);
      (OrP(ps), n1)
    case Exists(negated, rel) =>
      var (q, n1) := Select(w, rel.subquery, NoFormat, Some(Correlation(t, rel.parentField, rel.childField)), n);
      (ExistsP(negated, q), n1)
  }

  function WhereAll<V>(w: World<V>, cs: seq<Zql.Condition<V>>, t: Parent, n: nat): (r: (seq<Pred<V>>, nat))
    ensures r.1 >= n && |r.0| == |cs|
    decreases cs, 0, 0
  {
    if cs == [] then ([], n) else
      var (p, n1) := WhereOf(w, cs[0], t, n);
      var (ps, n2) := WhereAll(w, cs[1..], t, n1);
      ([p] + ps, n2)
  }

  /** `related` */
  function Related<V>(w: World<V>, rels: seq<Relationship<V>>, f: Format, t: Parent, n: nat): (r: (seq<Item<V>>, nat))
    ensures r.1 >= n && |r.0| == |rels|
    decreases rels, 0, 0
  {
    if rels == [] then ([], n) else
      var (i, n1) := RelationshipSubquery(w, rels[0], FormatOf(f, rels[0].alias), t, n);
      var (rest, n2) := Related(w, rels[1..], f, t, n1);
      ([i] + rest, n2)
  }

  /** `relationshipSubquery`: a nested query; for a junction edge, over the join of the two tables. */
  function RelationshipSubquery<V>(w: World<V>, r: Relationship<V>, f: Format, t: Parent, n: nat): (s: (Item<V>, nat))
    ensures s.1 >= n && s.0.name == r.alias && s.0.Nested?
    decreases r, 0, 0
  {
    if !r.hidden || r.subquery.related == [] then
      var (q, n1) := Select(w, r.subquery, f, Some(Correlation(t, r.parentField, r.childField)), n);
      (Nested(Singular(f), q, r.alias), n1)
    else
      var last := r.subquery.related[0];
      var (q, n1) := Junction(w, r, last, f, t, n);
      (Nested(Singular(f), q, r.alias), n1)
  }

  function EdgeTable<V>(r: Relationship<V>, n: nat): Parent { Parent(r.subquery.table, AliasOf(r.subquery.table, n)) }

  function FarTable<V>(last: Relationship<V>, n: nat): Parent {
    Parent(last.subquery.table, AliasOf(last.subquery.table, n + 1))
  }

  /** The junction edge `r` with its second hop `last`. */
  function Junction<V>(w: World<V>, r: Relationship<V>, last: Relationship<V>, f: Format, t: Parent, n: nat)
    : (s: (Query<V>, nat))
    ensures s.1 >= n
    decreases last, 3, 0
  {
    var q := last.subquery;
    var t1, t2 := EdgeTable(r, n), FarTable(last, n);
    var (related, n1) := Related(w, q.related, f, t2, n + 2);
    var (where, n2) := Condition(w, q.where, t2, n1);
    (Query.Select(related + ColumnItems(w, w.columns(q.table), {}, t2),
                  Join(w.tableName(t1.table), t1.alias, w.tableName(t2.table), t2.alias),
                  Correlator(w, t1, last.parentField, t2, last.childField),
                  Correlator(w, t, r.parentField, t1, r.childField) + where,
                  Order(w, q.orderBy, t2), Limit(q.limit, Singular(f))), n2)
  }
}
