/** Queries as trees, and what they denote. */
module Zql {
  import opened Wrappers

  datatype Tri = T | F | U

  function And3(a: Tri, b: Tri): Tri { if a == F || b == F then F else if a == T && b == T then T else U }
  function Or3(a: Tri, b: Tri): Tri { if a == T || b == T then T else if a == F && b == F then F else U }

  datatype Operand<+V> = Column(name: string) | Literal(value: V)

  datatype Condition<+V> =
    | Simple(op: string, left: Operand<V>, right: Operand<V>)
    | And(conditions: seq<Condition<V>>)
    | Or(conditions: seq<Condition<V>>)
    | Exists(negated: bool, related: Relationship<V>)

  /** `hidden` marks a junction edge: its subquery leads through a second relationship to the rows that are meant. */
  datatype Relationship<+V> = Relationship(alias: string, parentField: seq<string>, childField: seq<string>,
                                           subquery: Ast<V>, hidden: bool)

  datatype Ast<+V> = Ast(table: string, where: Option<Condition<V>>, related: seq<Relationship<V>>, start: Option<StartBound<V>>,
                         orderBy: Option<seq<(string, bool)>>, limit: Option<nat>)

  /** Where the results begin: at, or behind, a row of which some columns are given. */
  datatype StartBound<+V> = StartBound(row: seq<(string, V)>, exclusive: bool)

  /** Which relationships are single rows instead of lists. */
  datatype Format = NoFormat | Format(singular: bool, relationships: map<string, Format>)

  function Singular(f: Format): bool { f.Format? && f.singular }
  function FormatOf(f: Format, alias: string): Format {
    if f.Format? && alias in f.relationships then f.relationships[alias] else NoFormat
  }

  type Row<!V> = string -> V

  /** The tables, the names on the server, and the meaning of the operators, of ORDER BY and of a bound. */
  datatype World<!V> = World(
    tables: string -> seq<Row<V>>,
    columns: string -> seq<string>,
    tableName: string -> string,
    columnName: (string, string) -> string,
    compare: (string, V, V) -> Tri,
    equal: (V, V) -> Tri,
    arrange: (seq<seq<V>>, seq<bool>) -> seq<nat>,
    begins: (StartBound<V>, Option<seq<(string, bool)>>, string, Row<V>) -> bool)

  datatype Out<+V> = Scalar(value: V) | Many(rows: seq<OutRow<V>>) | One(row: Option<OutRow<V>>) | TooManyRows

  type OutRow<+V> = map<string, Out<V>>

  /** The value of a client column of a row of a client table. */
  function Field<V>(w: World<V>, table: string, row: Row<V>, column: string): V {
    row(w.columnName(table, column))
  }

  function Take<A>(s: seq<A>, limit: Option<nat>): seq<A> {
    if limit.Some? && limit.value <= |s| then s[..limit.value] else s
  }

  function Pick<A>(s: seq<A>, indices: seq<nat>): seq<A> {
    if indices == [] then [] else (if indices[0] < |s| then [s[indices[0]]] else []) + Pick(s, indices[1..])
  }

  function Directions(o: seq<(string, bool)>): seq<bool> {
    if o == [] then [] else [o[0].1] + Directions(o[1..])
  }

  // ----- the meaning of a query

  /** The rows that a correlation leads to from `parent`: every pair of fields is equal (null equals nothing). */
  function Correlated<V>(w: World<V>, parentTable: string, parent: Row<V>, childTable: string, child: Row<V>,
                         parentField: seq<string>, childField: seq<string>): Tri
  {
    if parentField == [] || childField == [] then T else
      And3(w.equal(Field(w, parentTable, parent, parentField[0]), Field(w, childTable, child, childField[0])),
           Correlated(w, parentTable, parent, childTable, child, parentField[1..], childField[1..]))
  }

  /** From which row, over which fields, a subquery is reached. */
  datatype Link<!V> = Link(parentTable: string, parent: Row<V>, parentField: seq<string>, childField: seq<string>)

  function Linked<V>(w: World<V>, link: Option<Link<V>>, table: string, row: Row<V>): Tri {
    match link
    case None => T
    case Some(l) => Correlated(w, l.parentTable, l.parent, table, row, l.parentField, l.childField)
  }

  function ValueOf<V>(w: World<V>, o: Operand<V>, table: string, row: Row<V>): V {
    if o.Column? then Field(w, table, row, o.name) else o.value
  }

  /** A condition under three-valued logic. */
  function Truth<V>(w: World<V>, c: Condition<V>, table: string, row: Row<V>): Tri
    decreases c, 0, 0
  {
    match c
    case Simple(op, l, r) => w.compare(op, ValueOf(w, l, table, row), ValueOf(w, r, table, row))
    case And(cs) => All(w, cs, table, row)
    case Or(cs) => Any(w, cs, table, row)
    case Exists(negated, rel) =>
      var link := Some(Link(table, row, rel.parentField, rel.childField));
      if (Selected(w, rel.subquery, link) != []) != negated then T else F
  }

  function All<V>(w: World<V>, cs: seq<Condition<V>>, table: string, row: Row<V>): Tri
    decreases cs, 0, 0
  {
    if cs == [] then T else And3(Truth(w, cs[0], table, row), All(w, cs[1..], table, row))
  }

  function Any<V>(w: World<V>, cs: seq<Condition<V>>, table: string, row: Row<V>): Tri
    decreases cs, 0, 0
  {
    if cs == [] then F else Or3(Truth(w, cs[0], table, row), Any(w, cs[1..], table, row))
  }

  function Keep<V>(w: World<V>, c: Option<Condition<V>>, link: Option<Link<V>>, table: string, rows: seq<Row<V>>): seq<Row<V>>
    decreases c, 0, |rows|
  {
    if rows == [] then [] else
      var kept := Keep(w, c, link, table, rows[1..]);
      if (c.Some? ==> Truth(w, c.value, table, rows[0]) == T) && Linked(w, link, table, rows[0]) == T then
        [rows[0]] + kept
      else kept
  }

  function KeyOf<V>(w: World<V>, o: seq<(string, bool)>, table: string, row: Row<V>): seq<V> {
    if o == [] then [] else [Field(w, table, row, o[0].0)] + KeyOf(w, o[1..], table, row)
  }

  function KeysOf<V>(w: World<V>, o: seq<(string, bool)>, table: string, rows: seq<Row<V>>): seq<seq<V>> {
    if rows == [] then [] else [KeyOf(w, o, table, rows[0])] + KeysOf(w, o, table, rows[1..])
  }

  function InOrder<V>(w: World<V>, o: Option<seq<(string, bool)>>, table: string, rows: seq<Row<V>>): seq<Row<V>> {
    if o.None? then rows else Pick(rows, w.arrange(KeysOf(w, o.value, table, rows), Directions(o.value)))
  }

  function From<V>(w: World<V>, q: Ast<V>, rows: seq<Row<V>>): seq<Row<V>> {
    if q.start.None? || rows == [] then rows
    else (if w.begins(q.start.value, q.orderBy, q.table, rows[0]) then [rows[0]] else []) + From(w, q, rows[1..])
  }

  /** The rows of the query's own table that it selects. */
  function Selected<V>(w: World<V>, q: Ast<V>, link: Option<Link<V>>): seq<Row<V>>
    decreases q, 0, 0
  {
    Take(InOrder(w, q.orderBy, q.table, From(w, q, Keep(w, q.where, link, q.table, w.tables(w.tableName(q.table))))), q.limit)
  }

  /** Rows as they are handed out: a list, or at most the first one. */
  function Shaped<V>(singular: bool, rows: seq<OutRow<V>>): Out<V> {
    if singular then One(if rows == [] then None else Some(rows[0])) else Many(rows)
  }

  /** The result of a query: its columns and its relationships, which take precedence over columns of the same name. */
  function Result<V>(w: World<V>, q: Ast<V>, f: Format, link: Option<Link<V>>): Out<V>
    decreases q, 2, 0
  {
    Shaped(Singular(f), Details(w, q, f, Selected(w, q, link)))
  }

  function Details<V>(w: World<V>, q: Ast<V>, f: Format, rows: seq<Row<V>>): seq<OutRow<V>>
    decreases q, 1, |rows|
  {
    if rows == [] then [] else
      [ColumnsOf(w, q.table, rows[0], w.columns(q.table)) + RelatedOf(w, q.related, f, q.table, rows[0])]
      + Details(w, q, f, rows[1..])
  }

  function ColumnsOf<V>(w: World<V>, table: string, row: Row<V>, columns: seq<string>): OutRow<V> {
    if columns == [] then map[] else
      map[columns[0] := Scalar(Field(w, table, row, columns[0]))] + ColumnsOf(w, table, row, columns[1..])
  }

  function RelatedOf<V>(w: World<V>, rels: seq<Relationship<V>>, f: Format, table: string, row: Row<V>): OutRow<V>
    decreases rels, 0, 0
  {
    if rels == [] then map[] else
      map[rels[0].alias := RelationshipOf(w, rels[0], FormatOf(f, rels[0].alias), table, row)]
      + RelatedOf(w, rels[1..], f, table, row)
  }

  /** A relationship of one row; a junction edge is the join of its two hops. */
  function RelationshipOf<V>(w: World<V>, r: Relationship<V>, f: Format, table: string, row: Row<V>): Out<V>
    decreases r, 0, 0
  {
    var link := Some(Link(table, row, r.parentField, r.childField));
    if !r.hidden || r.subquery.related == [] then
      Result(w, r.subquery, f, link)
    else
      var last := r.subquery.related[0];
      var q := last.subquery;
      var edges := Edges(w, r.subquery, link);
      var reached := Reached(w, last, r.subquery.table, edges);
      Shaped(Singular(f), Details(w, q, f, Take(InOrder(w, q.orderBy, q.table, From(w, q, reached)), q.limit)))
  }

  /** The edges of a junction. Their own order has a say only in which of them a limit keeps: the rows behind are ordered. */
  function Edges<V>(w: World<V>, q: Ast<V>, link: Option<Link<V>>): seq<Row<V>>
    decreases q, 0, 0
  {
    var found := From(w, q, Keep(w, q.where, link, q.table, w.tables(w.tableName(q.table))));
    if q.limit.None? then found else Take(InOrder(w, q.orderBy, q.table, found), q.limit)
  }

  /** The rows behind the edges, edge by edge. */
  function Reached<V>(w: World<V>, last: Relationship<V>, edgeTable: string, edges: seq<Row<V>>): seq<Row<V>>
    decreases last, 0, |edges|
  {
    if edges == [] then [] else
      var q := last.subquery;
      var link := Some(Link(edgeTable, edges[0], last.parentField, last.childField));
      Keep(w, q.where, link, q.table, w.tables(w.tableName(q.table))) + Reached(w, last, edgeTable, edges[1..])
  }

  // ----- the queries that the compiler handles

  /** No bounds; junction edges lead through one relationship, and may be ordered but not filtered or limited themselves. */
  predicate Plain<V>(w: World<V>, q: Ast<V>)
    decreases q, 1
  {
    q.start.None? && (q.where.Some? ==> PlainCondition(w, q.where.value)) && PlainRelated(w, q.related)
  }

  predicate PlainCondition<V>(w: World<V>, c: Condition<V>)
    decreases c, 0
  {
    match c
    case Simple(_, _, _) => true
    case And(cs) => PlainConditions(w, cs)
    case Or(cs) => PlainConditions(w, cs)
    case Exists(_, rel) => Plain(w, rel.subquery)
  }

  predicate PlainConditions<V>(w: World<V>, cs: seq<Condition<V>>)
    decreases cs, 0
  {
    cs == [] || (PlainCondition(w, cs[0]) && PlainConditions(w, cs[1..]))
  }

  predicate PlainRelated<V>(w: World<V>, rels: seq<Relationship<V>>)
    decreases rels, 0
  {
    rels == [] || (PlainRelationship(w, rels[0]) && PlainRelated(w, rels[1..]))
  }

  predicate PlainRelationship<V>(w: World<V>, r: Relationship<V>)
    decreases r, 0
  {
    if r.hidden then
      && |r.subquery.related| == 1 && !r.subquery.related[0].hidden
      && r.subquery.where.None? && r.subquery.start.None? && r.subquery.limit.None?
      && Plain(w, r.subquery.related[0].subquery)
      && NoClash(w, r.subquery.related[0].subquery)
    else
      Plain(w, r.subquery)
  }

  /** No relationship has the name of a column. */
  predicate NoClash<V>(w: World<V>, q: Ast<V>) {
    forall i :: 0 <= i < |q.related| ==> q.related[i].alias !in w.columns(q.table)
  }

  /** Every AND and OR has a condition in it. */
  predicate NoEmpty<V>(q: Ast<V>)
    decreases q, 1
  {
    (q.where.Some? ==> NoEmptyCondition(q.where.value)) && NoEmptyRelated(q.related)
  }

  predicate NoEmptyCondition<V>(c: Condition<V>)
    decreases c, 0
  {
    match c
    case Simple(_, _, _) => true
    case And(cs) => cs != [] && NoEmptyConditions(cs)
    case Or(cs) => cs != [] && NoEmptyConditions(cs)
    case Exists(_, rel) => NoEmpty(rel.subquery)
  }

  predicate NoEmptyConditions<V>(cs: seq<Condition<V>>)
    decreases cs, 0
  {
    cs == [] || (NoEmptyCondition(cs[0]) && NoEmptyConditions(cs[1..]))
  }

  predicate NoEmptyRelated<V>(rels: seq<Relationship<V>>)
    decreases rels, 0
  {
    rels == [] || (NoEmpty(rels[0].subquery) && NoEmptyRelated(rels[1..]))
  }
}
