/** The traversal that both the normalisation and the renaming of queries are instances of. */
module AstTransform {
  import opened Wrappers
  import opened Zql

  // ----- sizes

  function SizeOf<V>(q: Ast<V>): (n: nat)
    ensures n > 0
    decreases q, 1
  {
    1 + (if q.where.Some? then SizeOfCondition(q.where.value) else 0) + SizeOfRelated(q.related)
  }

  function SizeOfCondition<V>(c: Condition<V>): (n: nat)
    ensures n > 0
    decreases c, 0
  {
    match c
    case Simple(_, _, _) => 1
    case And(cs) => 1 + SizeOfConditions(cs)
    case Or(cs) => 1 + SizeOfConditions(cs)
    case Exists(_, rel) => 1 + SizeOf(rel.subquery)
  }

  function SizeOfConditions<V>(cs: seq<Condition<V>>): nat
    decreases cs, 0
  {
    if cs == [] then 0 else SizeOfCondition(cs[0]) + SizeOfConditions(cs[1..])
  }

  function SizeOfRelated<V>(rels: seq<Relationship<V>>): nat
    decreases rels, 0
  {
    if rels == [] then 0 else SizeOf(rels[0].subquery) + SizeOfRelated(rels[1..])
  }

  // ----- the traversal

  /** `where` is applied to the condition of a query before its parts are visited, the lists are rearranged afterwards. */
  datatype Transform<!V> = Transform(
    tableName: string -> string,
    columnName: (string, string) -> string,
    related: seq<Relationship<V>> -> seq<Relationship<V>>,
    where: Condition<V> -> Option<Condition<V>>,
    conditions: seq<Condition<V>> -> seq<Condition<V>>)

  ghost predicate Shrinking<V(!new)>(t: Transform<V>) {
    forall c: Condition<V> :: t.where(c).Some? ==> SizeOfCondition(t.where(c).value) <= SizeOfCondition(c)
  }

  function Renamed<V>(t: Transform<V>, table: string, columns: seq<string>): (r: seq<string>)
    ensures |r| == |columns| && forall i :: 0 <= i < |columns| ==> r[i] == t.columnName(table, columns[i])
  {
    seq(|columns|, i requires 0 <= i < |columns| => t.columnName(table, columns[i]))
  }

  /** The columns of a row, or of an order. */
  function RenamedPairs<V, A>(t: Transform<V>, table: string, pairs: seq<(string, A)>): (r: seq<(string, A)>)
    ensures |r| == |pairs| && forall i :: 0 <= i < |pairs| ==> r[i] == (t.columnName(table, pairs[i].0), pairs[i].1)
  {
    seq(|pairs|, i requires 0 <= i < |pairs| => (t.columnName(table, pairs[i].0), pairs[i].1))
  }

  /** `transformAST` */
  function TransformAst<V(!new)>(q: Ast<V>, t: Transform<V>): Ast<V>
    requires Shrinking(t)
    decreases SizeOf(q), 1
  {
    Ast(t.tableName(q.table),
        if q.where.None? then None else
          var c := t.where(q.where.value);
          if c.None? then None else Some(TransformWhere(c.value, q.table, t)),
        t.related(TransformRelated(q.related, q.table, t)),
        if q.start.None? then None else Some(q.start.value.(row := RenamedPairs(t, q.table, q.start.value.row))),
        if q.orderBy.None? then None else Some(RenamedPairs(t, q.table, q.orderBy.value)),
        q.limit)
  }

  function TransformRelated<V(!new)>(rels: seq<Relationship<V>>, table: string, t: Transform<V>): (r: seq<Relationship<V>>)
    requires Shrinking(t)
    ensures |r| == |rels|
    decreases SizeOfRelated(rels), 3, |rels|
  {
    if rels == [] then [] else
      [TransformRelationship(rels[0], table, t)] + TransformRelated(rels[1..], table, t)
  }

  function TransformRelationship<V(!new)>(r: Relationship<V>, table: string, t: Transform<V>): Relationship<V>
    requires Shrinking(t)
    decreases SizeOf(r.subquery), 2
  {
    r.(parentField := Renamed(t, table, r.parentField), childField := Renamed(t, r.subquery.table, r.childField),
       subquery := TransformAst(r.subquery, t))
  }

  /** `transformWhere` */
  function TransformWhere<V(!new)>(c: Condition<V>, table: string, t: Transform<V>): Condition<V>
    requires Shrinking(t)
    decreases SizeOfCondition(c), 0
  {
    match c
    case Simple(op, left, right) => Simple(op, if left.Column? then Column(t.columnName(table, left.name)) else left, right)
    case And(cs) => And(t.conditions(TransformConditions(cs, table, t)))
    case Or(cs) => Or(t.conditions(TransformConditions(cs, table, t)))
    case Exists(negated, rel) => Exists(negated, TransformRelationship(rel, table, t))
  }

  function TransformConditions<V(!new)>(cs: seq<Condition<V>>, table: string, t: Transform<V>): (r: seq<Condition<V>>)
    requires Shrinking(t)
    ensures |r| == |cs|
    decreases SizeOfConditions(cs), 3, |cs|
  {
    if cs == [] then [] else
      [TransformWhere(cs[0], table, t)] + TransformConditions(cs[1..], table, t)
  }
}
