/**
 What a query denotes, and what it compiles to, written out: which rows, in which order, what a row hands out under each
 name. Values under relationships are results of queries again, so this describes every depth.
 */
module QueryMeaning {
  import opened Wrappers
  import opened Zql
  import opened Lists

  // ----- conditions

  lemma {:induction false} AllMeans<V>(w: World<V>, cs: seq<Condition<V>>, table: string, row: Row<V>)
    ensures All(w, cs, table, row) == T <==> forall i :: 0 <= i < |cs| ==> Truth(w, cs[i], table, row) == T
    ensures All(w, cs, table, row) == F <==> exists i :: 0 <= i < |cs| && Truth(w, cs[i], table, row) == F
  {
    hide Truth;
    if cs != [] {
      AllMeans(w, cs[1..], table, row);
      Split(cs, c => Truth(w, c, table, row) == T);
      Split(cs, c => Truth(w, c, table, row) != F);
    }
  }

  lemma {:induction false} AnyMeans<V>(w: World<V>, cs: seq<Condition<V>>, table: string, row: Row<V>)
    ensures Any(w, cs, table, row) == T <==> exists i :: 0 <= i < |cs| && Truth(w, cs[i], table, row) == T
    ensures Any(w, cs, table, row) == F <==> forall i :: 0 <= i < |cs| ==> Truth(w, cs[i], table, row) == F
  {
    hide Truth;
    if cs != [] {
      AnyMeans(w, cs[1..], table, row);
      Split(cs, c => Truth(w, c, table, row) != T);
      Split(cs, c => Truth(w, c, table, row) == F);
    }
  }

  lemma Split<A>(s: seq<A>, p: A -> bool)
    requires s != []
    ensures (forall i :: 0 <= i < |s| ==> p(s[i])) <==> p(s[0]) && forall i :: 0 <= i < |s[1..]| ==> p(s[1..][i])
  {
    if p(s[0]) && forall i :: 0 <= i < |s[1..]| ==> p(s[1..][i]) {
      forall i | 0 <= i < |s| ensures p(s[i]) { assert i > 0 ==> s[i] == s[1..][i - 1]; }
    }
  }

  /** Three-valued logic: AND is false as soon as a part is, OR is true as soon as a part is, EXISTS is never unknown. */
  lemma ConditionMeans<V>(w: World<V>, c: Condition<V>, table: string, row: Row<V>)
    ensures c.Simple? ==>
      var left := if c.left.Column? then row(w.columnName(table, c.left.name)) else c.left.value;
      var right := if c.right.Column? then row(w.columnName(table, c.right.name)) else c.right.value;
      Truth(w, c, table, row) == w.compare(c.op, left, right)
    ensures c.And? ==>
      && (Truth(w, c, table, row) == T <==> forall i :: 0 <= i < |c.conditions| ==> Truth(w, c.conditions[i], table, row) == T)
      && (Truth(w, c, table, row) == F <==> exists i :: 0 <= i < |c.conditions| && Truth(w, c.conditions[i], table, row) == F)
    ensures c.Or? ==>
      && (Truth(w, c, table, row) == T <==> exists i :: 0 <= i < |c.conditions| && Truth(w, c.conditions[i], table, row) == T)
      && (Truth(w, c, table, row) == F <==> forall i :: 0 <= i < |c.conditions| ==> Truth(w, c.conditions[i], table, row) == F)
    ensures c.Exists? ==>
      var rows := Selected(w, c.related.subquery, Some(Link(table, row, c.related.parentField, c.related.childField)));
      && (Truth(w, c, table, row) == T <==> (if c.negated then |rows| == 0 else |rows| > 0))
      && (Truth(w, c, table, row) == F <==> (if c.negated then |rows| > 0 else |rows| == 0))
  {
    hide Selected, All, Any;
    match c
    case And(cs) => AllMeans(w, cs, table, row);
    case Or(cs) => AnyMeans(w, cs, table, row);
    case _ =>
  }

  /** Every field of the correlation is equal on both sides. */
  ghost predicate Matches<V>(w: World<V>, link: Link<V>, table: string, row: Row<V>) {
    forall i :: 0 <= i < |link.parentField| && i < |link.childField| ==>
      w.equal(link.parent(w.columnName(link.parentTable, link.parentField[i])), row(w.columnName(table, link.childField[i]))) == T
  }

  lemma {:induction false} LinkedMeans<V>(w: World<V>, link: Link<V>, table: string, row: Row<V>)
    ensures Linked(w, Some(link), table, row) == T <==> Matches(w, link, table, row)
    decreases |link.parentField|
  {
    if link.parentField != [] && link.childField != [] {
      var rest := link.(parentField := link.parentField[1..], childField := link.childField[1..]);
      LinkedMeans(w, rest, table, row);
      if Matches(w, rest, table, row) && Linked(w, Some(link), table, row) == T {
        forall i | 0 <= i < |link.parentField| && i < |link.childField|
          ensures w.equal(link.parent(w.columnName(link.parentTable, link.parentField[i])),
                          row(w.columnName(table, link.childField[i]))) == T
        {
          if i > 0 {
            assert link.parentField[i] == rest.parentField[i - 1] && link.childField[i] == rest.childField[i - 1];
          }
        }
      }
      if Matches(w, link, table, row) {
        forall i | 0 <= i < |rest.parentField| && i < |rest.childField|
          ensures w.equal(link.parent(w.columnName(link.parentTable, rest.parentField[i])),
                          row(w.columnName(table, rest.childField[i]))) == T
        {
          assert link.parentField[i + 1] == rest.parentField[i] && link.childField[i + 1] == rest.childField[i];
        }
      }
    }
  }

  // ----- which rows

  /** A row of the table that the query asks for. */
  ghost predicate Wanted<V>(w: World<V>, q: Ast<V>, link: Option<Link<V>>, row: Row<V>) {
    && (q.where.Some? ==> Truth(w, q.where.value, q.table, row) == T)
    && (link.Some? ==> Matches(w, link.value, q.table, row))
    && (q.start.Some? ==> w.begins(q.start.value, q.orderBy, q.table, row))
  }

  ghost function WantedBy<V>(w: World<V>, q: Ast<V>, link: Option<Link<V>>): Row<V> -> bool {
    (row: Row<V>) => Wanted(w, q, link, row)
  }

  lemma {:induction false} KeptMeans<V>(w: World<V>, q: Ast<V>, link: Option<Link<V>>, rows: seq<Row<V>>) returns (at: seq<nat>)
    ensures Places(at, rows, WantedBy(w, q, link))
    ensures Gathers(From(w, q, Keep(w, q.where, link, q.table, rows)), rows, at)
    decreases |rows|
  {
    hide Truth, Correlated, Matches, Places, Gathers, Wanted;
    if rows == [] {
      at := [];
      Nothing<Row<V>>(WantedBy(w, q, link));
    } else {
      at := KeptMeans(w, q, link, rows[1..]);
      var wanted := Wanted(w, q, link, rows[0]);
      FirstKept(w, q, link, rows);
      var rest := From(w, q, Keep(w, q.where, link, q.table, rows[1..]));
      assert [] + rest == rest;
      PlacesMore(at, rows, WantedBy(w, q, link));
      GathersMore(rest, rows, at, wanted);
      at := if wanted then [0] + Shifted(at) else Shifted(at);
    }
  }

  lemma FirstKept<V>(w: World<V>, q: Ast<V>, link: Option<Link<V>>, rows: seq<Row<V>>)
    requires rows != []
    ensures From(w, q, Keep(w, q.where, link, q.table, rows))
      == (if Wanted(w, q, link, rows[0]) then [rows[0]] else []) + From(w, q, Keep(w, q.where, link, q.table, rows[1..]))
  {
    hide Truth, Matches, Correlated;
    if link.Some? { LinkedMeans(w, link.value, q.table, rows[0]); }
    FromFirst(w, q, rows[0], Keep(w, q.where, link, q.table, rows[1..]));
  }

  lemma FromFirst<V>(w: World<V>, q: Ast<V>, row: Row<V>, rows: seq<Row<V>>)
    ensures From(w, q, [row] + rows)
      == (if q.start.None? || w.begins(q.start.value, q.orderBy, q.table, row) then [row] else []) + From(w, q, rows)
  {
    assert ([row] + rows)[1..] == rows;
  }

  /** The values that rows are ordered by. */
  ghost predicate Keys<V>(w: World<V>, o: seq<(string, bool)>, table: string, rows: seq<Row<V>>, keys: seq<seq<V>>) {
    && |keys| == |rows|
    && forall i :: 0 <= i < |rows| ==>
         |keys[i]| == |o| && forall j :: 0 <= j < |o| ==> keys[i][j] == rows[i](w.columnName(table, o[j].0))
  }

  lemma {:induction false} KeyMeans<V>(w: World<V>, o: seq<(string, bool)>, table: string, row: Row<V>)
    ensures |KeyOf(w, o, table, row)| == |o|
    ensures forall j :: 0 <= j < |o| ==> KeyOf(w, o, table, row)[j] == row(w.columnName(table, o[j].0))
  {
    if o != [] { KeyMeans(w, o[1..], table, row); }
  }

  lemma {:induction false} KeysMean<V>(w: World<V>, o: seq<(string, bool)>, table: string, rows: seq<Row<V>>)
    ensures Keys(w, o, table, rows, KeysOf(w, o, table, rows))
  {
    hide KeyOf;
    if rows != [] {
      KeyMeans(w, o, table, rows[0]);
      KeysMean(w, o, table, rows[1..]);
    }
  }

  lemma {:induction false} DirectionsMean(o: seq<(string, bool)>)
    ensures |Directions(o)| == |o| && forall j :: 0 <= j < |o| ==> Directions(o)[j] == o[j].1
  {
    if o != [] { DirectionsMean(o[1..]); }
  }

  lemma {:induction false} PickMeans<A>(s: seq<A>, indices: seq<nat>)
    requires forall i :: 0 <= i < |indices| ==> indices[i] < |s|
    ensures Gathers(Pick(s, indices), s, indices)
  {
    if indices != [] { PickMeans(s, indices[1..]); }
  }

  /** The places in the order that the ORDER BY puts them in; without one, they stay as they are. */
  ghost predicate Arranged<V(!new)>(w: World<V>, o: Option<seq<(string, bool)>>, table: string, rows: seq<Row<V>>, order: seq<nat>) {
    if o.None? then
      |order| == |rows| && forall i :: 0 <= i < |order| ==> order[i] == i
    else
      exists keys, directions :: Keys(w, o.value, table, rows, keys)
        && |directions| == |o.value| && (forall j :: 0 <= j < |o.value| ==> directions[j] == o.value[j].1)
        && order == w.arrange(keys, directions)
  }

  /** The arrangement names only rows that there are. */
  ghost predicate Arranges<V(!new)>(w: World<V>) {
    forall keys, directions, i :: 0 <= i < |w.arrange(keys, directions)| ==> w.arrange(keys, directions)[i] < |keys|
  }

  lemma InOrderMeans<V(!new)>(w: World<V>, o: Option<seq<(string, bool)>>, table: string, rows: seq<Row<V>>)
    returns (order: seq<nat>)
    requires Arranges(w)
    ensures Arranged(w, o, table, rows, order) && Gathers(InOrder(w, o, table, rows), rows, order)
  {
    hide Keys;
    if o.None? {
      order := seq(|rows|, i => i);
    } else {
      var keys, directions := KeysOf(w, o.value, table, rows), Directions(o.value);
      KeysMean(w, o.value, table, rows);
      DirectionsMean(o.value);
      SameLength(w, o.value, table, rows, keys);
      order := w.arrange(keys, directions);
      PickMeans(rows, order);
    }
  }

  lemma SameLength<V>(w: World<V>, o: seq<(string, bool)>, table: string, rows: seq<Row<V>>, keys: seq<seq<V>>)
    requires Keys(w, o, table, rows, keys)
    ensures |keys| == |rows|
  {
  }

  /** The first rows, as many as the limit allows. */
  ghost predicate Cut<A>(r: seq<A>, s: seq<A>, limit: Option<nat>) {
    && |r| == (if limit.Some? && limit.value < |s| then limit.value else |s|)
    && forall i :: 0 <= i < |r| ==> r[i] == s[i]
  }

  /** The rows of a query: the wanted ones of its table, ordered, and cut to the limit. */
  lemma SelectedMeans<V(!new)>(w: World<V>, q: Ast<V>, link: Option<Link<V>>)
    returns (at: seq<nat>, kept: seq<Row<V>>, order: seq<nat>, ordered: seq<Row<V>>)
    requires Arranges(w)
    ensures var rows := w.tables(w.tableName(q.table));
      Places(at, rows, WantedBy(w, q, link)) && Gathers(kept, rows, at)
    ensures Arranged(w, q.orderBy, q.table, kept, order) && Gathers(ordered, kept, order)
    ensures Cut(Selected(w, q, link), ordered, q.limit)
  {
    hide Places, Gathers, Arranged, Arranges, From, Keep, InOrder;
    var rows := w.tables(w.tableName(q.table));
    at := KeptMeans(w, q, link, rows);
    kept := From(w, q, Keep(w, q.where, link, q.table, rows));
    order := InOrderMeans(w, q.orderBy, q.table, kept);
    ordered := InOrder(w, q.orderBy, q.table, kept);
  }

  // ----- what is handed out

  /** What one row hands out: a value under each column's name, unless a relationship has it. */
  ghost predicate HandsOut<V>(w: World<V>, q: Ast<V>, f: Format, row: Row<V>, out: OutRow<V>) {
    && (forall name :: name in out <==>
          name in w.columns(q.table) || exists i :: 0 <= i < |q.related| && q.related[i].alias == name)
    && (forall name :: name in w.columns(q.table) && (forall i :: 0 <= i < |q.related| ==> q.related[i].alias != name) ==>
          name in out && out[name] == Scalar(row(w.columnName(q.table, name))))
    && (forall i :: 0 <= i < |q.related| && (forall j :: i < j < |q.related| ==> q.related[j].alias != q.related[i].alias) ==>
          q.related[i].alias in out && HasRelated(w, q.related[i], f, q.table, row, out[q.related[i].alias]))
  }

  /** Under a relationship: its result for this row, in the format that the query's format has under the relationship's alias. */
  ghost predicate HasRelated<V>(w: World<V>, r: Relationship<V>, f: Format, table: string, row: Row<V>, out: Out<V>) {
    if f.Format? && r.alias in f.relationships then out == RelationshipOf(w, r, f.relationships[r.alias], table, row)
    else out == RelationshipOf(w, r, NoFormat, table, row)
  }

  lemma {:induction false} RelatedUnder<V>(w: World<V>, rels: seq<Relationship<V>>, f: Format, table: string, row: Row<V>)
    ensures forall name ::
      name in RelatedOf(w, rels, f, table, row) <==> exists i :: 0 <= i < |rels| && rels[i].alias == name
    ensures forall i :: 0 <= i < |rels| && (forall j :: i < j < |rels| ==> rels[j].alias != rels[i].alias) ==>
      HasRelated(w, rels[i], f, table, row, RelatedOf(w, rels, f, table, row)[rels[i].alias])
  {
    hide RelationshipOf;
    if rels != [] {
      var rest := rels[1..];
      RelatedUnder(w, rest, f, table, row);
      forall name ensures name in RelatedOf(w, rels, f, table, row) <==> exists i :: 0 <= i < |rels| && rels[i].alias == name {
        if exists i :: 0 <= i < |rest| && rest[i].alias == name {
          var i :| 0 <= i < |rest| && rest[i].alias == name;
          assert rels[i + 1].alias == name;
        }
        if i :| 0 <= i < |rels| && rels[i].alias == name && i > 0 { assert rest[i - 1].alias == name; }
      }
      forall i | 0 <= i < |rels| && forall j :: i < j < |rels| ==> rels[j].alias != rels[i].alias
        ensures HasRelated(w, rels[i], f, table, row, RelatedOf(w, rels, f, table, row)[rels[i].alias])
      {
        if i > 0 {
          assert rest[i - 1] == rels[i];
        } else {
          assert forall j :: 0 <= j < |rest| ==> rest[j] == rels[j + 1];
        }
      }
    }
  }

  lemma {:induction false} ColumnsUnder<V>(w: World<V>, table: string, row: Row<V>, columns: seq<string>)
    ensures forall name :: name in ColumnsOf(w, table, row, columns) <==> name in columns
    ensures forall name :: name in columns ==> ColumnsOf(w, table, row, columns)[name] == Scalar(row(w.columnName(table, name)))
  {
    if columns != [] {
      ColumnsUnder(w, table, row, columns[1..]);
      assert columns == [columns[0]] + columns[1..];
    }
  }

  lemma RowMeans<V>(w: World<V>, q: Ast<V>, f: Format, row: Row<V>)
    ensures HandsOut(w, q, f, row, ColumnsOf(w, q.table, row, w.columns(q.table)) + RelatedOf(w, q.related, f, q.table, row))
  {
    hide ColumnsOf, RelatedOf, HasRelated;
    ColumnsUnder(w, q.table, row, w.columns(q.table));
    RelatedUnder(w, q.related, f, q.table, row);
  }

  lemma {:induction false} DetailsMean<V>(w: World<V>, q: Ast<V>, f: Format, rows: seq<Row<V>>)
    ensures |Details(w, q, f, rows)| == |rows|
    ensures forall i :: 0 <= i < |rows| ==> HandsOut(w, q, f, rows[i], Details(w, q, f, rows)[i])
    decreases |rows|
  {
    hide ColumnsOf, RelatedOf, HandsOut;
    if rows != [] {
      RowMeans(w, q, f, rows[0]);
      DetailsMean(w, q, f, rows[1..]);
    }
  }

  /** The rows as a list, or, if the format asks for a single row, at most the first one. */
  ghost predicate Hands<V>(w: World<V>, q: Ast<V>, f: Format, rows: seq<Row<V>>, out: Out<V>) {
    if f.Format? && f.singular then
      && out.One? && (out.row.Some? <==> |rows| > 0)
      && (|rows| > 0 ==> HandsOut(w, q, f, rows[0], out.row.value))
    else
      && out.Many? && |out.rows| == |rows|
      && forall i :: 0 <= i < |rows| ==> HandsOut(w, q, f, rows[i], out.rows[i])
  }

  /** The result of a query: what its rows hand out. */
  lemma ResultMeans<V>(w: World<V>, q: Ast<V>, f: Format, link: Option<Link<V>>)
    ensures Hands(w, q, f, Selected(w, q, link), Result(w, q, f, link))
  {
    hide HandsOut, Selected, Details;
    DetailsMean(w, q, f, Selected(w, q, link));
  }

  // ----- relationships

  ghost function Concat<A>(parts: seq<seq<A>>): seq<A> {
    if parts == [] then [] else parts[0] + Concat(parts[1..])
  }

  /** The wanted rows of a query's table, in the order of the table. */
  ghost predicate ListsWanted<V(!new)>(w: World<V>, q: Ast<V>, link: Option<Link<V>>, rows: seq<Row<V>>) {
    exists at :: Places(at, w.tables(w.tableName(q.table)), WantedBy(w, q, link))
              && Gathers(rows, w.tables(w.tableName(q.table)), at)
  }

  lemma {:induction false} FromJoin<V>(w: World<V>, q: Ast<V>, a: seq<Row<V>>, b: seq<Row<V>>)
    ensures From(w, q, a + b) == From(w, q, a) + From(w, q, b)
  {
    if a == [] {
      assert a + b == b;
      assert From(w, q, a) == [];
    } else {
      assert (a + b)[1..] == a[1..] + b;
      FromJoin(w, q, a[1..], b);
    }
  }

  /** Behind the edges: for each of them, in order, the rows that the second hop asks for. */
  lemma {:induction false} ReachedMeans<V(!new)>(w: World<V>, last: Relationship<V>, edgeTable: string, edges: seq<Row<V>>)
    returns (parts: seq<seq<Row<V>>>)
    ensures |parts| == |edges| && Concat(parts) == From(w, last.subquery, Reached(w, last, edgeTable, edges))
    ensures forall i :: 0 <= i < |edges| ==>
      ListsWanted(w, last.subquery, Some(Link(edgeTable, edges[i], last.parentField, last.childField)), parts[i])
    decreases |edges|
  {
    hide Keep, From, Places, Gathers, WantedBy;
    var q := last.subquery;
    if edges == [] {
      parts := [];
      NothingFrom(w, q);
    } else {
      var link := Some(Link(edgeTable, edges[0], last.parentField, last.childField));
      var rows := w.tables(w.tableName(q.table));
      var first := Keep(w, q.where, link, q.table, rows);
      var at := KeptMeans(w, q, link, rows);
      var rest := ReachedMeans(w, last, edgeTable, edges[1..]);
      FromJoin(w, q, first, Reached(w, last, edgeTable, edges[1..]));
      parts := [From(w, q, first)] + rest;
      assert parts[1..] == rest;
      forall i | 0 <= i < |edges|
        ensures ListsWanted(w, q, Some(Link(edgeTable, edges[i], last.parentField, last.childField)), parts[i])
      {
        if i > 0 { assert edges[i] == edges[1..][i - 1] && parts[i] == rest[i - 1]; }
      }
    }
  }

  lemma NothingFrom<V>(w: World<V>, q: Ast<V>)
    ensures From(w, q, []) == [] && Concat<Row<V>>([]) == []
  {
  }

  /** A limit on the edges takes them in their own order; otherwise they come in the order of their table. */
  lemma EdgesMean<V(!new)>(w: World<V>, q: Ast<V>, link: Link<V>)
    ensures q.limit.None? ==> ListsWanted(w, q, Some(link), Edges(w, q, Some(link)))
    ensures q.limit.Some? ==> Edges(w, q, Some(link)) == Selected(w, q, Some(link))
  {
    hide Keep, From, Places, Gathers, WantedBy, InOrder, Take;
    var at := KeptMeans(w, q, Some(link), w.tables(w.tableName(q.table)));
  }

  /** A relationship that is no junction edge has the result of its query. */
  lemma DirectMeans<V>(w: World<V>, r: Relationship<V>, f: Format, table: string, row: Row<V>)
    requires !r.hidden || r.subquery.related == []
    ensures Hands(w, r.subquery, f, Selected(w, r.subquery, Some(Link(table, row, r.parentField, r.childField))),
                  RelationshipOf(w, r, f, table, row))
  {
    hide Hands, Selected;
    ResultMeans(w, r.subquery, f, Some(Link(table, row, r.parentField, r.childField)));
  }

  /** A junction edge has what the rows behind its edges hand out, ordered and cut as the query behind it says. */
  lemma JunctionMeans<V(!new)>(w: World<V>, r: Relationship<V>, f: Format, table: string, row: Row<V>)
    returns (edges: seq<Row<V>>, parts: seq<seq<Row<V>>>, order: seq<nat>, ordered: seq<Row<V>>, rows: seq<Row<V>>)
    requires r.hidden && r.subquery.related != [] && Arranges(w)
    ensures edges == Edges(w, r.subquery, Some(Link(table, row, r.parentField, r.childField)))
    ensures var last := r.subquery.related[0];
      && |parts| == |edges|
      && (forall i :: 0 <= i < |edges| ==>
            ListsWanted(w, last.subquery, Some(Link(r.subquery.table, edges[i], last.parentField, last.childField)), parts[i]))
      && Arranged(w, last.subquery.orderBy, last.subquery.table, Concat(parts), order)
      && Gathers(ordered, Concat(parts), order) && Cut(rows, ordered, last.subquery.limit)
      && Hands(w, last.subquery, f, rows, RelationshipOf(w, r, f, table, row))
  {
    hide HandsOut, Details, Edges, Reached, From, InOrder, Arranged, Arranges, ListsWanted, Gathers, Concat;
    var last := r.subquery.related[0];
    var q := last.subquery;
    edges := Edges(w, r.subquery, Some(Link(table, row, r.parentField, r.childField)));
    parts := ReachedMeans(w, last, r.subquery.table, edges);
    order := InOrderMeans(w, q.orderBy, q.table, Concat(parts));
    ordered := InOrder(w, q.orderBy, q.table, Concat(parts));
    rows := Take(ordered, q.limit);
    DetailsMean(w, q, f, rows);
  }
}
