/** What names are mapped to, read off the schema. */
module MappedNames {
  import opened Wrappers
  import opened Zql
  import opened AstTransform
  import opened NameMapper

  // ----- single names

  /** The name `b` is the server name of what the client calls `a`. */
  ghost predicate ServerNameIs(serverName: Option<string>, a: string, b: string) {
    serverName == Some(b) || (serverName == None && b == a)
  }

  /** No two tables, and no two columns of a table, have the same name in the client. */
  ghost predicate ClientDistinct(tables: seq<(string, TableSchema)>) {
    && (forall i, j :: 0 <= i < j < |tables| ==> tables[i].0 != tables[j].0)
    && (forall i :: 0 <= i < |tables| ==> ClientColumnsDistinct(tables[i].1.columns))
  }

  ghost predicate ClientColumnsDistinct(columns: seq<(string, Option<string>)>) {
    forall i, j :: 0 <= i < j < |columns| ==> columns[i].0 != columns[j].0
  }

  /** The same on the server. */
  ghost predicate ServerDistinct(tables: seq<(string, TableSchema)>) {
    && (forall i, j, x :: 0 <= i < j < |tables| && ServerNameIs(tables[i].1.serverName, tables[i].0, x) ==>
          !ServerNameIs(tables[j].1.serverName, tables[j].0, x))
    && (forall i :: 0 <= i < |tables| ==> ServerColumnsDistinct(tables[i].1.columns))
  }

  ghost predicate ServerColumnsDistinct(columns: seq<(string, Option<string>)>) {
    forall i, j, x :: 0 <= i < j < |columns| && ServerNameIs(columns[i].1, columns[i].0, x) ==>
      !ServerNameIs(columns[j].1, columns[j].0, x)
  }

  lemma {:induction false} ClientEntry(tables: seq<(string, TableSchema)>, i: nat)
    requires ClientDistinct(tables) && i < |tables|
    ensures tables[i].0 in MapperOf(true, tables)
    ensures MapperOf(true, tables)[tables[i].0] == NamesOf(true, tables[i].0, tables[i].1)
  {
    hide ColumnsMap, AllSame, NamesOf, ClientColumnsDistinct;
    var n := |tables| - 1;
    if i < n { ClientEntry(tables[..n], i); }
  }

  lemma {:induction false} ClientColumnEntry(columns: seq<(string, Option<string>)>, k: nat, x: string)
    requires ClientColumnsDistinct(columns) && k < |columns| && ServerNameIs(columns[k].1, columns[k].0, x)
    ensures columns[k].0 in ColumnsMap(true, columns) && ColumnsMap(true, columns)[columns[k].0] == x
  {
    var n := |columns| - 1;
    if k < n { ClientColumnEntry(columns[..n], k, x); }
  }

  lemma {:induction false} ServerEntry(tables: seq<(string, TableSchema)>, i: nat, x: string)
    requires ServerDistinct(tables) && i < |tables| && ServerNameIs(tables[i].1.serverName, tables[i].0, x)
    ensures x in MapperOf(false, tables) && MapperOf(false, tables)[x] == NamesOf(false, tables[i].0, tables[i].1)
  {
    hide ColumnsMap, AllSame, NamesOf, ServerColumnsDistinct;
    var n := |tables| - 1;
    if i < n {
      ServerEntry(tables[..n], i, x);
      assert !ServerNameIs(tables[n].1.serverName, tables[n].0, x);
    }
  }

  lemma {:induction false} ServerColumnEntry(columns: seq<(string, Option<string>)>, k: nat, x: string)
    requires ServerColumnsDistinct(columns) && k < |columns| && ServerNameIs(columns[k].1, columns[k].0, x)
    ensures x in ColumnsMap(false, columns) && ColumnsMap(false, columns)[x] == columns[k].0
  {
    var n := |columns| - 1;
    if k < n {
      ServerColumnEntry(columns[..n], k, x);
      assert !ServerNameIs(columns[n].1, columns[n].0, x);
    }
  }

  /** From the client: a table has its server name, and each column has its own; an empty name is refused for a column. */
  lemma ClientToServer(tables: seq<(string, TableSchema)>, i: nat, k: nat)
    requires ClientDistinct(tables) && i < |tables|
    ensures var (name, schema) := tables[i];
      TableName(MapperOf(true, tables), name) == if schema.serverName.Some? then schema.serverName else Some(name)
    ensures k < |tables[i].1.columns| ==>
      var (column, server) := tables[i].1.columns[k];
      var mapped := if server.Some? then server else Some(column);
      ColumnName(MapperOf(true, tables), tables[i].0, column) == if mapped == Some("") then None else mapped
  {
    hide ColumnsMap, AllSame, MapperOf, ClientColumnsDistinct;
    ClientEntry(tables, i);
    if k < |tables[i].1.columns| {
      var (column, server) := tables[i].1.columns[k];
      ClientColumnEntry(tables[i].1.columns, k, if server.Some? then server.value else column);
    }
  }

  /** From the server: what is called `x` there has its client name again. */
  lemma ServerToClient(tables: seq<(string, TableSchema)>, i: nat, x: string, k: nat, y: string)
    requires ServerDistinct(tables) && i < |tables| && ServerNameIs(tables[i].1.serverName, tables[i].0, x)
    ensures TableName(MapperOf(false, tables), x) == Some(tables[i].0)
    ensures k < |tables[i].1.columns| && ServerNameIs(tables[i].1.columns[k].1, tables[i].1.columns[k].0, y) ==>
      ColumnName(MapperOf(false, tables), x, y) == if tables[i].1.columns[k].0 == "" then None else Some(tables[i].1.columns[k].0)
  {
    hide ColumnsMap, AllSame, MapperOf, ServerColumnsDistinct;
    ServerEntry(tables, i, x);
    if k < |tables[i].1.columns| && ServerNameIs(tables[i].1.columns[k].1, tables[i].1.columns[k].0, y) {
      ServerColumnEntry(tables[i].1.columns, k, y);
    }
  }

  lemma {:induction false} SomeTable(client: bool, tables: seq<(string, TableSchema)>, x: string) returns (i: nat)
    requires x in MapperOf(client, tables)
    ensures i < |tables| && if client then tables[i].0 == x else ServerNameIs(tables[i].1.serverName, tables[i].0, x)
  {
    hide NamesOf;
    var n := |tables| - 1;
    if (client && tables[n].0 == x) || (!client && ServerNameIs(tables[n].1.serverName, tables[n].0, x)) {
      i := n;
    } else {
      i := SomeTable(client, tables[..n], x);
    }
  }

  lemma {:induction false} SomeColumn(client: bool, columns: seq<(string, Option<string>)>, x: string) returns (k: nat)
    requires x in ColumnsMap(client, columns)
    ensures k < |columns| && if client then columns[k].0 == x else ServerNameIs(columns[k].1, columns[k].0, x)
  {
    var n := |columns| - 1;
    if (client && columns[n].0 == x) || (!client && ServerNameIs(columns[n].1, columns[n].0, x)) {
      k := n;
    } else {
      k := SomeColumn(client, columns[..n], x);
    }
  }

  // ----- names in queries

  /** The client's table `a` is called `b` on the server. */
  ghost predicate TableIs(tables: seq<(string, TableSchema)>, a: string, b: string) {
    exists i :: 0 <= i < |tables| && tables[i].0 == a && ServerNameIs(tables[i].1.serverName, a, b)
  }

  /** The column `a` of the client's table is called `b` on the server; an empty name does not count. */
  ghost predicate ColumnIs(tables: seq<(string, TableSchema)>, table: string, a: string, b: string) {
    b != "" && exists i :: 0 <= i < |tables| && tables[i].0 == table && HasColumn(tables[i].1.columns, a, b)
  }

  ghost predicate HasColumn(columns: seq<(string, Option<string>)>, a: string, b: string) {
    exists k :: 0 <= k < |columns| && columns[k].0 == a && ServerNameIs(columns[k].1, a, b)
  }

  /** The query `r` is the query `q` with every name of a table or column replaced by its server name, at every depth. */
  ghost predicate Mapped<V>(tables: seq<(string, TableSchema)>, q: Ast<V>, r: Ast<V>)
    decreases q, 1
  {
    && TableIs(tables, q.table, r.table) && r.limit == q.limit
    && (q.where.Some? <==> r.where.Some?) && (q.where.Some? ==> MappedCondition(tables, q.table, q.where.value, r.where.value))
    && |q.related| == |r.related|
    && (forall i :: 0 <= i < |q.related| ==> MappedRelationship(tables, q.table, q.related[i], r.related[i]))
    && (q.start.Some? <==> r.start.Some?)
    && (q.start.Some? ==>
          q.start.value.exclusive == r.start.value.exclusive && MappedPairs(tables, q.table, q.start.value.row, r.start.value.row))
    && (q.orderBy.Some? <==> r.orderBy.Some?)
    && (q.orderBy.Some? ==> MappedPairs(tables, q.table, q.orderBy.value, r.orderBy.value))
  }

  ghost predicate MappedPairs<A>(tables: seq<(string, TableSchema)>, table: string, a: seq<(string, A)>, b: seq<(string, A)>) {
    |a| == |b| && forall i :: 0 <= i < |a| ==> ColumnIs(tables, table, a[i].0, b[i].0) && a[i].1 == b[i].1
  }

  ghost predicate MappedColumns(tables: seq<(string, TableSchema)>, table: string, a: seq<string>, b: seq<string>) {
    |a| == |b| && forall i :: 0 <= i < |a| ==> ColumnIs(tables, table, a[i], b[i])
  }

  ghost predicate MappedCondition<V>(tables: seq<(string, TableSchema)>, table: string, c: Condition<V>, d: Condition<V>)
    decreases c, 0
  {
    match c
    case Simple(op, left, right) =>
      && d.Simple? && d.op == op && d.right == right
      && (if left.Column? then d.left.Column? && ColumnIs(tables, table, left.name, d.left.name) else d.left == left)
    case And(cs) =>
      d.And? && |d.conditions| == |cs| && forall i :: 0 <= i < |cs| ==> MappedCondition(tables, table, cs[i], d.conditions[i])
    case Or(cs) =>
      d.Or? && |d.conditions| == |cs| && forall i :: 0 <= i < |cs| ==> MappedCondition(tables, table, cs[i], d.conditions[i])
    case Exists(negated, rel) =>
      d.Exists? && d.negated == negated && MappedRelationship(tables, table, rel, d.related)
  }

  ghost predicate MappedRelationship<V>(tables: seq<(string, TableSchema)>, table: string, r: Relationship<V>, s: Relationship<V>)
    decreases r, 0
  {
    && s.alias == r.alias && s.hidden == r.hidden
    && TableIsThere(tables, table) && TableIsThere(tables, r.subquery.table)
    && MappedColumns(tables, table, r.parentField, s.parentField)
    && MappedColumns(tables, r.subquery.table, r.childField, s.childField)
    && Mapped(tables, r.subquery, s.subquery)
  }

  ghost predicate TableIsThere(tables: seq<(string, TableSchema)>, a: string) {
    exists i :: 0 <= i < |tables| && tables[i].0 == a
  }

  lemma TableMaps<V>(tables: seq<(string, TableSchema)>, a: string, b: string)
    requires ClientDistinct(tables)
    ensures TableIs(tables, a, b) <==> a in MapperOf(true, tables) && b == There<V>(tables).tableName(a)
    ensures TableIsThere(tables, a) <==> a in MapperOf(true, tables)
  {
    hide ColumnsMap, AllSame, MapperOf, ClientColumnsDistinct;
    if i :| 0 <= i < |tables| && tables[i].0 == a {
      ClientEntry(tables, i);
    }
    if a in MapperOf(true, tables) {
      var i := SomeTable(true, tables, a);
      ClientEntry(tables, i);
    }
  }

  lemma ColumnMaps<V>(tables: seq<(string, TableSchema)>, table: string, a: string, b: string)
    requires ClientDistinct(tables)
    ensures ColumnIs(tables, table, a, b) <==>
      KnownColumn(MapperOf(true, tables), table, a) && b == There<V>(tables).columnName(table, a)
  {
    hide ColumnsMap, AllSame, MapperOf, ClientColumnsDistinct;
    if ColumnIs(tables, table, a, b) {
      var i :| 0 <= i < |tables| && tables[i].0 == table && HasColumn(tables[i].1.columns, a, b);
      var k :| 0 <= k < |tables[i].1.columns| && tables[i].1.columns[k].0 == a && ServerNameIs(tables[i].1.columns[k].1, a, b);
      ClientToServer(tables, i, k);
    }
    if KnownColumn(MapperOf(true, tables), table, a) {
      var i := SomeTable(true, tables, table);
      ClientEntry(tables, i);
      var k := SomeColumn(true, tables[i].1.columns, a);
      ClientToServer(tables, i, k);
      assert ServerNameIs(tables[i].1.columns[k].1, a, ColumnName(MapperOf(true, tables), table, a).value);
      assert HasColumn(tables[i].1.columns, a, ColumnName(MapperOf(true, tables), table, a).value);
    }
  }

  lemma PairsMap<V, A>(tables: seq<(string, TableSchema)>, table: string, a: seq<(string, A)>, b: seq<(string, A)>)
    requires ClientDistinct(tables)
    ensures MappedPairs(tables, table, a, b) <==>
      (forall i :: 0 <= i < |a| ==> KnownColumn(MapperOf(true, tables), table, a[i].0)) && b == RenamedPairs(There<V>(tables), table, a)
  {
    hide ColumnIs, KnownColumn, There, ClientDistinct;
    if |a| == |b| {
      forall i | 0 <= i < |a|
        ensures ColumnIs(tables, table, a[i].0, b[i].0) <==>
          KnownColumn(MapperOf(true, tables), table, a[i].0) && b[i].0 == There<V>(tables).columnName(table, a[i].0)
      {
        ColumnMaps<V>(tables, table, a[i].0, b[i].0);
      }
    }
  }

  lemma ColumnsMapTo<V>(tables: seq<(string, TableSchema)>, table: string, a: seq<string>, b: seq<string>)
    requires ClientDistinct(tables)
    ensures MappedColumns(tables, table, a, b) && TableIsThere(tables, table) <==>
      AllKnown(MapperOf(true, tables), table, a) && b == Renamed(There<V>(tables), table, a)
  {
    hide ColumnIs, KnownColumn, There, ClientDistinct, TableIsThere;
    TableMaps<V>(tables, table, "");
    if |a| == |b| {
      forall i | 0 <= i < |a|
        ensures ColumnIs(tables, table, a[i], b[i]) <==>
          KnownColumn(MapperOf(true, tables), table, a[i]) && b[i] == There<V>(tables).columnName(table, a[i])
      {
        ColumnMaps<V>(tables, table, a[i], b[i]);
      }
    }
  }

  lemma {:induction false} ConditionMaps<V(!new)>(tables: seq<(string, TableSchema)>, table: string, c: Condition<V>, d: Condition<V>)
    requires ClientDistinct(tables) && Shrinking(There<V>(tables))
    ensures MappedCondition(tables, table, c, d) <==>
      KnownCondition(MapperOf(true, tables), table, c) && d == TransformWhere(c, table, There(tables))
    decreases c, 0
  {
    hide ColumnIs, KnownColumn, MapperOf, ClientDistinct, Shrinking, TransformConditions, TransformRelationship,
         KnownConditions, KnownRelationship, MappedRelationship;
    match c
    case Simple(_, left, _) =>
      if left.Column? {
        ColumnMaps<V>(tables, table, left.name, if d.Simple? && d.left.Column? then d.left.name else "");
      }
    case And(cs) =>
      if d.And? { ConditionsMap(tables, table, cs, d.conditions); }
    case Or(cs) =>
      if d.Or? { ConditionsMap(tables, table, cs, d.conditions); }
    case Exists(_, rel) =>
      if d.Exists? { RelationshipMaps(tables, table, rel, d.related); }
  }

  lemma {:induction false} ConditionsMap<V(!new)>(tables: seq<(string, TableSchema)>, table: string, cs: seq<Condition<V>>,
                                                  ds: seq<Condition<V>>)
    requires ClientDistinct(tables) && Shrinking(There<V>(tables))
    ensures (|ds| == |cs| && forall i :: 0 <= i < |cs| ==> MappedCondition(tables, table, cs[i], ds[i])) <==>
      KnownConditions(MapperOf(true, tables), table, cs) && ds == TransformConditions(cs, table, There(tables))
    decreases cs, 0
  {
    hide MapperOf, ClientDistinct, Shrinking, There, TransformWhere, KnownCondition, MappedCondition;
    if cs != [] && ds != [] {
      ConditionMaps(tables, table, cs[0], ds[0]);
      ConditionsMap(tables, table, cs[1..], ds[1..]);
      assert ds == [ds[0]] + ds[1..];
      if |ds| == |cs| {
        assert (forall i :: 0 <= i < |cs| ==> MappedCondition(tables, table, cs[i], ds[i])) <==>
          MappedCondition(tables, table, cs[0], ds[0])
          && forall i :: 0 <= i < |cs[1..]| ==> MappedCondition(tables, table, cs[1..][i], ds[1..][i])
        by {
          if MappedCondition(tables, table, cs[0], ds[0])
             && forall i :: 0 <= i < |cs[1..]| ==> MappedCondition(tables, table, cs[1..][i], ds[1..][i]) {
            forall i | 0 <= i < |cs| ensures MappedCondition(tables, table, cs[i], ds[i]) {
              if i > 0 { assert cs[i] == cs[1..][i - 1] && ds[i] == ds[1..][i - 1]; }
            }
          }
        }
      }
    }
  }

  lemma {:induction false} RelatedMaps<V(!new)>(tables: seq<(string, TableSchema)>, table: string, rs: seq<Relationship<V>>,
                                                ss: seq<Relationship<V>>)
    requires ClientDistinct(tables) && Shrinking(There<V>(tables))
    ensures (|ss| == |rs| && forall i :: 0 <= i < |rs| ==> MappedRelationship(tables, table, rs[i], ss[i])) <==>
      KnownRelated(MapperOf(true, tables), table, rs) && ss == TransformRelated(rs, table, There(tables))
    decreases rs, 0
  {
    hide MapperOf, ClientDistinct, Shrinking, There, TransformRelationship, KnownRelationship, MappedRelationship;
    if rs != [] && ss != [] {
      RelationshipMaps(tables, table, rs[0], ss[0]);
      RelatedMaps(tables, table, rs[1..], ss[1..]);
      assert ss == [ss[0]] + ss[1..];
      if |ss| == |rs| {
        assert (forall i :: 0 <= i < |rs| ==> MappedRelationship(tables, table, rs[i], ss[i])) <==>
          MappedRelationship(tables, table, rs[0], ss[0])
          && forall i :: 0 <= i < |rs[1..]| ==> MappedRelationship(tables, table, rs[1..][i], ss[1..][i])
        by {
          if MappedRelationship(tables, table, rs[0], ss[0])
             && forall i :: 0 <= i < |rs[1..]| ==> MappedRelationship(tables, table, rs[1..][i], ss[1..][i]) {
            forall i | 0 <= i < |rs| ensures MappedRelationship(tables, table, rs[i], ss[i]) {
              if i > 0 { assert rs[i] == rs[1..][i - 1] && ss[i] == ss[1..][i - 1]; }
            }
          }
        }
      }
    }
  }

  lemma {:induction false} RelationshipMaps<V(!new)>(tables: seq<(string, TableSchema)>, table: string, r: Relationship<V>,
                                                     s: Relationship<V>)
    requires ClientDistinct(tables) && Shrinking(There<V>(tables))
    ensures MappedRelationship(tables, table, r, s) <==>
      KnownRelationship(MapperOf(true, tables), table, r) && s == TransformRelationship(r, table, There(tables))
    decreases r, 0
  {
    hide MapperOf, ClientDistinct, Shrinking, There, TransformAst, Known, Mapped, AllKnown, MappedColumns,
         TableIsThere;
    ColumnsMapTo<V>(tables, table, r.parentField, s.parentField);
    ColumnsMapTo<V>(tables, r.subquery.table, r.childField, s.childField);
    QueryMaps(tables, r.subquery, s.subquery);
  }

  /** Renaming a query is replacing all its names by the server names, and works exactly if there is one for each. */
  lemma {:induction false} QueryMaps<V(!new)>(tables: seq<(string, TableSchema)>, q: Ast<V>, r: Ast<V>)
    requires ClientDistinct(tables) && Shrinking(There<V>(tables))
    ensures Mapped(tables, q, r) <==> Known(MapperOf(true, tables), q) && r == TransformAst(q, There(tables))
    decreases q, 1
  {
    hide MapperOf, ClientDistinct, Shrinking, TransformWhere, TransformRelated, KnownCondition, KnownRelated,
         MappedCondition, MappedRelationship, MappedPairs, TableIs, KnownColumn;
    TableMaps<V>(tables, q.table, r.table);
    RelatedMaps(tables, q.table, q.related, r.related);
    if q.where.Some? && r.where.Some? { ConditionMaps(tables, q.table, q.where.value, r.where.value); }
    if q.start.Some? && r.start.Some? { PairsMap<V, V>(tables, q.table, q.start.value.row, r.start.value.row); }
    if q.orderBy.Some? && r.orderBy.Some? { PairsMap<V, bool>(tables, q.table, q.orderBy.value, r.orderBy.value); }
  }

  /** `mapAST` from the client to the server. */
  lemma MapAstMaps<V(!new)>(tables: seq<(string, TableSchema)>, q: Ast<V>, r: Ast<V>)
    requires ClientDistinct(tables)
    ensures MapAst(q, MapperOf(true, tables)) == Some(r) <==> Mapped(tables, q, r)
  {
    hide MapperOf, ClientDistinct, TransformAst, Known, Mapped;
    RenamingShrinks<V>(MapperOf(true, tables));
    QueryMaps(tables, q, r);
  }
}
