/** Renaming queries between client and server names. */
module NameMapper {
  import opened Wrappers
  import opened Zql
  import opened AstTransform

  datatype TableSchema = TableSchema(serverName: Option<string>, columns: seq<(string, Option<string>)>)

  datatype DestNames = DestNames(tableName: string, columns: map<string, string>, allColumnsSame: bool)

  function OrElse(serverName: Option<string>, name: string): string {
    if serverName.Some? then serverName.value else name
  }

  // ----- mappers

  /** The names of one table's columns, from client to server or back. */
  function ColumnsMap(client: bool, columns: seq<(string, Option<string>)>): map<string, string> {
    if columns == [] then map[] else
      var (name, serverName) := columns[|columns| - 1];
      var server := OrElse(serverName, name);
      ColumnsMap(client, columns[..|columns| - 1])[if client then name else server := if client then server else name]
  }

  /** An empty server name counts as none here. */
  predicate AllSame(columns: seq<(string, Option<string>)>) {
    forall i :: 0 <= i < |columns| ==>
      columns[i].1.None? || columns[i].1.value == "" || columns[i].1.value == columns[i].0
  }

  function NamesOf(client: bool, name: string, schema: TableSchema): DestNames {
    DestNames(if client then OrElse(schema.serverName, name) else name, ColumnsMap(client, schema.columns), AllSame(schema.columns))
  }

  function MapperOf(client: bool, tables: seq<(string, TableSchema)>): map<string, DestNames> {
    if tables == [] then map[] else
      var (name, schema) := tables[|tables| - 1];
      MapperOf(client, tables[..|tables| - 1])
        [if client then name else OrElse(schema.serverName, name) := NamesOf(client, name, schema)]
  }

  /** `createMapperFrom` */
  method CreateMapperFrom(client: bool, tables: seq<(string, TableSchema)>) returns (mapping: map<string, DestNames>)
    ensures mapping == MapperOf(client, tables)
  {
    mapping := map[];
    for t := 0 to |tables|
      invariant mapping == MapperOf(client, tables[..t])
    {
      var (tableName, schema) := tables[t];
      var allColumnsSame := true;
      var names: map<string, string> := map[];
      for i := 0 to |schema.columns|
        invariant names == ColumnsMap(client, schema.columns[..i]) && allColumnsSame == AllSame(schema.columns[..i])
      {
        var (name, serverName) := schema.columns[i];
        assert schema.columns[..i + 1][..i] == schema.columns[..i];
        if serverName.Some? && serverName.value != "" && serverName.value != name {
          allColumnsSame := false;
        }
        if client {
          names := names[name := OrElse(serverName, name)];
        } else {
          names := names[OrElse(serverName, name) := name];
        }
      }
      assert schema.columns[..|schema.columns|] == schema.columns;
      assert tables[..t + 1][..t] == tables[..t];
      mapping := mapping[if client then tableName else OrElse(schema.serverName, tableName) :=
        DestNames(if client then OrElse(schema.serverName, tableName) else tableName, names, allColumnsSame)];
    }
    assert tables[..|tables|] == tables;
  }

  /** `tableName`; None stands for the exception about an unknown table. */
  function TableName(m: map<string, DestNames>, src: string): Option<string> {
    if src in m then Some(m[src].tableName) else None
  }

  /** `columnName`; an empty name counts as unknown. */
  function ColumnName(m: map<string, DestNames>, table: string, src: string): Option<string> {
    if table in m && src in m[table].columns && m[table].columns[src] != "" then Some(m[table].columns[src]) else None
  }

  function Through(columns: map<string, string>, col: string): string {
    if col in columns then columns[col] else col
  }

  /** `columns`: unknown names pass through. */
  function Columns(m: map<string, DestNames>, table: string, cols: seq<string>): (r: Option<seq<string>>)
    ensures r.None? <==> table !in m
    ensures r.Some? ==> |r.value| == |cols| && forall i :: 0 <= i < |cols| ==>
      r.value[i] == if !m[table].allColumnsSame && cols[i] in m[table].columns then m[table].columns[cols[i]] else cols[i]
  {
    if table !in m then None
    else if m[table].allColumnsSame then Some(cols)
    else Some(ColumnsThrough(m[table].columns, cols))
  }

  /** `row`, on the entries of a row in their order. */
  method MapRow<V>(m: map<string, DestNames>, table: string, row: seq<(string, V)>) returns (r: Option<map<string, V>>)
    ensures r.None? <==> table !in m
    ensures r.Some? ==> r.value == if m[table].allColumnsSame then RowOf(row) else RowThrough(m[table].columns, row)
    ensures r.Some? ==> IsRow(if m[table].allColumnsSame then map[] else m[table].columns, row, r.value)
  {
    RowOfIsRow(row);
    if table in m { ThroughIsRow(m[table].columns, row); }
    if table !in m {
      return None;
    }
    if m[table].allColumnsSame {
      return Some(RowOf(row));
    }
    var clientRow: map<string, V> := map[];
    for i := 0 to |row|
      invariant clientRow == RowThrough(m[table].columns, row[..i])
    {
      assert row[..i + 1][..i] == row[..i];
      clientRow := clientRow[Through(m[table].columns, row[i].0) := row[i].1];
    }
    assert row[..|row|] == row;
    return Some(clientRow);
  }

  /**
   The row has each of the values under the new name of its column, or under its own name if there is none; of several with
   one name, the last.
   */
  ghost predicate IsRow<V>(columns: map<string, string>, row: seq<(string, V)>, r: map<string, V>) {
    && (forall name :: name in r ==> exists i :: 0 <= i < |row| && IsNamed(columns, row[i].0, name))
    && (forall i, name :: 0 <= i < |row| && IsNamed(columns, row[i].0, name) && IsLastNamed(columns, row, i, name) ==>
          name in r && r[name] == row[i].1)
  }

  ghost predicate IsLastNamed<V>(columns: map<string, string>, row: seq<(string, V)>, i: nat, name: string) {
    forall j :: i < j < |row| ==> !IsNamed(columns, row[j].0, name)
  }

  ghost predicate IsNamed(columns: map<string, string>, col: string, name: string) {
    if col in columns then name == columns[col] else name == col
  }

  lemma {:induction false} ThroughIsRow<V>(columns: map<string, string>, row: seq<(string, V)>)
    ensures IsRow(columns, row, RowThrough(columns, row))
  {
    if row != [] {
      var n := |row| - 1;
      ThroughIsRow(columns, row[..n]);
      var before, r := RowThrough(columns, row[..n]), RowThrough(columns, row);
      forall name | name in r ensures exists i :: 0 <= i < |row| && IsNamed(columns, row[i].0, name) {
        if IsNamed(columns, row[n].0, name) {
        } else {
          var i :| 0 <= i < n && IsNamed(columns, row[..n][i].0, name);
          assert IsNamed(columns, row[i].0, name);
        }
      }
      forall i, name | 0 <= i < |row| && IsNamed(columns, row[i].0, name) && IsLastNamed(columns, row, i, name)
        ensures name in r && r[name] == row[i].1
      {
        if i < n {
          assert !IsNamed(columns, row[n].0, name) && row[..n][i] == row[i];
          assert forall j :: i < j < n ==> row[..n][j] == row[j];
        }
      }
    }
  }

  lemma {:induction false} RowOfIsRow<V>(row: seq<(string, V)>)
    ensures IsRow(map[], row, RowOf(row))
  {
    RowSame(map[], row);
    ThroughIsRow(map[], row);
  }

  function RowOf<V>(row: seq<(string, V)>): map<string, V> {
    if row == [] then map[] else RowOf(row[..|row| - 1])[row[|row| - 1].0 := row[|row| - 1].1]
  }

  function RowThrough<V>(columns: map<string, string>, row: seq<(string, V)>): map<string, V> {
    if row == [] then map[] else
      RowThrough(columns, row[..|row| - 1])[Through(columns, row[|row| - 1].0) := row[|row| - 1].1]
  }

  // ----- the shortcut for tables without renamed columns

  predicate DistinctNames(columns: seq<(string, Option<string>)>) {
    forall i, j :: 0 <= i < j < |columns| ==> columns[i].0 != columns[j].0
  }

  /** A server name that is empty, but is not the column's own name. */
  predicate EmptyAlias(columns: seq<(string, Option<string>)>, i: nat)
    requires i < |columns|
  {
    columns[i].1 == Some("") && columns[i].0 != ""
  }

  /** From the client, no column is renamed to nothing; from the server, nothing is not the name of another column. */
  predicate NothingRenamed(client: bool, columns: seq<(string, Option<string>)>) {
    forall i :: 0 <= i < |columns| && EmptyAlias(columns, i) ==> !client && exists j :: i < j < |columns| && columns[j].0 == ""
  }

  /** The name that a column that nobody calls is looked up under stays as it is. */
  lemma {:induction false} OtherColumns(client: bool, columns: seq<(string, Option<string>)>, c: string)
    requires AllSame(columns) && DistinctNames(columns)
    requires if client then forall i :: 0 <= i < |columns| && columns[i].0 == c ==> columns[i].1 != Some("") || c == "" else c != ""
    ensures Through(ColumnsMap(client, columns), c) == c
  {
    if columns != [] { OtherColumns(client, columns[..|columns| - 1], c); }
  }

  /** From the client, a column with an empty server name is renamed to nothing. */
  lemma {:induction false} RenamedToNothing(columns: seq<(string, Option<string>)>, i: nat)
    requires AllSame(columns) && DistinctNames(columns) && i < |columns| && columns[i].1 == Some("")
    ensures Through(ColumnsMap(true, columns), columns[i].0) == ""
  {
    var n := |columns| - 1;
    if i < n { RenamedToNothing(columns[..n], i); }
  }

  /** Whether the last column is called nothing, or is an alias of nothing, decides; any other column does not matter. */
  lemma LastDecides(columns: seq<(string, Option<string>)>)
    requires columns != []
    ensures var (n, (name, serverName)) := (|columns| - 1, columns[|columns| - 1]);
      NothingRenamed(false, columns)
      <==> name == "" || (serverName != Some("") && NothingRenamed(false, columns[..n]))
  {
    var n := |columns| - 1;
    var before := columns[..n];
    if columns[n].0 == "" {
    } else if columns[n].1 == Some("") {
      assert EmptyAlias(columns, n);
    } else {
      LastIsAnother(columns);
    }
  }

  lemma LastIsAnother(columns: seq<(string, Option<string>)>)
    requires columns != [] && columns[|columns| - 1].0 != "" && columns[|columns| - 1].1 != Some("")
    ensures NothingRenamed(false, columns) <==> NothingRenamed(false, columns[..|columns| - 1])
  {
    var n := |columns| - 1;
    var before := columns[..n];
    assert !EmptyAlias(columns, n);
    assert forall i :: 0 <= i < n ==> EmptyAlias(before, i) == EmptyAlias(columns, i) && before[i] == columns[i];
    if NothingRenamed(false, columns) {
      forall i | 0 <= i < n && EmptyAlias(before, i) ensures exists j :: i < j < n && before[j].0 == "" {
        assert EmptyAlias(columns, i);
        var j :| i < j < |columns| && columns[j].0 == "";
        assert before[j].0 == "";
      }
    }
    if NothingRenamed(false, before) {
      forall i | 0 <= i < |columns| && EmptyAlias(columns, i) ensures exists j :: i < j < |columns| && columns[j].0 == "" {
        assert EmptyAlias(before, i);
        var j :| i < j < n && before[j].0 == "";
        assert columns[j].0 == "";
      }
    }
  }

  /** From the server, nothing is the name of the last column that is called so. */
  lemma {:induction false} NothingIsRenamed(columns: seq<(string, Option<string>)>)
    requires AllSame(columns)
    ensures Through(ColumnsMap(false, columns), "") == "" <==> NothingRenamed(false, columns)
  {
    hide NothingRenamed;
    if columns == [] {
      NoColumns();
    } else {
      var n := |columns| - 1;
      NothingIsRenamed(columns[..n]);
      LastDecides(columns);
    }
  }

  lemma NoColumns()
    ensures NothingRenamed(false, [])
  {
  }

  /** Where no column counts as renamed, the map changes no name exactly if no empty server name gets in the way. */
  lemma SameColumnsExactly(client: bool, columns: seq<(string, Option<string>)>)
    requires AllSame(columns) && DistinctNames(columns)
    ensures (forall c :: Through(ColumnsMap(client, columns), c) == c) <==> NothingRenamed(client, columns)
  {
    if client {
      if NothingRenamed(client, columns) {
        forall c ensures Through(ColumnsMap(client, columns), c) == c {
          assert forall i :: 0 <= i < |columns| && columns[i].0 == c && c != "" ==> !EmptyAlias(columns, i);
          OtherColumns(client, columns, c);
        }
      } else {
        var i :| 0 <= i < |columns| && EmptyAlias(columns, i);
        RenamedToNothing(columns, i);
      }
    } else {
      NothingIsRenamed(columns);
      forall c | c != "" ensures Through(ColumnsMap(client, columns), c) == c {
        OtherColumns(client, columns, c);
      }
    }
  }

  lemma {:induction false} RowSame<V>(columns: map<string, string>, row: seq<(string, V)>)
    requires forall c :: Through(columns, c) == c
    ensures RowThrough(columns, row) == RowOf(row)
  {
    if row != [] { RowSame(columns, row[..|row| - 1]); }
  }

  lemma OneEntry<V>(columns: map<string, string>, c: string, v: V)
    ensures RowThrough(columns, [(c, v)]) == RowOf([(c, v)]) <==> Through(columns, c) == c
  {
    var row := [(c, v)];
    assert row[..0] == [];
    assert RowOf(row) == map[c := v] && RowThrough(columns, row) == map[Through(columns, c) := v];
    assert c in RowOf(row) && Through(columns, c) in RowThrough(columns, row);
  }

  function ColumnsThrough(columns: map<string, string>, cols: seq<string>): seq<string> {
    seq(|cols|, i requires 0 <= i < |cols| => Through(columns, cols[i]))
  }

  /**
   The shortcuts of `row` and of `columns`, which leave everything as it is, give what the general paths would give for all
   rows and for all lists of columns, exactly if no empty server name gets in the way.
   */
  lemma ShortcutAgrees<V(!new)>(client: bool, name: string, schema: TableSchema, v: V)
    requires NamesOf(client, name, schema).allColumnsSame && DistinctNames(schema.columns)
    ensures var columns := NamesOf(client, name, schema).columns;
      && ((forall row: seq<(string, V)> :: RowThrough(columns, row) == RowOf(row)) <==> NothingRenamed(client, schema.columns))
      && ((forall cols :: ColumnsThrough(columns, cols) == cols) <==> NothingRenamed(client, schema.columns))
  {
    hide NothingRenamed, ColumnsMap, RowThrough, RowOf, AllSame;
    SameColumnsExactly(client, schema.columns);
    var columns := ColumnsMap(client, schema.columns);
    if NothingRenamed(client, schema.columns) {
      forall c ensures Through(columns, c) == c { assert Through(ColumnsMap(client, schema.columns), c) == c; }
      forall cols ensures ColumnsThrough(columns, cols) == cols { }
      forall row: seq<(string, V)> ensures RowThrough(columns, row) == RowOf(row) { RowSame(columns, row); }
    } else {
      var c :| Through(columns, c) != c;
      OneEntry(columns, c, v);
      assert ColumnsThrough(columns, [c])[0] != c;
    }
  }

  /** A case in which they do not agree: an empty server name is no renaming, but it is used as a name. */
  lemma EmptyNameDisagrees(name: string)
    requires name != ""
    ensures var names := NamesOf(true, "t", TableSchema(None, [(name, Some(""))]));
      names.allColumnsSame && Through(names.columns, name) != name
  {
    var columns := [(name, Some(""))];
    assert columns[..0] == [];
    assert ColumnsMap(true, columns) == ColumnsMap(true, [])[name := ""];
  }

  // ----- there and back

  /** Names are not empty, and no two tables, and no two columns of a table, have the same name on either side. */
  ghost predicate Distinct(tables: seq<(string, TableSchema)>) {
    && (forall i, j :: 0 <= i < j < |tables| ==>
          tables[i].0 != tables[j].0
          && OrElse(tables[i].1.serverName, tables[i].0) != OrElse(tables[j].1.serverName, tables[j].0))
    && (forall i :: 0 <= i < |tables| ==> DistinctColumns(tables[i].1.columns))
  }

  ghost predicate DistinctColumns(columns: seq<(string, Option<string>)>) {
    && (forall i, j :: 0 <= i < j < |columns| ==>
          columns[i].0 != columns[j].0 && OrElse(columns[i].1, columns[i].0) != OrElse(columns[j].1, columns[j].0))
    && (forall i :: 0 <= i < |columns| ==> columns[i].0 != "" && OrElse(columns[i].1, columns[i].0) != "")
  }

  lemma {:induction false} ColumnAt(columns: seq<(string, Option<string>)>, i: nat)
    requires DistinctColumns(columns) && i < |columns|
    ensures var (name, server) := (columns[i].0, OrElse(columns[i].1, columns[i].0));
      && name in ColumnsMap(true, columns) && ColumnsMap(true, columns)[name] == server
      && server in ColumnsMap(false, columns) && ColumnsMap(false, columns)[server] == name
  {
    var n := |columns| - 1;
    if i < n { ColumnAt(columns[..n], i); }
  }

  lemma {:induction false} ColumnFrom(columns: seq<(string, Option<string>)>, name: string) returns (i: nat)
    requires name in ColumnsMap(true, columns)
    ensures i < |columns| && columns[i].0 == name
  {
    var n := |columns| - 1;
    if columns[n].0 == name {
      i := n;
    } else {
      i := ColumnFrom(columns[..n], name);
    }
  }

  lemma {:induction false} TableAt(tables: seq<(string, TableSchema)>, i: nat)
    requires Distinct(tables) && i < |tables|
    ensures var (name, schema) := tables[i]; var server := OrElse(schema.serverName, name);
      && name in MapperOf(true, tables) && MapperOf(true, tables)[name] == NamesOf(true, name, schema)
      && server in MapperOf(false, tables) && MapperOf(false, tables)[server] == NamesOf(false, name, schema)
  {
    hide ColumnsMap, AllSame, NamesOf;
    var n := |tables| - 1;
    if i < n { TableAt(tables[..n], i); }
  }

  lemma {:induction false} TableFrom(tables: seq<(string, TableSchema)>, name: string) returns (i: nat)
    requires name in MapperOf(true, tables)
    ensures i < |tables| && tables[i].0 == name
  {
    var n := |tables| - 1;
    if tables[n].0 == name {
      i := n;
    } else {
      i := TableFrom(tables[..n], name);
    }
  }

  predicate KnownColumn(m: map<string, DestNames>, table: string, column: string) {
    ColumnName(m, table, column).Some?
  }

  /** The two mappers of a schema undo each other, on tables and on columns. */
  lemma Inverse(tables: seq<(string, TableSchema)>, table: string)
    requires Distinct(tables) && table in MapperOf(true, tables)
    ensures var (there, back) := (MapperOf(true, tables), MapperOf(false, tables));
      && TableName(there, table).Some?
      && TableName(back, TableName(there, table).value) == Some(table)
      && forall column :: KnownColumn(there, table, column) ==>
           && ColumnName(there, table, column).Some?
           && ColumnName(back, TableName(there, table).value, ColumnName(there, table, column).value) == Some(column)
  {
    var i := TableFrom(tables, table);
    TableAt(tables, i);
    forall column | KnownColumn(MapperOf(true, tables), table, column)
      ensures ColumnName(MapperOf(true, tables), table, column).Some?
      ensures ColumnName(MapperOf(false, tables), TableName(MapperOf(true, tables), table).value,
                         ColumnName(MapperOf(true, tables), table, column).value) == Some(column)
    {
      var k := ColumnFrom(tables[i].1.columns, column);
      ColumnAt(tables[i].1.columns, k);
    }
  }

  // ----- queries

  function OrSelf(o: Option<string>, name: string): string { if o.Some? then o.value else name }

  /** The renaming of `mapAST`, for known names. */
  function Renaming<V>(m: map<string, DestNames>): Transform<V> {
    Transform(t => OrSelf(TableName(m, t), t), (t, c) => OrSelf(ColumnName(m, t, c), c), r => r, w => Some(w), c => c)
  }

  /** `mapAST`; None stands for the exception about the first unknown name. */
  function MapAst<V(!new)>(q: Ast<V>, m: map<string, DestNames>): Option<Ast<V>> {
    RenamingShrinks<V>(m);
    if Known(m, q) then Some(TransformAst(q, Renaming(m))) else None
  }

  predicate AllKnown(m: map<string, DestNames>, table: string, columns: seq<string>) {
    table in m && forall i :: 0 <= i < |columns| ==> KnownColumn(m, table, columns[i])
  }

  predicate Known<V>(m: map<string, DestNames>, q: Ast<V>)
    decreases q, 1
  {
    && q.table in m
    && (q.where.Some? ==> KnownCondition(m, q.table, q.where.value))
    && KnownRelated(m, q.table, q.related)
    && (q.start.Some? ==> forall i :: 0 <= i < |q.start.value.row| ==> KnownColumn(m, q.table, q.start.value.row[i].0))
    && (q.orderBy.Some? ==> forall i :: 0 <= i < |q.orderBy.value| ==> KnownColumn(m, q.table, q.orderBy.value[i].0))
  }

  predicate KnownCondition<V>(m: map<string, DestNames>, table: string, c: Condition<V>)
    decreases c, 0
  {
    match c
    case Simple(_, left, _) => left.Column? ==> KnownColumn(m, table, left.name)
    case And(cs) => KnownConditions(m, table, cs)
    case Or(cs) => KnownConditions(m, table, cs)
    case Exists(_, rel) => KnownRelationship(m, table, rel)
  }

  predicate KnownConditions<V>(m: map<string, DestNames>, table: string, cs: seq<Condition<V>>)
    decreases cs, 0
  {
    cs == [] || (KnownCondition(m, table, cs[0]) && KnownConditions(m, table, cs[1..]))
  }

  predicate KnownRelated<V>(m: map<string, DestNames>, table: string, rels: seq<Relationship<V>>)
    decreases rels, 0
  {
    rels == [] || (KnownRelationship(m, table, rels[0]) && KnownRelated(m, table, rels[1..]))
  }

  predicate KnownRelationship<V>(m: map<string, DestNames>, table: string, r: Relationship<V>)
    decreases r, 0
  {
    AllKnown(m, table, r.parentField) && AllKnown(m, r.subquery.table, r.childField) && Known(m, r.subquery)
  }

  function There<V>(tables: seq<(string, TableSchema)>): Transform<V> { Renaming(MapperOf(true, tables)) }
  function Back<V>(tables: seq<(string, TableSchema)>): Transform<V> { Renaming(MapperOf(false, tables)) }

  lemma RenamingShrinks<V(!new)>(m: map<string, DestNames>)
    ensures Shrinking(Renaming<V>(m))
  {
  }

  lemma ColumnsThereAndBack<V>(tables: seq<(string, TableSchema)>, table: string, columns: seq<string>)
    requires Distinct(tables) && AllKnown(MapperOf(true, tables), table, columns)
    ensures var (there, back) := (There<V>(tables), Back<V>(tables));
      back.tableName(there.tableName(table)) == table
      && Renamed(back, there.tableName(table), Renamed(there, table, columns)) == columns
      && AllKnown(MapperOf(false, tables), there.tableName(table), Renamed(there, table, columns))
  {
    Inverse(tables, table);
  }

  lemma ColumnThereAndBack<V>(tables: seq<(string, TableSchema)>, table: string, column: string)
    requires Distinct(tables) && KnownColumn(MapperOf(true, tables), table, column)
    ensures var (there, back) := (There<V>(tables), Back<V>(tables));
      back.columnName(there.tableName(table), there.columnName(table, column)) == column
      && KnownColumn(MapperOf(false, tables), there.tableName(table), there.columnName(table, column))
  {
    Inverse(tables, table);
  }

  lemma {:induction false} WhereThereAndBack<V(!new)>(tables: seq<(string, TableSchema)>, table: string, c: Condition<V>)
    requires Distinct(tables) && KnownCondition(MapperOf(true, tables), table, c) && table in MapperOf(true, tables)
    requires Shrinking(There<V>(tables)) && Shrinking(Back<V>(tables))
    ensures TransformWhere(TransformWhere(c, table, There(tables)), There<V>(tables).tableName(table), Back(tables)) == c
    ensures KnownCondition(MapperOf(false, tables), There<V>(tables).tableName(table), TransformWhere(c, table, There(tables)))
    decreases c, 0
  {
    hide Known, TransformAst, TransformRelationship, TransformConditions, Shrinking, KnownConditions, KnownRelationship, Distinct,
         MapperOf, Renaming;
    match c
    case Simple(_, left, _) =>
      if left.Column? { ColumnThereAndBack<V>(tables, table, left.name); }
    case And(cs) =>
      ConditionsThereAndBack(tables, table, cs);
      var inner := TransformConditions(cs, table, There(tables));
      Untouched(MapperOf(true, tables), inner, []);
      Untouched(MapperOf(false, tables), cs, []);
      assert TransformWhere(c, table, There(tables)) == And(inner);
      assert TransformWhere(And(inner), There<V>(tables).tableName(table), Back(tables)) == c;
    case Or(cs) =>
      ConditionsThereAndBack(tables, table, cs);
      var inner := TransformConditions(cs, table, There(tables));
      Untouched(MapperOf(true, tables), inner, []);
      Untouched(MapperOf(false, tables), cs, []);
      assert TransformWhere(c, table, There(tables)) == Or(inner);
      assert TransformWhere(Or(inner), There<V>(tables).tableName(table), Back(tables)) == c;
    case Exists(_, rel) => RelationshipThereAndBack(tables, table, rel);
  }

  /** Renaming leaves the order of conditions and relationships alone. */
  lemma Untouched<V>(m: map<string, DestNames>, cs: seq<Condition<V>>, rels: seq<Relationship<V>>)
    ensures Renaming<V>(m).conditions(cs) == cs && Renaming<V>(m).related(rels) == rels
  {
  }

  lemma Unflattened<V>(m: map<string, DestNames>, c: Condition<V>)
    ensures Renaming<V>(m).where(c) == Some(c)
  {
  }

  lemma {:induction false} ConditionsThereAndBack<V(!new)>(tables: seq<(string, TableSchema)>, table: string,
                                                          cs: seq<Condition<V>>)
    requires Distinct(tables) && KnownConditions(MapperOf(true, tables), table, cs) && table in MapperOf(true, tables)
    requires Shrinking(There<V>(tables)) && Shrinking(Back<V>(tables))
    ensures TransformConditions(TransformConditions(cs, table, There(tables)), There<V>(tables).tableName(table), Back(tables)) == cs
    ensures KnownConditions(MapperOf(false, tables), There<V>(tables).tableName(table), TransformConditions(cs, table, There(tables)))
    decreases cs, 0
  {
    hide TransformWhere, Shrinking, KnownCondition, Distinct, MapperOf, There, Back;
    if cs != [] {
      WhereThereAndBack(tables, table, cs[0]);
      ConditionsThereAndBack(tables, table, cs[1..]);
      var there := TransformConditions(cs, table, There(tables));
      assert there[1..] == TransformConditions(cs[1..], table, There(tables));
    }
  }

  lemma {:induction false} RelatedThereAndBack<V(!new)>(tables: seq<(string, TableSchema)>, table: string,
                                                       rels: seq<Relationship<V>>)
    requires Distinct(tables) && KnownRelated(MapperOf(true, tables), table, rels) && table in MapperOf(true, tables)
    requires Shrinking(There<V>(tables)) && Shrinking(Back<V>(tables))
    ensures TransformRelated(TransformRelated(rels, table, There(tables)), There<V>(tables).tableName(table), Back(tables)) == rels
    ensures KnownRelated(MapperOf(false, tables), There<V>(tables).tableName(table), TransformRelated(rels, table, There(tables)))
    decreases rels, 0
  {
    hide TransformRelationship, Shrinking, KnownRelationship, Distinct, MapperOf, There, Back;
    if rels != [] {
      RelationshipThereAndBack(tables, table, rels[0]);
      RelatedThereAndBack(tables, table, rels[1..]);
      var there := TransformRelated(rels, table, There(tables));
      assert there[1..] == TransformRelated(rels[1..], table, There(tables));
    }
  }

  lemma {:induction false} RelationshipThereAndBack<V(!new)>(tables: seq<(string, TableSchema)>, table: string,
                                                            r: Relationship<V>)
    requires Distinct(tables) && KnownRelationship(MapperOf(true, tables), table, r)
    requires Shrinking(There<V>(tables)) && Shrinking(Back<V>(tables))
    ensures TransformRelationship(TransformRelationship(r, table, There(tables)), There<V>(tables).tableName(table), Back(tables))
         == r
    ensures KnownRelationship(MapperOf(false, tables), There<V>(tables).tableName(table),
                              TransformRelationship(r, table, There(tables)))
    decreases r, 0
  {
    hide TransformAst, Shrinking, Known, Distinct, MapperOf, There, Back, AllKnown;
    ColumnsThereAndBack<V>(tables, table, r.parentField);
    ColumnsThereAndBack<V>(tables, r.subquery.table, r.childField);
    ThereAndBack(tables, r.subquery);
    TableOf(r.subquery, There(tables));
  }

  lemma TableOf<V(!new)>(q: Ast<V>, t: Transform<V>)
    requires Shrinking(t)
    ensures TransformAst(q, t).table == t.tableName(q.table)
  {
  }

  /** The round trip through server names is the identity on queries over known names. */
  lemma {:induction false} ThereAndBack<V(!new)>(tables: seq<(string, TableSchema)>, q: Ast<V>)
    requires Distinct(tables) && Known(MapperOf(true, tables), q)
    requires Shrinking(There<V>(tables)) && Shrinking(Back<V>(tables))
    ensures TransformAst(TransformAst(q, There(tables)), Back(tables)) == q
    ensures Known(MapperOf(false, tables), TransformAst(q, There(tables)))
    decreases q, 1
  {
    hide TransformWhere, TransformRelated, Shrinking, Distinct, MapperOf, Renaming, KnownCondition, KnownRelated;
    ColumnsThereAndBack<V>(tables, q.table, []);
    RelatedThereAndBack(tables, q.table, q.related);
    Untouched(MapperOf(true, tables), [], TransformRelated(q.related, q.table, There(tables)));
    Untouched(MapperOf(false, tables), [], q.related);
    if q.where.Some? {
      WhereThereAndBack(tables, q.table, q.where.value);
      Unflattened(MapperOf(true, tables), q.where.value);
      Unflattened(MapperOf(false, tables), TransformWhere(q.where.value, q.table, There(tables)));
    }
    if q.start.Some? { PairsThereAndBack<V, V>(tables, q.table, q.start.value.row); }
    if q.orderBy.Some? { PairsThereAndBack<V, bool>(tables, q.table, q.orderBy.value); }
    var there := TransformAst(q, There(tables));
    assert there.related == TransformRelated(q.related, q.table, There(tables));
    assert q.where.Some? ==> there.where == Some(TransformWhere(q.where.value, q.table, There(tables)));
    var back := TransformAst(there, Back(tables));
    assert back.where == q.where && back.related == q.related && back.start == q.start && back.orderBy == q.orderBy;
  }

  lemma PairsThereAndBack<V, A>(tables: seq<(string, TableSchema)>, table: string, pairs: seq<(string, A)>)
    requires Distinct(tables) && forall i :: 0 <= i < |pairs| ==> KnownColumn(MapperOf(true, tables), table, pairs[i].0)
    ensures RenamedPairs(Back<V>(tables), There<V>(tables).tableName(table), RenamedPairs(There<V>(tables), table, pairs)) == pairs
    ensures var there := RenamedPairs(There<V>(tables), table, pairs);
      forall i :: 0 <= i < |there| ==> KnownColumn(MapperOf(false, tables), There<V>(tables).tableName(table), there[i].0)
  {
    hide Distinct, MapperOf, There, Back;
    var there := RenamedPairs(There<V>(tables), table, pairs);
    forall i | 0 <= i < |pairs|
      ensures RenamedPairs(Back<V>(tables), There<V>(tables).tableName(table), there)[i] == pairs[i]
      ensures KnownColumn(MapperOf(false, tables), There<V>(tables).tableName(table), there[i].0)
    {
      ColumnThereAndBack<V>(tables, table, pairs[i].0);
    }
  }

  /** `mapAST` with client-to-server names, then with server-to-client names, changes nothing. */
  lemma MapThereAndBack<V(!new)>(tables: seq<(string, TableSchema)>, q: Ast<V>)
    requires Distinct(tables)
    ensures var server := MapAst(q, MapperOf(true, tables));
      server.Some? ==> MapAst(server.value, MapperOf(false, tables)) == Some(q)
  {
    hide TransformAst, Known, Distinct;
    RenamingShrinks<V>(MapperOf(true, tables));
    RenamingShrinks<V>(MapperOf(false, tables));
    if Known(MapperOf(true, tables), q) { ThereAndBack(tables, q); }
  }
}
