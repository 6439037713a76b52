/** Why the order of a junction's edges has no say: the rows behind them are ordered themselves. */
module JunctionOrder {
  import opened Wrappers
  import opened Zql
  import opened Lists

  function UpTo(n: nat): (r: seq<nat>)
    ensures |r| == n && forall i :: 0 <= i < n ==> r[i] == i
  {
    seq(n, i => i)
  }

  /** ORDER BY loses no row, and depends on nothing but the keys, not on the order in which they come. */
  ghost predicate Sorts<V(!new)>(w: World<V>) {
    && (forall keys, d :: multiset(w.arrange(keys, d)) == multiset(UpTo(|keys|)))
    && (forall keys, others, d :: multiset(keys) == multiset(others) ==>
          Pick(keys, w.arrange(keys, d)) == Pick(others, w.arrange(others, d)))
  }

  /** No two rows of the table have the same key, as when the order includes the primary key. */
  ghost predicate Separates<V>(w: World<V>, o: seq<(string, bool)>, table: string) {
    var rows := w.tables(w.tableName(table));
    forall i, j :: 0 <= i < |rows| && 0 <= j < |rows| && KeyOf(w, o, table, rows[i]) == KeyOf(w, o, table, rows[j])
      ==> rows[i] == rows[j]
  }

  // ----- lists with the same members

  lemma {:induction false} PickJoin<A>(s: seq<A>, a: seq<nat>, b: seq<nat>)
    ensures Pick(s, a + b) == Pick(s, a) + Pick(s, b)
  {
    if a == [] {
      assert a + b == b;
    } else {
      assert (a + b)[1..] == a[1..] + b;
      PickJoin(s, a[1..], b);
    }
  }

  lemma {:induction false} PickPermuted<A>(s: seq<A>, a: seq<nat>, b: seq<nat>)
    requires multiset(a) == multiset(b)
    ensures multiset(Pick(s, a)) == multiset(Pick(s, b))
  {
    if a == [] {
      assert |multiset(b)| == 0;
    } else {
      var i := Without(a, b);
      PickPermuted(s, a[1..], b[..i] + b[i + 1..]);
      PickJoin(s, b[..i], b[i + 1..]);
      PickJoin(s, b[..i], [b[i]] + b[i + 1..]);
      PickJoin(s, [b[i]], b[i + 1..]);
      PickJoin(s, [a[0]], a[1..]);
      assert a == [a[0]] + a[1..];
    }
  }

  lemma {:induction false} PickAll<A>(s: seq<A>, n: nat)
    requires n <= |s|
    ensures Pick(s, UpTo(n)) == s[..n]
  {
    if n > 0 {
      PickAll(s, n - 1);
      assert UpTo(n) == UpTo(n - 1) + [n - 1];
      PickJoin(s, UpTo(n - 1), [n - 1]);
      assert [n - 1][1..] == [];
      assert Pick(s, [n - 1]) == [s[n - 1]];
    }
  }

  lemma {:induction false} KeysOfJoin<V>(w: World<V>, o: seq<(string, bool)>, table: string, a: seq<Row<V>>, b: seq<Row<V>>)
    ensures KeysOf(w, o, table, a + b) == KeysOf(w, o, table, a) + KeysOf(w, o, table, b)
  {
    hide KeyOf;
    if a == [] {
      assert a + b == b;
    } else {
      assert (a + b)[1..] == a[1..] + b;
      KeysOfJoin(w, o, table, a[1..], b);
    }
  }

  lemma {:induction false} KeysPermuted<V>(w: World<V>, o: seq<(string, bool)>, table: string, a: seq<Row<V>>, b: seq<Row<V>>)
    requires multiset(a) == multiset(b)
    ensures multiset(KeysOf(w, o, table, a)) == multiset(KeysOf(w, o, table, b))
  {
    hide KeyOf;
    if a == [] {
      assert |multiset(b)| == 0;
    } else {
      var i := Without(a, b);
      KeysPermuted(w, o, table, a[1..], b[..i] + b[i + 1..]);
      KeysOfJoin(w, o, table, b[..i], b[i + 1..]);
      KeysOfJoin(w, o, table, b[..i], [b[i]] + b[i + 1..]);
      KeysOfJoin(w, o, table, [b[i]], b[i + 1..]);
      KeysOfJoin(w, o, table, [a[0]], a[1..]);
      assert a == [a[0]] + a[1..];
    }
  }

  lemma {:induction false} KeysAt<V>(w: World<V>, o: seq<(string, bool)>, table: string, rows: seq<Row<V>>)
    ensures |KeysOf(w, o, table, rows)| == |rows|
    ensures forall i :: 0 <= i < |rows| ==> KeysOf(w, o, table, rows)[i] == KeyOf(w, o, table, rows[i])
  {
    hide KeyOf;
    if rows != [] { KeysAt(w, o, table, rows[1..]); }
  }

  lemma {:induction false} KeysOfPick<V>(w: World<V>, o: seq<(string, bool)>, table: string, rows: seq<Row<V>>, indices: seq<nat>)
    ensures KeysOf(w, o, table, Pick(rows, indices)) == Pick(KeysOf(w, o, table, rows), indices)
  {
    hide KeyOf;
    KeysAt(w, o, table, rows);
    if indices != [] {
      KeysOfPick(w, o, table, rows, indices[1..]);
      var first := if indices[0] < |rows| then [rows[indices[0]]] else [];
      KeysOfJoin(w, o, table, first, Pick(rows, indices[1..]));
      if indices[0] < |rows| { assert first[1..] == []; }
    }
  }

  // ----- ordering

  /** ORDER BY is a permutation. */
  lemma InOrderKeeps<V(!new)>(w: World<V>, o: Option<seq<(string, bool)>>, table: string, rows: seq<Row<V>>)
    requires Sorts(w)
    ensures multiset(InOrder(w, o, table, rows)) == multiset(rows)
  {
    hide KeysOf;
    if o.Some? {
      KeysAt(w, o.value, table, rows);
      var keys := KeysOf(w, o.value, table, rows);
      PickPermuted(rows, w.arrange(keys, Directions(o.value)), UpTo(|rows|));
      PickAll(rows, |rows|);
      assert rows[..|rows|] == rows;
    }
  }

  ghost predicate FromTable<V>(w: World<V>, table: string, rows: seq<Row<V>>) {
    forall i :: 0 <= i < |rows| ==> rows[i] in w.tables(w.tableName(table))
  }

  lemma MembersAlike<A>(a: seq<A>, b: seq<A>)
    requires multiset(a) == multiset(b)
    ensures forall x :: x in a ==> x in b
  {
    forall x | x in a ensures x in b { assert x in multiset(b); }
  }

  /** An order that separates the rows gives one outcome, in whatever order the rows come. */
  lemma OneOutcome<V(!new)>(w: World<V>, o: seq<(string, bool)>, table: string, a: seq<Row<V>>, b: seq<Row<V>>)
    requires Sorts(w) && Separates(w, o, table) && FromTable(w, table, a) && multiset(a) == multiset(b)
    ensures InOrder(w, Some(o), table, a) == InOrder(w, Some(o), table, b)
  {
    hide KeyOf, KeysOf;
    var d := Directions(o);
    var (ka, kb) := (KeysOf(w, o, table, a), KeysOf(w, o, table, b));
    KeysPermuted(w, o, table, a, b);
    var (ra, rb) := (Pick(a, w.arrange(ka, d)), Pick(b, w.arrange(kb, d)));
    KeysOfPick(w, o, table, a, w.arrange(ka, d));
    KeysOfPick(w, o, table, b, w.arrange(kb, d));
    assert KeysOf(w, o, table, ra) == KeysOf(w, o, table, rb);
    KeysAt(w, o, table, ra);
    KeysAt(w, o, table, rb);
    InOrderKeeps(w, Some(o), table, a);
    InOrderKeeps(w, Some(o), table, b);
    MembersAlike(ra, a);
    MembersAlike(rb, a);
    forall i | 0 <= i < |ra| ensures ra[i] == rb[i] {
      assert ra[i] in a && rb[i] in a;
      SameKeySameRow(w, o, table, ra[i], rb[i]);
    }
  }

  lemma SameKeySameRow<V>(w: World<V>, o: seq<(string, bool)>, table: string, x: Row<V>, y: Row<V>)
    requires Separates(w, o, table) && x in w.tables(w.tableName(table)) && y in w.tables(w.tableName(table))
    requires KeyOf(w, o, table, x) == KeyOf(w, o, table, y)
    ensures x == y
  {
  }

  // ----- junctions

  lemma {:induction false} ReachedJoin<V>(w: World<V>, last: Relationship<V>, edgeTable: string, a: seq<Row<V>>, b: seq<Row<V>>)
    ensures Reached(w, last, edgeTable, a + b) == Reached(w, last, edgeTable, a) + Reached(w, last, edgeTable, b)
  {
    hide Keep;
    if a == [] {
      assert a + b == b;
    } else {
      assert (a + b)[1..] == a[1..] + b;
      ReachedJoin(w, last, edgeTable, a[1..], b);
    }
  }

  lemma {:induction false} ReachedPermuted<V>(w: World<V>, last: Relationship<V>, edgeTable: string, a: seq<Row<V>>, b: seq<Row<V>>)
    requires multiset(a) == multiset(b)
    ensures multiset(Reached(w, last, edgeTable, a)) == multiset(Reached(w, last, edgeTable, b))
  {
    hide Keep, Reached;
    if a == [] {
      assert |multiset(b)| == 0;
    } else {
      var i := Without(a, b);
      ReachedPermuted(w, last, edgeTable, a[1..], b[..i] + b[i + 1..]);
      ReachedJoin(w, last, edgeTable, b[..i], b[i + 1..]);
      ReachedJoin(w, last, edgeTable, b[..i], [b[i]] + b[i + 1..]);
      ReachedJoin(w, last, edgeTable, [b[i]], b[i + 1..]);
      ReachedJoin(w, last, edgeTable, [a[0]], a[1..]);
      assert a == [a[0]] + a[1..];
    }
  }

  lemma {:induction false} FromJoin<V>(w: World<V>, q: Ast<V>, a: seq<Row<V>>, b: seq<Row<V>>)
    ensures From(w, q, a + b) == From(w, q, a) + From(w, q, b)
  {
    if a == [] {
      assert a + b == b;
    } else {
      assert (a + b)[1..] == a[1..] + b;
      FromJoin(w, q, a[1..], b);
    }
  }

  lemma {:induction false} FromPermuted<V>(w: World<V>, q: Ast<V>, a: seq<Row<V>>, b: seq<Row<V>>)
    requires multiset(a) == multiset(b)
    ensures multiset(From(w, q, a)) == multiset(From(w, q, b))
  {
    hide From;
    if a == [] {
      assert |multiset(b)| == 0;
    } else {
      var i := Without(a, b);
      FromPermuted(w, q, a[1..], b[..i] + b[i + 1..]);
      FromJoin(w, q, b[..i], b[i + 1..]);
      FromJoin(w, q, b[..i], [b[i]] + b[i + 1..]);
      FromJoin(w, q, [b[i]], b[i + 1..]);
      FromJoin(w, q, [a[0]], a[1..]);
      assert a == [a[0]] + a[1..];
    }
  }

  lemma {:induction false} KeptFromTable<V>(w: World<V>, c: Option<Condition<V>>, link: Option<Link<V>>, table: string,
                                            rows: seq<Row<V>>)
    ensures forall x :: x in Keep(w, c, link, table, rows) ==> x in rows
  {
    hide Truth, Linked;
    if rows != [] { KeptFromTable(w, c, link, table, rows[1..]); }
  }

  lemma {:induction false} ReachedFromTable<V>(w: World<V>, last: Relationship<V>, edgeTable: string, edges: seq<Row<V>>)
    ensures forall x :: x in Reached(w, last, edgeTable, edges) ==> x in w.tables(w.tableName(last.subquery.table))
  {
    hide Keep;
    if edges != [] {
      var q := last.subquery;
      KeptFromTable(w, q.where, Some(Link(edgeTable, edges[0], last.parentField, last.childField)), q.table,
                    w.tables(w.tableName(q.table)));
      ReachedFromTable(w, last, edgeTable, edges[1..]);
    }
  }

  lemma {:induction false} FromSubset<V>(w: World<V>, q: Ast<V>, rows: seq<Row<V>>)
    ensures forall x :: x in From(w, q, rows) ==> x in rows
  {
    if q.start.Some? && rows != [] { FromSubset(w, q, rows[1..]); }
  }

  /**
   If the far query's order separates the rows of its table (the program adds the primary key to every order), then it makes
   no difference whether the edges are put into their own order first.
   */
  lemma EdgeOrderDoesNotMatter<V(!new)>(w: World<V>, edge: Ast<V>, last: Relationship<V>, link: Option<Link<V>>)
    requires Sorts(w) && last.subquery.orderBy.Some? && Separates(w, last.subquery.orderBy.value, last.subquery.table)
    ensures var q := last.subquery;
      InOrder(w, q.orderBy, q.table, From(w, q, Reached(w, last, edge.table, Selected(w, edge, link))))
      == InOrder(w, q.orderBy, q.table, From(w, q, Reached(w, last, edge.table, Edges(w, edge, link))))
  {
    hide Reached, From, InOrder, Keep, Sorts, Separates;
    var q := last.subquery;
    if edge.limit.None? {
      var (a, b) := (Selected(w, edge, link), Edges(w, edge, link));
      InOrderKeeps(w, edge.orderBy, edge.table, b);
      var (ra, rb) := (Reached(w, last, edge.table, a), Reached(w, last, edge.table, b));
      ReachedPermuted(w, last, edge.table, a, b);
      FromPermuted(w, q, ra, rb);
      ReachedFromTable(w, last, edge.table, a);
      FromSubset(w, q, ra);
      OneOutcome(w, q.orderBy.value, q.table, From(w, q, ra), From(w, q, rb));
    }
  }

  // ----- such an ORDER BY exists

  /** The indices of a list, seen from the list that has one more element at `i`. */
  function Shifted(i: nat, indices: seq<nat>): (r: seq<nat>)
    ensures |r| == |indices| && forall k :: 0 <= k < |r| ==> r[k] == if indices[k] < i then indices[k] else indices[k] + 1
  {
    seq(|indices|, k requires 0 <= k < |indices| => if indices[k] < i then indices[k] else indices[k] + 1)
  }

  function Behind(i: nat, k: nat): nat { if k < i then k else k + 1 }

  lemma OnePick<A>(s: seq<A>, i: nat, k: nat)
    requires i < |s|
    ensures Pick(s, [Behind(i, k)]) == Pick(s[..i] + s[i + 1..], [k])
  {
    var rest := s[..i] + s[i + 1..];
    assert [k][1..] == [] && [Behind(i, k)][1..] == [];
    if k < |rest| { assert rest[k] == s[Behind(i, k)]; }
  }

  lemma ShiftedStep(i: nat, k: nat, indices: seq<nat>)
    ensures Shifted(i, [k] + indices) == [Behind(i, k)] + Shifted(i, indices)
  {
  }

  lemma ShiftedJoin(i: nat, a: seq<nat>, b: seq<nat>)
    ensures Shifted(i, a + b) == Shifted(i, a) + Shifted(i, b)
  {
  }

  lemma {:induction false} ShiftedPick<A>(s: seq<A>, i: nat, indices: seq<nat>)
    requires i < |s|
    ensures Pick(s, Shifted(i, indices)) == Pick(s[..i] + s[i + 1..], indices)
  {
    hide Pick, Shifted;
    if indices == [] {
      NoPick(s, s[..i] + s[i + 1..], i);
    } else {
      var (k, rest) := (indices[0], indices[1..]);
      assert indices == [k] + rest;
      ShiftedPick(s, i, rest);
      ShiftedStep(i, k, rest);
      OnePick(s, i, k);
      PickJoin(s, [Behind(i, k)], Shifted(i, rest));
      PickJoin(s[..i] + s[i + 1..], [k], rest);
    }
  }

  lemma NoPick<A>(s: seq<A>, r: seq<A>, i: nat)
    ensures Pick(s, Shifted(i, [])) == Pick(r, []) == []
  {
  }

  lemma {:induction false} ShiftedPermuted(i: nat, a: seq<nat>, b: seq<nat>)
    requires multiset(a) == multiset(b)
    ensures multiset(Shifted(i, a)) == multiset(Shifted(i, b))
  {
    hide Shifted;
    if a == [] {
      assert |multiset(b)| == 0;
    } else {
      var k := Without(a, b);
      ShiftedPermuted(i, a[1..], b[..k] + b[k + 1..]);
      assert a == [a[0]] + a[1..];
      ShiftedStep(i, a[0], a[1..]);
      ShiftedStep(i, b[k], b[k + 1..]);
      ShiftedJoin(i, b[..k], b[k + 1..]);
      ShiftedJoin(i, b[..k], [b[k]] + b[k + 1..]);
      Apart(Shifted(i, b[..k]), Behind(i, b[k]), Shifted(i, b[k + 1..]));
      Apart([], Behind(i, a[0]), Shifted(i, a[1..]));
      Nothing([Behind(i, a[0])] + Shifted(i, a[1..]));
      Nothing(Shifted(i, a[1..]));
    }
  }

  lemma Nothing<A>(s: seq<A>)
    ensures [] + s == s
  {
  }

  lemma OneMoreIndex(n: nat, i: nat, indices: seq<nat>)
    requires i <= n && multiset(indices) == multiset(UpTo(n))
    ensures multiset([i] + Shifted(i, indices)) == multiset(UpTo(n + 1))
  {
    ShiftedPermuted(i, indices, UpTo(n));
    var later := Shifted(i, UpTo(n))[i..];
    assert Shifted(i, UpTo(n)) == UpTo(i) + later;
    assert UpTo(n + 1) == UpTo(i) + ([i] + later);
    Apart(UpTo(i), i, later);
  }

  /** A list that is a permutation of another can be picked from it. */
  lemma {:induction false} Indices<A>(s: seq<A>, target: seq<A>) returns (indices: seq<nat>)
    requires multiset(s) == multiset(target)
    ensures Pick(s, indices) == target && multiset(indices) == multiset(UpTo(|s|))
    decreases |target|
  {
    hide Pick, Shifted;
    if target == [] {
      assert |multiset(s)| == 0;
      indices := [];
      NoPick(s, s, 0);
    } else {
      var i := Without(target, s);
      var rest := s[..i] + s[i + 1..];
      var later := Indices(rest, target[1..]);
      indices := [i] + Shifted(i, later);
      OneMorePick(s, i, later, target);
      OneMoreIndex(|rest|, i, later);
    }
  }

  lemma OneMorePick<A>(s: seq<A>, i: nat, later: seq<nat>, target: seq<A>)
    requires i < |s| && target != [] && s[i] == target[0] && Pick(s[..i] + s[i + 1..], later) == target[1..]
    ensures Pick(s, [i] + Shifted(i, later)) == target
  {
    hide Pick, Shifted;
    ShiftedPick(s, i, later);
    PickJoin(s, [i], Shifted(i, later));
    PickOne(s, i);
    assert target == [target[0]] + target[1..];
  }

  lemma PickOne<A>(s: seq<A>, i: nat)
    requires i < |s|
    ensures Pick(s, [i]) == [s[i]]
  {
    assert [i][1..] == [];
  }

  ghost predicate HasMembers<A(!new)>(r: seq<A>, m: multiset<A>) { multiset(r) == m }

  /** Some list of the members, always the same one. */
  ghost function Canonical<A(!new)>(m: multiset<A>): (r: seq<A>)
    ensures HasMembers(r, m)
  {
    SomeList(m);
    var r: seq<A> :| HasMembers(r, m);
    r
  }

  lemma {:induction false} SomeList<A(!new)>(m: multiset<A>)
    ensures exists r: seq<A> :: HasMembers(r, m)
    decreases |m|
  {
    if m == multiset{} {
      assert HasMembers([], m);
    } else {
      var x :| x in m;
      SomeList(m - multiset{x});
      var r: seq<A> :| HasMembers(r, m - multiset{x});
      assert m == m - multiset{x} + multiset{x};
      assert HasMembers(r + [x], m);
    }
  }

  ghost predicate Picks<A(!new)>(keys: seq<A>, indices: seq<nat>) {
    Pick(keys, indices) == Canonical(multiset(keys)) && multiset(indices) == multiset(UpTo(|keys|))
  }

  ghost function Arranged<A(!new)>(keys: seq<A>): (indices: seq<nat>)
    ensures Pick(keys, indices) == Canonical(multiset(keys)) && multiset(indices) == multiset(UpTo(|keys|))
  {
    SomeIndices(keys);
    var indices: seq<nat> :| Picks(keys, indices);
    indices
  }

  lemma SomeIndices<A(!new)>(keys: seq<A>)
    ensures exists indices: seq<nat> :: Picks(keys, indices)
  {
    var indices := Indices(keys, Canonical(multiset(keys)));
    assert Picks(keys, indices);
  }

  /** The assumption about ORDER BY can be met, whatever the tables. */
  lemma SortsExist<V(!new)>(w: World<V>)
    ensures exists v: World<V> :: Sorts(v) && v == w.(arrange := v.arrange)
  {
    ghost var arrange: (seq<seq<V>>, seq<bool>) -> seq<nat> := (keys, _) => Arranged(keys);
    var v := w.(arrange := arrange);
    assert Sorts(v);
  }
}
