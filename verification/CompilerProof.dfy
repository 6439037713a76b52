/** What the compiler guarantees: fresh aliases, printable SQL, and the meaning of the query. */
module CompilerProof {
  import opened Wrappers
  import opened Zql
  import opened SqlTree
  import Compiler

  // ----- aliases

  predicate IsDigit(c: char) { '0' <= c <= '9' }

  lemma {:induction false} DecimalDigits(n: nat)
    ensures Compiler.Decimal(n) != [] && forall i :: 0 <= i < |Compiler.Decimal(n)| ==> IsDigit(Compiler.Decimal(n)[i])
  {
    if n >= 10 { DecimalDigits(n / 10); }
  }

  lemma {:induction false} DecimalInjective(m: nat, n: nat)
    requires Compiler.Decimal(m) == Compiler.Decimal(n)
    ensures m == n
  {
    var digits := "0123456789";
    var a, b := Compiler.Decimal(m), Compiler.Decimal(n);
    assert a[|a| - 1] == digits[m % 10] && b[|b| - 1] == digits[n % 10];
    assert m % 10 == n % 10;
    if m >= 10 && n >= 10 {
      assert Compiler.Decimal(m / 10) == a[..|a| - 1] && Compiler.Decimal(n / 10) == b[..|b| - 1];
      DecimalInjective(m / 10, n / 10);
    } else if m >= 10 {
      DecimalDigits(m / 10);
    } else if n >= 10 {
      DecimalDigits(n / 10);
    }
  }

  /** The number behind the last underscore tells aliases apart, whatever the table names look like. */
  lemma AliasInjective(t: string, n: nat, t': string, n': nat)
    requires Compiler.AliasOf(t, n) == Compiler.AliasOf(t', n')
    ensures n == n' && t == t'
  {
    var a, d, d' := Compiler.AliasOf(t, n), Compiler.Decimal(n), Compiler.Decimal(n');
    DecimalDigits(n);
    DecimalDigits(n');
    assert a[|t|] == '_' && a[|t'|] == '_';
    assert forall i :: 0 <= i < |d| ==> a[|t| + 1 + i] == d[i];
    assert forall i :: 0 <= i < |d'| ==> a[|t'| + 1 + i] == d'[i];
    assert d == a[|t| + 1..] == d';
    assert t == a[..|t|] == t';
    DecimalInjective(n, n');
  }

  /** The alias was made when the counter stood between `lo` and `hi`. */
  ghost predicate Made(a: string, lo: nat, hi: nat) {
    exists t: string, n: nat :: lo <= n < hi && a == Compiler.AliasOf(t, n)
  }

  lemma MadeApart(a: string, b: string, lo: nat, mid: nat, hi: nat)
    requires Made(a, lo, mid) && Made(b, mid, hi)
    ensures a != b
  {
    var t: string, n: nat :| lo <= n < mid && a == Compiler.AliasOf(t, n);
    var t': string, n': nat :| mid <= n' < hi && b == Compiler.AliasOf(t', n');
    if a == b { AliasInjective(t, n, t', n'); }
  }

  /** Aliases made between `lo` and `hi`, no two of them alike. */
  ghost predicate Fresh(b: multiset<string>, lo: nat, hi: nat) {
    forall a :: a in b ==> b[a] == 1 && Made(a, lo, hi)
  }

  lemma MadeWider(a: string, lo: nat, hi: nat, lo': nat, hi': nat)
    requires Made(a, lo, hi) && lo' <= lo && hi <= hi'
    ensures Made(a, lo', hi')
  {
  }

  lemma FreshUnion(b: multiset<string>, c: multiset<string>, lo: nat, mid: nat, hi: nat)
    requires lo <= mid <= hi && Fresh(b, lo, mid) && Fresh(c, mid, hi)
    ensures Fresh(b + c, lo, hi)
  {
    forall a | a in b + c ensures (b + c)[a] == 1 && Made(a, lo, hi) {
      if a in b && a in c { MadeApart(a, a, lo, mid, hi); }
      if a in b { MadeWider(a, lo, mid, lo, hi); } else { MadeWider(a, mid, hi, lo, hi); }
    }
  }

  lemma {:induction false} BoundJoin<V>(a: seq<Pred<V>>, b: seq<Pred<V>>)
    ensures BoundInAll(a + b) == BoundInAll(a) + BoundInAll(b)
  {
    if a == [] {
      assert a + b == b;
    } else {
      assert (a + b)[1..] == a[1..] + b;
      BoundJoin(a[1..], b);
    }
  }

  lemma {:induction false} BoundItemsJoin<V>(a: seq<Item<V>>, b: seq<Item<V>>)
    ensures BoundInItems(a + b) == BoundInItems(a) + BoundInItems(b)
  {
    if a == [] {
      assert a + b == b;
    } else {
      assert (a + b)[1..] == a[1..] + b;
      BoundItemsJoin(a[1..], b);
    }
  }

  lemma {:induction false} CorrelatorBinds<V>(w: World<V>, p: Compiler.Parent, pf: seq<string>, c: Compiler.Parent,
                                             cf: seq<string>)
    ensures BoundInAll(Compiler.Correlator(w, p, pf, c, cf)) == multiset{}
  {
    if pf != [] && cf != [] {
      CorrelatorBinds(w, p, pf[1..], c, cf[1..]);
      var ps := Compiler.Correlator(w, p, pf, c, cf);
      assert ps[1..] == Compiler.Correlator(w, p, pf[1..], c, cf[1..]);
    }
  }

  lemma {:induction false} ColumnsBind<V>(w: World<V>, columns: seq<string>, used: set<string>, t: Compiler.Parent)
    ensures BoundInItems(Compiler.ColumnItems<V>(w, columns, used, t)) == multiset{}
  {
    if columns != [] {
      ColumnsBind(w, columns[1..], used, t);
      var rest := Compiler.ColumnItems<V>(w, columns[1..], used, t);
      var items := Compiler.ColumnItems<V>(w, columns, used, t);
      assert items == rest || items[1..] == rest;
    }
  }

  lemma NoPredsBind<V>()
    ensures BoundInAll<V>([]) == multiset{}
  {
  }

  lemma OneFresh(t: string, n: nat)
    ensures Fresh(multiset{Compiler.AliasOf(t, n)}, n, n + 1)
  {
  }

  /** All aliases in a compiled query come from its part of the counter's run, and none is used twice. */
  lemma {:induction false} SelectFresh<V>(w: World<V>, q: Ast<V>, f: Format, c: Option<Compiler.Correlation>, n: nat)
    ensures var (r, n') := Compiler.Select(w, q, f, c, n); Fresh(Bound(r), n, n')
    decreases q, 2
  {
    hide Fresh, BoundInAll, BoundInItems, Compiler.Related, Compiler.Condition, Compiler.ColumnItems, Compiler.Correlator,
         Compiler.AliasOf;
    NoPredsBind<V>();
    var t := Compiler.Parent(q.table, Compiler.AliasOf(q.table, n));
    var (related, n1) := Compiler.Related(w, q.related, f, t, n + 1);
    var (where, n2) := Compiler.Condition(w, q.where, t, n1);
    var columns := Compiler.ColumnItems<V>(w, w.columns(q.table), Compiler.AliasesUsed(q.related), t);
    var correlate := if c.None? then [] else Compiler.Correlator<V>(w, c.value.parent, c.value.parentField, t, c.value.childField);
    OneFresh(q.table, n);
    RelatedFresh(w, q.related, f, t, n + 1);
    ConditionFresh(w, q.where, t, n1);
    ColumnsBind(w, w.columns(q.table), Compiler.AliasesUsed(q.related), t);
    if c.Some? { CorrelatorBinds(w, c.value.parent, c.value.parentField, t, c.value.childField); }
    BoundItemsJoin(related, columns);
    BoundJoin(where, correlate);
    FreshUnion(multiset{t.alias}, BoundInItems(related), n, n + 1, n1);
    FreshUnion(multiset{t.alias} + BoundInItems(related), BoundInAll(where), n, n1, n2);
    assert BoundInAll(where + correlate) == BoundInAll(where);
    assert Bound(Compiler.Select(w, q, f, c, n).0) == multiset{t.alias} + BoundInItems(related) + BoundInAll(where);
  }

  lemma NothingFresh(n: nat)
    ensures Fresh(multiset{}, n, n)
  {
  }

  lemma {:induction false} ConditionFresh<V>(w: World<V>, c: Option<Condition<V>>, t: Compiler.Parent, n: nat)
    ensures var (ps, n') := Compiler.Condition(w, c, t, n); Fresh(BoundInAll(ps), n, n')
    decreases c, 1
  {
    hide Fresh;
    NothingFresh(n);
    if c.Some? {
      WhereFresh(w, c.value, t, n);
      var (p, n1) := Compiler.WhereOf(w, c.value, t, n);
      assert [p][1..] == [];
      assert BoundInAll([p]) == BoundInPred(p);
    }
  }

  lemma {:induction false} WhereFresh<V>(w: World<V>, c: Condition<V>, t: Compiler.Parent, n: nat)
    ensures var (p, n') := Compiler.WhereOf(w, c, t, n); Fresh(BoundInPred(p), n, n')
    decreases c, 0
  {
    hide Fresh;
    NothingFresh(n);
    match c
    case Simple(_, _, _) =>
    case And(cs) => WhereAllFresh(w, cs, t, n);
    case Or(cs) => WhereAllFresh(w, cs, t, n);
    case Exists(_, rel) =>
      SelectFresh(w, rel.subquery, NoFormat, Some(Compiler.Correlation(t, rel.parentField, rel.childField)), n);
  }

  lemma {:induction false} WhereAllFresh<V>(w: World<V>, cs: seq<Condition<V>>, t: Compiler.Parent, n: nat)
    ensures var (ps, n') := Compiler.WhereAll(w, cs, t, n); Fresh(BoundInAll(ps), n, n')
    decreases cs, 0
  {
    hide Fresh;
    NothingFresh(n);
    if cs != [] {
      WhereFresh(w, cs[0], t, n);
      var (p, n1) := Compiler.WhereOf(w, cs[0], t, n);
      WhereAllFresh(w, cs[1..], t, n1);
      var (ps, n2) := Compiler.WhereAll(w, cs[1..], t, n1);
      assert ([p] + ps)[1..] == ps;
      FreshUnion(BoundInPred(p), BoundInAll(ps), n, n1, n2);
    }
  }

  lemma {:induction false} RelatedFresh<V>(w: World<V>, rels: seq<Relationship<V>>, f: Format, t: Compiler.Parent, n: nat)
    ensures var (items, n') := Compiler.Related(w, rels, f, t, n); Fresh(BoundInItems(items), n, n')
    decreases rels, 0
  {
    hide Fresh;
    NothingFresh(n);
    if rels != [] {
      var g := FormatOf(f, rels[0].alias);
      RelationshipFresh(w, rels[0], g, t, n);
      var (i, n1) := Compiler.RelationshipSubquery(w, rels[0], g, t, n);
      RelatedFresh(w, rels[1..], f, t, n1);
      var (rest, n2) := Compiler.Related(w, rels[1..], f, t, n1);
      assert ([i] + rest)[1..] == rest;
      FreshUnion(Bound(i.query), BoundInItems(rest), n, n1, n2);
    }
  }

  lemma {:induction false} RelationshipFresh<V>(w: World<V>, r: Relationship<V>, f: Format, t: Compiler.Parent, n: nat)
    ensures var (i, n') := Compiler.RelationshipSubquery(w, r, f, t, n); i.Nested? && Fresh(Bound(i.query), n, n')
    decreases r, 0
  {
    hide Fresh;
    if !r.hidden || r.subquery.related == [] {
      SelectFresh(w, r.subquery, f, Some(Compiler.Correlation(t, r.parentField, r.childField)), n);
    } else {
      JunctionFresh(w, r, r.subquery.related[0], f, t, n);
    }
  }

  lemma {:induction false} JunctionFresh<V>(w: World<V>, r: Relationship<V>, last: Relationship<V>, f: Format,
                                           t: Compiler.Parent, n: nat)
    ensures var (q, n') := Compiler.Junction(w, r, last, f, t, n); Fresh(Bound(q), n, n')
    decreases last, 3
  {
    hide Fresh, BoundInAll, BoundInItems, Compiler.Related, Compiler.Condition, Compiler.ColumnItems, Compiler.Correlator,
         Compiler.AliasOf;
    var q := last.subquery;
    var t1, t2 := Compiler.EdgeTable(r, n), Compiler.FarTable(last, n);
    var (related, n1) := Compiler.Related(w, q.related, f, t2, n + 2);
    var (where, n2) := Compiler.Condition(w, q.where, t2, n1);
    var on := Compiler.Correlator<V>(w, t1, last.parentField, t2, last.childField);
    var correlate := Compiler.Correlator<V>(w, t, r.parentField, t1, r.childField);
    OneFresh(r.subquery.table, n);
    OneFresh(q.table, n + 1);
    RelatedFresh(w, q.related, f, t2, n + 2);
    ConditionFresh(w, q.where, t2, n1);
    ColumnsBind(w, w.columns(q.table), {}, t2);
    CorrelatorBinds(w, t1, last.parentField, t2, last.childField);
    CorrelatorBinds(w, t, r.parentField, t1, r.childField);
    BoundItemsJoin(related, Compiler.ColumnItems<V>(w, w.columns(q.table), {}, t2));
    BoundJoin(correlate, where);
    FreshUnion(multiset{t1.alias}, multiset{t2.alias}, n, n + 1, n + 2);
    FreshUnion(multiset{t1.alias} + multiset{t2.alias}, BoundInItems(related), n, n + 2, n1);
    FreshUnion(multiset{t1.alias} + multiset{t2.alias} + BoundInItems(related), BoundInAll(where), n, n1, n2);
    assert BoundInAll(correlate + where) == BoundInAll(where) && BoundInAll(on) == multiset{};
    assert Bound(Compiler.Junction(w, r, last, f, t, n).0)
        == multiset{t1.alias} + multiset{t2.alias} + BoundInItems(related) + BoundInAll(where);
  }

  // ----- meaning

  lemma {:induction false} AllOfJoin<V>(w: World<V>, a: seq<Pred<V>>, b: seq<Pred<V>>, e: Env<V>)
    ensures AllOf(w, a + b, e) == And3(AllOf(w, a, e), AllOf(w, b, e))
  {
    if a == [] {
      assert a + b == b;
    } else {
      assert (a + b)[1..] == a[1..] + b;
      AllOfJoin(w, a[1..], b, e);
    }
  }

  lemma {:induction false} CorrelatorMeans<V>(w: World<V>, p: Compiler.Parent, pf: seq<string>, c: Compiler.Parent,
                                             cf: seq<string>, e: Env<V>)
    ensures AllOf(w, Compiler.Correlator(w, p, pf, c, cf), e)
         == Correlated(w, p.table, e(p.alias), c.table, e(c.alias), pf, cf)
  {
    if pf != [] && cf != [] {
      CorrelatorMeans(w, p, pf[1..], c, cf[1..], e);
      var ps := Compiler.Correlator(w, p, pf, c, cf);
      assert ps[1..] == Compiler.Correlator(w, p, pf[1..], c, cf[1..]);
    }
  }

  /** The environments bind `alias` to the rows, one after the other. */
  ghost predicate Shows<V>(es: seq<Env<V>>, alias: string, rows: seq<Row<V>>) {
    |es| == |rows| && forall i :: 0 <= i < |es| ==> es[i](alias) == rows[i]
  }

  lemma {:induction false} OrderKeysMean<V>(w: World<V>, o: seq<(string, bool)>, t: Compiler.Parent, e: Env<V>)
    ensures OrderKey(Compiler.OrderBy(w, o, t), e) == KeyOf(w, o, t.table, e(t.alias))
    ensures OrderDirections(Compiler.OrderBy(w, o, t)) == Directions(o)
  {
    if o != [] { OrderKeysMean(w, o[1..], t, e); }
  }

  lemma {:induction false} AllOrderKeysMean<V>(w: World<V>, o: seq<(string, bool)>, t: Compiler.Parent, es: seq<Env<V>>,
                                               rows: seq<Row<V>>)
    requires Shows(es, t.alias, rows)
    ensures OrderKeys(Compiler.OrderBy(w, o, t), es) == KeysOf(w, o, t.table, rows)
  {
    if es != [] {
      OrderKeysMean(w, o, t, es[0]);
      AllOrderKeysMean(w, o, t, es[1..], rows[1..]);
    }
  }

  lemma {:induction false} PickShows<V>(es: seq<Env<V>>, alias: string, rows: seq<Row<V>>, indices: seq<nat>)
    requires Shows(es, alias, rows)
    ensures Shows(Pick(es, indices), alias, Pick(rows, indices))
  {
    if indices != [] { PickShows(es, alias, rows, indices[1..]); }
  }

  /** ORDER BY picks the same rows on both sides. */
  lemma OrderedShows<V>(w: World<V>, o: Option<seq<(string, bool)>>, t: Compiler.Parent, es: seq<Env<V>>, rows: seq<Row<V>>)
    requires Shows(es, t.alias, rows)
    ensures Shows(Ordered(w, Compiler.Order(w, o, t), es), t.alias, InOrder(w, o, t.table, rows))
  {
    if o.Some? {
      AllOrderKeysMean(w, o.value, t, es, rows);
      if es == [] {
        assert OrderDirections(Compiler.OrderBy(w, o.value, t)) == Directions(o.value) by { DirectionsMean(w, o.value, t); }
      } else {
        OrderKeysMean(w, o.value, t, es[0]);
      }
      PickShows(es, t.alias, rows, w.arrange(KeysOf(w, o.value, t.table, rows), Directions(o.value)));
    }
  }

  lemma {:induction false} DirectionsMean<V>(w: World<V>, o: seq<(string, bool)>, t: Compiler.Parent)
    ensures OrderDirections(Compiler.OrderBy(w, o, t)) == Directions(o)
  {
    if o != [] { DirectionsMean(w, o[1..], t); }
  }

  /** At most the first row, for a relationship to a single row. */
  function First<A>(singular: bool, rows: seq<A>): seq<A> {
    if singular && rows != [] then [rows[0]] else rows
  }

  /** `limit` cuts to the query's limit, and for a single row to one. */
  lemma LimitMeans<V>(limit: Option<nat>, singular: bool, es: seq<Env<V>>, alias: string, rows: seq<Row<V>>)
    requires Shows(es, alias, rows)
    ensures Shows(Take(es, Compiler.Limit(limit, singular)), alias, First(singular, Take(rows, limit)))
  {
  }

  /** The correlation of a compiled query agrees with the link of the query, and its alias is an earlier one. */
  ghost predicate Fits<V>(c: Option<Compiler.Correlation>, link: Option<Link<V>>, e: Env<V>, n: nat) {
    && (c.None? <==> link.None?)
    && (c.Some? ==>
          && c.value.parent.table == link.value.parentTable && e(c.value.parent.alias) == link.value.parent
          && c.value.parentField == link.value.parentField && c.value.childField == link.value.childField
          && Made(c.value.parent.alias, 0, n))
  }

  ghost function LinkPreds<V>(w: World<V>, c: Option<Compiler.Correlation>, t: Compiler.Parent): seq<Pred<V>> {
    if c.None? then [] else Compiler.Correlator(w, c.value.parent, c.value.parentField, t, c.value.childField)
  }

  /** Binding a new alias leaves the earlier one alone: nothing is captured. */
  lemma NotCaptured<V>(e: Env<V>, a: string, table: string, n: nat, row: Row<V>)
    requires Made(a, 0, n)
    ensures Bind(e, Compiler.AliasOf(table, n), row)(a) == e(a)
  {
    assert Made(Compiler.AliasOf(table, n), n, n + 1);
    MadeApart(a, Compiler.AliasOf(table, n), 0, n, n + 1);
  }

  lemma LinkMeans<V>(w: World<V>, c: Option<Compiler.Correlation>, link: Option<Link<V>>, t: Compiler.Parent, n: nat,
                     e: Env<V>, row: Row<V>)
    requires Fits(c, link, e, n) && t.alias == Compiler.AliasOf(t.table, n)
    ensures AllOf(w, LinkPreds(w, c, t), Bind(e, t.alias, row)) == Linked(w, link, t.table, row)
  {
    if c.Some? {
      NotCaptured(e, c.value.parent.alias, t.table, n, row);
      CorrelatorMeans(w, c.value.parent, c.value.parentField, t, c.value.childField, Bind(e, t.alias, row));
    }
  }

  lemma TermMeans<V>(w: World<V>, o: Operand<V>, t: Compiler.Parent, e: Env<V>)
    ensures TermOf(e, Compiler.Compared(w, o, t)) == ValueOf(w, o, t.table, e(t.alias))
  {
  }

  lemma AliasIsMade(t: string, n: nat, hi: nat)
    requires n < hi
    ensures Made(Compiler.AliasOf(t, n), 0, hi)
  {
  }

  /** A compiled condition has the truth value of the condition. */
  lemma {:induction false} WhereMeans<V>(w: World<V>, c: Condition<V>, t: Compiler.Parent, n: nat, e: Env<V>)
    requires PlainCondition(w, c) && Made(t.alias, 0, n)
    ensures Check(w, Compiler.WhereOf(w, c, t, n).0, e) == Truth(w, c, t.table, e(t.alias))
    decreases c, 0, 0
  {
    hide Selected, Rows, Compiler.Select, AllOf, AnyOf, All, Any, Compiler.WhereAll, PlainConditions, Made;
    match c
    case Simple(_, l, r) =>
      TermMeans(w, l, t, e);
      TermMeans(w, r, t, e);
    case And(cs) => WhereAllMeans(w, cs, t, n, e);
    case Or(cs) => WhereAllMeans(w, cs, t, n, e);
    case Exists(_, rel) =>
      var link := Some(Link(t.table, e(t.alias), rel.parentField, rel.childField));
      SelectRows(w, rel.subquery, NoFormat, Some(Compiler.Correlation(t, rel.parentField, rel.childField)), n, e, link);
  }

  lemma {:induction false} WhereAllMeans<V>(w: World<V>, cs: seq<Condition<V>>, t: Compiler.Parent, n: nat, e: Env<V>)
    requires PlainConditions(w, cs) && Made(t.alias, 0, n)
    ensures AllOf(w, Compiler.WhereAll(w, cs, t, n).0, e) == All(w, cs, t.table, e(t.alias))
    ensures AnyOf(w, Compiler.WhereAll(w, cs, t, n).0, e) == Any(w, cs, t.table, e(t.alias))
    decreases cs, 0, 0
  {
    if cs != [] {
      WhereMeans(w, cs[0], t, n, e);
      var (p, n1) := Compiler.WhereOf(w, cs[0], t, n);
      MadeWider(t.alias, 0, n, 0, n1);
      WhereAllMeans(w, cs[1..], t, n1, e);
      var ps := Compiler.WhereAll(w, cs[1..], t, n1).0;
      assert ([p] + ps)[1..] == ps;
    }
  }

  lemma {:induction false} ConditionMeans<V>(w: World<V>, c: Option<Condition<V>>, t: Compiler.Parent, n: nat, e: Env<V>)
    requires (c.Some? ==> PlainCondition(w, c.value)) && Made(t.alias, 0, n)
    ensures AllOf(w, Compiler.Condition(w, c, t, n).0, e) == if c.Some? then Truth(w, c.value, t.table, e(t.alias)) else T
    decreases c, 1, 0
  {
    if c.Some? {
      WhereMeans(w, c.value, t, n, e);
      var p := Compiler.WhereOf(w, c.value, t, n).0;
      assert [p][1..] == [];
      assert AllOf(w, [p], e) == And3(Check(w, p, e), T);
    }
  }

  /** WHERE keeps the bindings of exactly the rows that the query keeps. */
  lemma {:induction false} WhereKeeps<V>(w: World<V>, where: Option<Condition<V>>, c: Option<Compiler.Correlation>,
                                         link: Option<Link<V>>, t: Compiler.Parent, n: nat, n1: nat, e: Env<V>,
                                         rows: seq<Row<V>>)
    requires (where.Some? ==> PlainCondition(w, where.value)) && Fits(c, link, e, n) && n < n1
    requires t.alias == Compiler.AliasOf(t.table, n)
    ensures Shows(Where(w, Compiler.Condition(w, where, t, n1).0 + LinkPreds(w, c, t), BindEach(e, t.alias, rows)), t.alias,
                  Keep(w, where, link, t.table, rows))
    decreases where, 2, |rows|
  {
    if rows != [] {
      var e' := Bind(e, t.alias, rows[0]);
      var ps := Compiler.Condition(w, where, t, n1).0;
      AliasIsMade(t.table, n, n1);
      ConditionMeans(w, where, t, n1, e');
      LinkMeans(w, c, link, t, n, e, rows[0]);
      AllOfJoin(w, ps, LinkPreds(w, c, t), e');
      WhereKeeps(w, where, c, link, t, n, n1, e, rows[1..]);
      assert BindEach(e, t.alias, rows)[1..] == BindEach(e, t.alias, rows[1..]);
    }
  }

  /** A compiled query binds its alias to the rows that the query selects. */
  lemma {:induction false} SelectRows<V>(w: World<V>, q: Ast<V>, f: Format, c: Option<Compiler.Correlation>, n: nat, e: Env<V>,
                                        link: Option<Link<V>>)
    requires Plain(w, q) && Fits(c, link, e, n)
    ensures Shows(Rows(w, Compiler.Select(w, q, f, c, n).0, e), Compiler.AliasOf(q.table, n),
                  First(Singular(f), Selected(w, q, link)))
    decreases q, 2, 0
  {
    hide Compiler.Related, Compiler.ColumnItems, Compiler.Condition, Where, Keep, Ordered, InOrder, Shows, Take, Compiler.AliasOf,
         Fits;
    var t := Compiler.Parent(q.table, Compiler.AliasOf(q.table, n));
    var n1 := Compiler.Related(w, q.related, f, t, n + 1).1;
    var rows := w.tables(w.tableName(q.table));
    WhereKeeps(w, q.where, c, link, t, n, n1, e, rows);
    var es := Where(w, Compiler.Condition(w, q.where, t, n1).0 + LinkPreds(w, c, t), BindEach(e, t.alias, rows));
    var kept := Keep(w, q.where, link, q.table, rows);
    OrderedShows(w, q.orderBy, t, es, kept);
    LimitMeans(q.limit, Singular(f), Ordered(w, Compiler.Order(w, q.orderBy, t), es), t.alias,
               InOrder(w, q.orderBy, q.table, kept));
  }

  lemma {:induction false} OutputJoin<V>(w: World<V>, a: seq<Item<V>>, b: seq<Item<V>>, e: Env<V>)
    ensures OutputRow(w, a + b, e) == OutputRow(w, a, e) + OutputRow(w, b, e)
  {
    hide OutputValue;
    if a == [] {
      assert a + b == b;
      assert OutputRow(w, a, e) + OutputRow(w, b, e) == OutputRow(w, b, e);
    } else {
      assert (a + b)[1..] == a[1..] + b;
      OutputJoin(w, a[1..], b, e);
      PlusAssoc(map[a[0].name := OutputValue(w, a[0], e)], OutputRow(w, a[1..], e), OutputRow(w, b, e));
    }
  }

  lemma PlusAssoc<A, B>(x: map<A, B>, y: map<A, B>, z: map<A, B>)
    ensures x + (y + z) == (x + y) + z
  {
  }

  /** The columns that are selected: those whose names are not used otherwise. */
  lemma {:induction false} ColumnsMean<V>(w: World<V>, columns: seq<string>, used: set<string>, t: Compiler.Parent, e: Env<V>)
    ensures OutputRow(w, Compiler.ColumnItems(w, columns, used, t), e) == ColumnsOf(w, t.table, e(t.alias), columns) - used
  {
    if columns != [] {
      ColumnsMean(w, columns[1..], used, t, e);
      var rest := Compiler.ColumnItems<V>(w, columns[1..], used, t);
      var items := Compiler.ColumnItems<V>(w, columns, used, t);
      MinusUsed(columns[0], Scalar(Field(w, t.table, e(t.alias), columns[0])),
                ColumnsOf(w, t.table, e(t.alias), columns[1..]), used);
      if columns[0] in used {
        assert items == rest;
      } else {
        assert items[0] == Output(Compiler.Ident(w, t, columns[0]), columns[0]) && items[1..] == rest;
      }
    }
  }

  lemma MinusUsed<A>(k: string, v: A, m: map<string, A>, used: set<string>)
    ensures (map[k := v] + m) - used == if k in used then m - used else map[k := v] + (m - used)
  {
  }

  lemma {:induction false} RelatedNames<V>(w: World<V>, rels: seq<Relationship<V>>, f: Format, table: string, row: Row<V>)
    ensures RelatedOf(w, rels, f, table, row).Keys == Compiler.AliasesUsed(rels)
  {
    hide RelationshipOf;
    if rels != [] {
      RelatedNames(w, rels[1..], f, table, row);
      assert rels == [rels[0]] + rels[1..];
      forall a ensures a in Compiler.AliasesUsed(rels) <==> a == rels[0].alias || a in Compiler.AliasesUsed(rels[1..]) {
        if a in Compiler.AliasesUsed(rels[1..]) {
          var i :| 0 <= i < |rels[1..]| && rels[1..][i].alias == a;
          assert rels[i + 1].alias == a;
        }
        if a in Compiler.AliasesUsed(rels) && a != rels[0].alias {
          var i :| 0 <= i < |rels| && rels[i].alias == a;
          assert rels[1..][i - 1].alias == a;
        }
      }
    }
  }

  lemma {:induction false} ColumnNames<V>(w: World<V>, table: string, row: Row<V>, columns: seq<string>)
    ensures forall a :: a in ColumnsOf(w, table, row, columns) <==> a in columns
    ensures forall a :: a in columns ==> ColumnsOf(w, table, row, columns)[a] == Scalar(Field(w, table, row, a))
  {
    if columns != [] {
      ColumnNames(w, table, row, columns[1..]);
      assert columns == [columns[0]] + columns[1..];
    }
  }

  /** The items of a query are its columns and its relationships, which win over columns of the same name. */
  lemma ItemsMean<V>(w: World<V>, q: Ast<V>, f: Format, t: Compiler.Parent, related: seq<Item<V>>, used: set<string>, e: Env<V>)
    requires OutputRow(w, related, e) == RelatedOf(w, q.related, f, q.table, e(t.alias)) && t.table == q.table
    requires used == Compiler.AliasesUsed(q.related) || (used == {} && NoClash(w, q))
    ensures OutputRow(w, related + Compiler.ColumnItems(w, w.columns(q.table), used, t), e)
         == ColumnsOf(w, q.table, e(t.alias), w.columns(q.table)) + RelatedOf(w, q.related, f, q.table, e(t.alias))
  {
    hide RelatedOf, OutputRow, ColumnsOf, Compiler.ColumnItems;
    OutputJoin(w, related, Compiler.ColumnItems(w, w.columns(q.table), used, t), e);
    ColumnsMean(w, w.columns(q.table), used, t, e);
    RelatedNames(w, q.related, f, q.table, e(t.alias));
    ColumnNames(w, q.table, e(t.alias), w.columns(q.table));
    Disjointly(ColumnsOf(w, q.table, e(t.alias), w.columns(q.table)), RelatedOf(w, q.related, f, q.table, e(t.alias)), used);
  }

  lemma Disjointly<A, B>(columns: map<A, B>, related: map<A, B>, used: set<A>)
    requires used == related.Keys || (used == {} && columns.Keys !! related.Keys)
    ensures related + (columns - used) == columns + related
  {
  }

  lemma {:induction false} RelatedIsNested<V>(w: World<V>, rels: seq<Relationship<V>>, f: Format, table: string, row: Row<V>)
    ensures forall a :: a in RelatedOf(w, rels, f, table, row) ==> !RelatedOf(w, rels, f, table, row)[a].Scalar?
  {
    hide RelationshipOf, FormatOf;
    if rels != [] {
      RelatedIsNested(w, rels[1..], f, table, row);
      NestedValue(w, rels[0], FormatOf(f, rels[0].alias), table, row);
    }
  }

  lemma NestedValue<V>(w: World<V>, r: Relationship<V>, f: Format, table: string, row: Row<V>)
    ensures !RelationshipOf(w, r, f, table, row).Scalar?
  {
    hide Details, Edges, Reached, Take, InOrder, Zql.From, Selected;
  }

  /** Where columns come after the relationships without regard to names, a row is right exactly if no name occurs twice. */
  lemma ClashLosesRelationship<V>(w: World<V>, q: Ast<V>, f: Format, t: Compiler.Parent, related: seq<Item<V>>, e: Env<V>)
    requires OutputRow(w, related, e) == RelatedOf(w, q.related, f, q.table, e(t.alias)) && t.table == q.table
    ensures OutputRow(w, related + Compiler.ColumnItems(w, w.columns(q.table), {}, t), e)
         == ColumnsOf(w, q.table, e(t.alias), w.columns(q.table)) + RelatedOf(w, q.related, f, q.table, e(t.alias))
       <==> NoClash(w, q)
  {
    hide RelatedOf, OutputRow, ColumnsOf, Compiler.ColumnItems;
    var columns := w.columns(q.table);
    if NoClash(w, q) {
      ItemsMean(w, q, f, t, related, {}, e);
    } else {
      var i :| 0 <= i < |q.related| && q.related[i].alias in columns;
      var name := q.related[i].alias;
      OutputJoin(w, related, Compiler.ColumnItems(w, columns, {}, t), e);
      ColumnsMean(w, columns, {}, t, e);
      ColumnNames(w, q.table, e(t.alias), columns);
      RelatedNames(w, q.related, f, q.table, e(t.alias));
      RelatedIsNested(w, q.related, f, q.table, e(t.alias));
      assert name in Compiler.AliasesUsed(q.related);
      assert OutputRow(w, related + Compiler.ColumnItems(w, columns, {}, t), e)[name].Scalar?;
    }
  }

  /** Row by row, the output of the items is what the query says about the row. */
  lemma {:induction false} OutputsMean<V>(w: World<V>, q: Ast<V>, f: Format, t: Compiler.Parent, n: nat, used: set<string>,
                                          es: seq<Env<V>>, rows: seq<Row<V>>)
    requires PlainRelated(w, q.related) && Shows(es, t.alias, rows) && t.table == q.table && Made(t.alias, 0, n)
    requires used == Compiler.AliasesUsed(q.related) || (used == {} && NoClash(w, q))
    ensures Outputs(w, Compiler.Related(w, q.related, f, t, n).0 + Compiler.ColumnItems(w, w.columns(q.table), used, t), es)
         == Details(w, q, f, rows)
    decreases q, 3, |rows|
  {
    hide RelatedOf, OutputRow, ColumnsOf, Compiler.ColumnItems, Compiler.Related, Made, NoClash, PlainRelated;
    if rows != [] {
      RelatedMeans(w, q.related, f, t, n, es[0]);
      ItemsMean(w, q, f, t, Compiler.Related(w, q.related, f, t, n).0, used, es[0]);
      OutputsMean(w, q, f, t, n, used, es[1..], rows[1..]);
    }
  }

  lemma {:induction false} RelatedMeans<V>(w: World<V>, rels: seq<Relationship<V>>, f: Format, t: Compiler.Parent, n: nat,
                                           e: Env<V>)
    requires PlainRelated(w, rels) && Made(t.alias, 0, n)
    ensures OutputRow(w, Compiler.Related(w, rels, f, t, n).0, e) == RelatedOf(w, rels, f, t.table, e(t.alias))
    decreases rels, 0, 0
  {
    hide RelationshipOf, Made, PlainRelationship, Compiler.RelationshipSubquery;
    if rels != [] {
      var g := FormatOf(f, rels[0].alias);
      RelationshipMeans(w, rels[0], g, t, n, e);
      var (i, n1) := Compiler.RelationshipSubquery(w, rels[0], g, t, n);
      MadeWider(t.alias, 0, n, 0, n1);
      RelatedMeans(w, rels[1..], f, t, n1, e);
      var rest := Compiler.Related(w, rels[1..], f, t, n1).0;
      assert ([i] + rest)[1..] == rest;
    }
  }

  /** The same for the items of a junction: right exactly if no name occurs twice, or there is no row. */
  lemma OutputsExactly<V>(w: World<V>, q: Ast<V>, f: Format, t: Compiler.Parent, n: nat, es: seq<Env<V>>, rows: seq<Row<V>>)
    requires PlainRelated(w, q.related) && Shows(es, t.alias, rows) && t.table == q.table && Made(t.alias, 0, n)
    ensures Outputs(w, Compiler.Related(w, q.related, f, t, n).0 + Compiler.ColumnItems(w, w.columns(q.table), {}, t), es)
         == Details(w, q, f, rows)
       <==> NoClash(w, q) || rows == []
    decreases q, 5, |rows|
  {
    hide RelatedOf, OutputRow, ColumnsOf, Compiler.ColumnItems, Compiler.Related, Made, NoClash, PlainRelated;
    if NoClash(w, q) {
      OutputsMean(w, q, f, t, n, {}, es, rows);
    } else if rows != [] {
      RelatedMeans(w, q.related, f, t, n, es[0]);
      ClashLosesRelationship(w, q, f, t, Compiler.Related(w, q.related, f, t, n).0, es[0]);
      assert Details(w, q, f, rows)[0]
          == ColumnsOf(w, q.table, rows[0], w.columns(q.table)) + RelatedOf(w, q.related, f, q.table, rows[0]);
    }
  }

  /** One row or all rows, cut to one or not: the nested value is the shaped result. */
  lemma AggregateMeans<V>(w: World<V>, q: Ast<V>, f: Format, singular: bool, rows: seq<Row<V>>)
    ensures Aggregate(singular, Details(w, q, f, First(singular, rows))) == Shaped(singular, Details(w, q, f, rows))
  {
    hide ColumnsOf, RelatedOf;
    if singular && rows != [] {
      assert [rows[0]][1..] == [];
    }
  }

  lemma PlainParts<V>(w: World<V>, q: Ast<V>)
    requires Plain(w, q)
    ensures q.start.None? && (q.where.Some? ==> PlainCondition(w, q.where.value)) && PlainRelated(w, q.related)
  {
  }

  lemma PlainEdges<V>(w: World<V>, q: Ast<V>, link: Option<Link<V>>)
    requires q.where.None? && q.start.None? && q.limit.None?
    ensures Edges(w, q, link) == Keep(w, None, link, q.table, w.tables(w.tableName(q.table)))
  {
  }

  /** A compiled relationship is the relationship of the row that the parent's alias stands for. */
  lemma {:induction false} RelationshipMeans<V>(w: World<V>, r: Relationship<V>, f: Format, t: Compiler.Parent, n: nat, e: Env<V>)
    requires PlainRelationship(w, r) && Made(t.alias, 0, n)
    ensures OutputValue(w, Compiler.RelationshipSubquery(w, r, f, t, n).0, e) == RelationshipOf(w, r, f, t.table, e(t.alias))
    decreases r, 0, 0
  {
    hide Made, Result, Details, Compiler.Select, Compiler.Junction, Eval, Plain, NoClash, InOrder, Reached, Edges, Keep, Take,
         PlainRelated, PlainCondition;
    if !r.hidden {
      var link := Some(Link(t.table, e(t.alias), r.parentField, r.childField));
      SelectMeans(w, r.subquery, f, Some(Compiler.Correlation(t, r.parentField, r.childField)), n, e, link);
    } else {
      PlainParts(w, r.subquery.related[0].subquery);
      PlainEdges(w, r.subquery, LinkTo(t.table, e(t.alias), r));
      JunctionMeans(w, r, r.subquery.related[0], f, t, n, e);
    }
  }

  /**
   The main theorem: whatever the enclosing aliases stand for, a compiled query evaluates to what the query means, in the
   context of the row that its correlation refers to.
   */
  lemma {:induction false} SelectMeans<V>(w: World<V>, q: Ast<V>, f: Format, c: Option<Compiler.Correlation>, n: nat, e: Env<V>,
                                         link: Option<Link<V>>)
    requires Plain(w, q) && Fits(c, link, e, n)
    ensures Eval(w, Compiler.Select(w, q, f, c, n).0, Singular(f), e) == Result(w, q, f, link)
    decreases q, 4, 0
  {
    hide Compiler.Related, Compiler.ColumnItems, Compiler.Condition, Rows, Selected, Details, Outputs, Compiler.AliasOf, Fits,
         Compiler.AliasesUsed;
    var t := Compiler.Parent(q.table, Compiler.AliasOf(q.table, n));
    SelectRows(w, q, f, c, n, e, link);
    AliasIsMade(q.table, n, n + 1);
    OutputsMean(w, q, f, t, n + 1, Compiler.AliasesUsed(q.related), Rows(w, Compiler.Select(w, q, f, c, n).0, e),
                First(Singular(f), Selected(w, q, link)));
    AggregateMeans(w, q, f, Singular(f), Selected(w, q, link));
  }

  // ----- junction edges

  lemma {:induction false} WhereJoin<V>(w: World<V>, ps: seq<Pred<V>>, a: seq<Env<V>>, b: seq<Env<V>>)
    ensures Where(w, ps, a + b) == Where(w, ps, a) + Where(w, ps, b)
    decreases |a|
  {
    if a == [] {
      assert a + b == b;
    } else {
      assert (a + b)[1..] == a[1..] + b;
      WhereJoin(w, ps, a[1..], b);
    }
  }

  ghost function On<V>(w: World<V>, r: Relationship<V>, last: Relationship<V>, n: nat): seq<Pred<V>> {
    Compiler.Correlator(w, Compiler.EdgeTable(r, n), last.parentField, Compiler.FarTable(last, n), last.childField)
  }

  ghost function Toward<V>(w: World<V>, r: Relationship<V>, t: Compiler.Parent, n: nat): seq<Pred<V>> {
    Compiler.Correlator(w, t, r.parentField, Compiler.EdgeTable(r, n), r.childField)
  }

  ghost function Far<V>(w: World<V>, last: Relationship<V>, n: nat, n1: nat): seq<Pred<V>> {
    Compiler.Condition(w, last.subquery.where, Compiler.FarTable(last, n), n1).0
  }

  function LinkTo<V>(table: string, row: Row<V>, r: Relationship<V>): Option<Link<V>> {
    Some(Link(table, row, r.parentField, r.childField))
  }

  ghost predicate PlainFar<V>(w: World<V>, last: Relationship<V>) {
    last.subquery.where.Some? ==> PlainCondition(w, last.subquery.where.value)
  }

  /** The predicates of a junction query, for one pair of rows. */
  lemma PairMeans<V>(w: World<V>, r: Relationship<V>, last: Relationship<V>, t: Compiler.Parent, n: nat, n1: nat, e: Env<V>,
                     x: Row<V>, y: Row<V>, e2: Env<V>)
    requires PlainFar(w, last) && n + 2 <= n1 && Made(t.alias, 0, n)
    requires e2 == Bind(Bind(e, Compiler.EdgeTable(r, n).alias, x), Compiler.FarTable(last, n).alias, y)
    ensures AllOf(w, On(w, r, last, n), e2) == Linked(w, LinkTo(r.subquery.table, x, last), last.subquery.table, y)
    ensures AllOf(w, Toward(w, r, t, n), e2) == Linked(w, LinkTo(t.table, e(t.alias), r), r.subquery.table, x)
    ensures AllOf(w, Far(w, last, n, n1), e2)
         == (if last.subquery.where.Some? then Truth(w, last.subquery.where.value, last.subquery.table, y) else T)
    ensures e2(Compiler.FarTable(last, n).alias) == y
    decreases last, 1, 0
  {
    hide Made, Compiler.AliasOf, Compiler.Correlator, Correlated, Compiler.Condition, PlainCondition, Truth;
    var t1, t2 := Compiler.EdgeTable(r, n), Compiler.FarTable(last, n);
    var e1 := Bind(e, t1.alias, x);
    NotCaptured(e, t.alias, t1.table, n, x);
    MadeWider(t.alias, 0, n, 0, n + 1);
    NotCaptured(e1, t.alias, t2.table, n + 1, y);
    AliasIsMade(t1.table, n, n + 1);
    NotCaptured(e1, t1.alias, t2.table, n + 1, y);
    AliasIsMade(t2.table, n + 1, n1);
    CorrelatorMeans(w, t1, last.parentField, t2, last.childField, e2);
    CorrelatorMeans(w, t, r.parentField, t1, r.childField, e2);
    ConditionMeans(w, last.subquery.where, t2, n1, e2);
  }

  lemma OnePair<V>(w: World<V>, r: Relationship<V>, last: Relationship<V>, t: Compiler.Parent, n: nat, n1: nat, e: Env<V>,
                   x: Row<V>, y: Row<V>, e2: Env<V>)
    requires PlainFar(w, last) && n + 2 <= n1 && Made(t.alias, 0, n)
    requires e2 == Bind(Bind(e, Compiler.EdgeTable(r, n).alias, x), Compiler.FarTable(last, n).alias, y)
    ensures Shows(Where(w, Toward(w, r, t, n) + Far(w, last, n, n1), Where(w, On(w, r, last, n), [e2])),
                  Compiler.FarTable(last, n).alias,
                  if Linked(w, LinkTo(t.table, e(t.alias), r), r.subquery.table, x) == T then
                    Keep(w, last.subquery.where, LinkTo(r.subquery.table, x, last), last.subquery.table, [y])
                  else [])
    decreases last, 2, 0
  {
    hide Made, Compiler.EdgeTable, Compiler.FarTable, On, Toward, Far, Linked, Truth, AllOf, PlainFar, LinkTo, Bind;
    PairMeans(w, r, last, t, n, n1, e, x, y, e2);
    AllOfJoin(w, Toward(w, r, t, n), Far(w, last, n, n1), e2);
    OnlyOne(w, On(w, r, last, n), e2);
    OnlyOne(w, Toward(w, r, t, n) + Far(w, last, n, n1), e2);
    assert [y][1..] == [];
  }

  lemma WhereTwice<V>(w: World<V>, outer: seq<Pred<V>>, inner: seq<Pred<V>>, e: Env<V>, rest: seq<Env<V>>)
    ensures Where(w, outer, Where(w, inner, [e] + rest))
         == Where(w, outer, Where(w, inner, [e])) + Where(w, outer, Where(w, inner, rest))
  {
    hide Where;
    WhereJoin(w, inner, [e], rest);
    WhereJoin(w, outer, Where(w, inner, [e]), Where(w, inner, rest));
  }

  lemma {:induction false} KeepStep<V>(w: World<V>, c: Option<Condition<V>>, link: Option<Link<V>>, table: string, y: Row<V>,
                                       rows: seq<Row<V>>)
    ensures Keep(w, c, link, table, [y] + rows) == Keep(w, c, link, table, [y]) + Keep(w, c, link, table, rows)
  {
    hide Truth, Linked;
    assert ([y] + rows)[1..] == rows && [y][1..] == [];
  }

  /** Behind one edge: the pairs that survive ON and WHERE are the rows that the second hop leads to. */
  lemma {:induction false} BehindEdge<V>(w: World<V>, r: Relationship<V>, last: Relationship<V>, t: Compiler.Parent, n: nat,
                                         n1: nat, e: Env<V>, x: Row<V>, e1: Env<V>, rows: seq<Row<V>>)
    requires PlainFar(w, last) && n + 2 <= n1 && Made(t.alias, 0, n) && e1 == Bind(e, Compiler.EdgeTable(r, n).alias, x)
    ensures Shows(Where(w, Toward(w, r, t, n) + Far(w, last, n, n1),
                        Where(w, On(w, r, last, n), BindEach(e1, Compiler.FarTable(last, n).alias, rows))),
                  Compiler.FarTable(last, n).alias,
                  if Linked(w, LinkTo(t.table, e(t.alias), r), r.subquery.table, x) == T then
                    Keep(w, last.subquery.where, LinkTo(r.subquery.table, x, last), last.subquery.table, rows)
                  else [])
    decreases last, 3, |rows|
  {
    hide Made, Compiler.EdgeTable, Compiler.FarTable, On, Toward, Far, Linked, Truth, AllOf, PlainFar, LinkTo, Bind;
    if rows != [] {
      var far := Compiler.FarTable(last, n).alias;
      var e2 := Bind(e1, far, rows[0]);
      var rest := BindEach(e1, far, rows[1..]);
      assert BindEach(e1, far, rows) == [e2] + rest;
      BehindEdgeStep(w, r, last, t, n, n1, e, x, e1, rows[0], rows[1..], e2, rest);
      assert rows == [rows[0]] + rows[1..];
    }
  }

  lemma BehindEdgeStep<V>(w: World<V>, r: Relationship<V>, last: Relationship<V>, t: Compiler.Parent, n: nat, n1: nat, e: Env<V>,
                          x: Row<V>, e1: Env<V>, y: Row<V>, rows: seq<Row<V>>, e2: Env<V>, rest: seq<Env<V>>)
    requires PlainFar(w, last) && n + 2 <= n1 && Made(t.alias, 0, n) && e1 == Bind(e, Compiler.EdgeTable(r, n).alias, x)
    requires e2 == Bind(e1, Compiler.FarTable(last, n).alias, y)
    requires rest == BindEach(e1, Compiler.FarTable(last, n).alias, rows)
    ensures Shows(Where(w, Toward(w, r, t, n) + Far(w, last, n, n1), Where(w, On(w, r, last, n), [e2] + rest)),
                  Compiler.FarTable(last, n).alias,
                  if Linked(w, LinkTo(t.table, e(t.alias), r), r.subquery.table, x) == T then
                    Keep(w, last.subquery.where, LinkTo(r.subquery.table, x, last), last.subquery.table, [y] + rows)
                  else [])
    decreases last, 3, |rows| + 1, 0
  {
    hide Made, Compiler.EdgeTable, Compiler.FarTable, On, Toward, Far, Linked, Truth, AllOf, PlainFar, LinkTo, Bind, Where, Keep,
         Shows;
    var linked := Linked(w, LinkTo(t.table, e(t.alias), r), r.subquery.table, x) == T;
    var link := LinkTo(r.subquery.table, x, last);
    var q := last.subquery;
    BehindEdge(w, r, last, t, n, n1, e, x, e1, rows);
    OnePair(w, r, last, t, n, n1, e, x, y, e2);
    WhereTwice(w, Toward(w, r, t, n) + Far(w, last, n, n1), On(w, r, last, n), e2, rest);
    KeepStep(w, q.where, link, q.table, y, rows);
    ShowsJoin(Where(w, Toward(w, r, t, n) + Far(w, last, n, n1), Where(w, On(w, r, last, n), [e2])),
              Where(w, Toward(w, r, t, n) + Far(w, last, n, n1), Where(w, On(w, r, last, n), rest)),
              Compiler.FarTable(last, n).alias,
              if linked then Keep(w, q.where, link, q.table, [y]) else [],
              if linked then Keep(w, q.where, link, q.table, rows) else []);
  }

  lemma OnlyOne<V>(w: World<V>, ps: seq<Pred<V>>, e: Env<V>)
    ensures Where(w, ps, [e]) == if AllOf(w, ps, e) == T then [e] else []
  {
    assert [e][1..] == [];
  }

  lemma ShowsJoin<V>(a: seq<Env<V>>, b: seq<Env<V>>, alias: string, x: seq<Row<V>>, y: seq<Row<V>>)
    requires Shows(a, alias, x) && Shows(b, alias, y)
    ensures Shows(a + b, alias, x + y)
  {
  }

  /** Edge by edge: the join under WHERE is the list of rows behind the edges that the row leads to. */
  lemma {:induction false} BehindEdges<V>(w: World<V>, r: Relationship<V>, last: Relationship<V>, t: Compiler.Parent, n: nat,
                                          n1: nat, e: Env<V>, xs: seq<Row<V>>)
    requires PlainFar(w, last) && n + 2 <= n1 && Made(t.alias, 0, n)
    ensures Shows(Where(w, Toward(w, r, t, n) + Far(w, last, n, n1),
                        JoinEach(w, On(w, r, last, n), BindEach(e, Compiler.EdgeTable(r, n).alias, xs),
                                 Compiler.FarTable(last, n).alias, w.tables(w.tableName(last.subquery.table)))),
                  Compiler.FarTable(last, n).alias,
                  Reached(w, last, r.subquery.table,
                          Keep(w, None, LinkTo(t.table, e(t.alias), r), r.subquery.table, xs)))
    decreases last, 3, |xs|
  {
    hide Made, Compiler.EdgeTable, Compiler.FarTable, On, Toward, Far, Linked, AllOf, PlainFar, LinkTo, Where, Shows;
    var ps, on, far := Toward(w, r, t, n) + Far(w, last, n, n1), On(w, r, last, n), Compiler.FarTable(last, n).alias;
    var rows := w.tables(w.tableName(last.subquery.table));
    if xs == [] {
      Nowhere(w, ps, far);
    } else {
      var e1 := Bind(e, Compiler.EdgeTable(r, n).alias, xs[0]);
      BehindEdge(w, r, last, t, n, n1, e, xs[0], e1, rows);
      BehindEdges(w, r, last, t, n, n1, e, xs[1..]);
      var rest := BindEach(e, Compiler.EdgeTable(r, n).alias, xs[1..]);
      assert BindEach(e, Compiler.EdgeTable(r, n).alias, xs)[1..] == rest;
      WhereJoin(w, ps, Where(w, on, BindEach(e1, far, rows)), JoinEach(w, on, rest, far, rows));
      var reached := if Linked(w, LinkTo(t.table, e(t.alias), r), r.subquery.table, xs[0]) == T then
                       Keep(w, last.subquery.where, LinkTo(r.subquery.table, xs[0], last), last.subquery.table, rows)
                     else [];
      var later := Keep(w, None, LinkTo(t.table, e(t.alias), r), r.subquery.table, xs[1..]);
      ShowsJoin(Where(w, ps, Where(w, on, BindEach(e1, far, rows))), Where(w, ps, JoinEach(w, on, rest, far, rows)), far,
                reached, Reached(w, last, r.subquery.table, later));
      ReachedStep(w, r, last, LinkTo(t.table, e(t.alias), r), xs);
    }
  }

  lemma Nowhere<V>(w: World<V>, ps: seq<Pred<V>>, alias: string)
    ensures Shows(Where(w, ps, []), alias, [])
  {
  }

  lemma ReachedStep<V>(w: World<V>, r: Relationship<V>, last: Relationship<V>, link: Option<Link<V>>, xs: seq<Row<V>>)
    requires xs != []
    ensures Reached(w, last, r.subquery.table, Keep(w, None, link, r.subquery.table, xs))
         == (if Linked(w, link, r.subquery.table, xs[0]) == T then
               Keep(w, last.subquery.where, LinkTo(r.subquery.table, xs[0], last), last.subquery.table,
                    w.tables(w.tableName(last.subquery.table)))
             else [])
            + Reached(w, last, r.subquery.table, Keep(w, None, link, r.subquery.table, xs[1..]))
  {
    hide Linked;
    var later := Keep(w, None, link, r.subquery.table, xs[1..]);
    if Linked(w, link, r.subquery.table, xs[0]) == T {
      assert ([xs[0]] + later)[1..] == later;
    }
  }

  /** The rows that a junction edge leads to: the join of its two hops. */
  function Joined<V>(w: World<V>, r: Relationship<V>, last: Relationship<V>, table: string, row: Row<V>): seq<Row<V>> {
    var q := last.subquery;
    var edges := Keep(w, None, LinkTo(table, row, r), r.subquery.table, w.tables(w.tableName(r.subquery.table)));
    Take(InOrder(w, q.orderBy, q.table, Reached(w, last, r.subquery.table, edges)), q.limit)
  }

  lemma JunctionRows<V>(w: World<V>, r: Relationship<V>, last: Relationship<V>, f: Format, t: Compiler.Parent, n: nat, e: Env<V>)
    requires PlainFar(w, last) && Made(t.alias, 0, n)
    ensures Shows(Rows(w, Compiler.Junction(w, r, last, f, t, n).0, e), Compiler.FarTable(last, n).alias,
                  First(Singular(f), Joined(w, r, last, t.table, e(t.alias))))
    decreases last, 4, 0
  {
    hide Made, Compiler.AliasOf, Compiler.Related, Compiler.ColumnItems, NoClash, PlainRelated, Where, Keep, Reached, Shows,
         Ordered, InOrder, Take, Details, Outputs, Compiler.Condition, Compiler.Correlator, JoinEach, BindEach;
    var q := last.subquery;
    var t2 := Compiler.FarTable(last, n);
    var n1 := Compiler.Related(w, q.related, f, t2, n + 2).1;
    var xs := w.tables(w.tableName(r.subquery.table));
    BehindEdges(w, r, last, t, n, n1, e, xs);
    var es := Where(w, Toward(w, r, t, n) + Far(w, last, n, n1),
                    JoinEach(w, On(w, r, last, n), BindEach(e, Compiler.EdgeTable(r, n).alias, xs), t2.alias,
                             w.tables(w.tableName(q.table))));
    var edges := Keep(w, None, LinkTo(t.table, e(t.alias), r), r.subquery.table, xs);
    var reached := Reached(w, last, r.subquery.table, edges);
    OrderedShows(w, q.orderBy, t2, es, reached);
    LimitMeans(q.limit, Singular(f), Ordered(w, Compiler.Order(w, q.orderBy, t2), es), t2.alias,
               InOrder(w, q.orderBy, q.table, reached));
  }

  /**
   A compiled junction edge, whatever its own filter, order, limit and bound, is the join of its two hops, exactly if no
   relationship behind it has the name of a column or no row is handed out.
   */
  lemma {:induction false} JunctionMeans<V>(w: World<V>, r: Relationship<V>, last: Relationship<V>, f: Format,
                                           t: Compiler.Parent, n: nat, e: Env<V>)
    requires PlainFar(w, last) && PlainRelated(w, last.subquery.related) && Made(t.alias, 0, n)
    ensures var rows := Joined(w, r, last, t.table, e(t.alias));
      Eval(w, Compiler.Junction(w, r, last, f, t, n).0, Singular(f), e) == Shaped(Singular(f), Details(w, last.subquery, f, rows))
      <==> NoClash(w, last.subquery) || rows == []
    decreases last, 5, 0
  {
    hide Made, Compiler.AliasOf, Compiler.Related, Compiler.ColumnItems, NoClash, PlainRelated, Rows, Shows, Joined, Details,
         Outputs, Compiler.Condition, Compiler.Correlator, PlainFar;
    var q := last.subquery;
    var t2 := Compiler.FarTable(last, n);
    var rows := Joined(w, r, last, t.table, e(t.alias));
    JunctionRows(w, r, last, f, t, n, e);
    AliasIsMade(q.table, n + 1, n + 2);
    var es := Rows(w, Compiler.Junction(w, r, last, f, t, n).0, e);
    var items := Compiler.Related(w, q.related, f, t2, n + 2).0 + Compiler.ColumnItems(w, w.columns(q.table), {}, t2);
    OutputsExactly(w, q, f, t2, n + 2, es, First(Singular(f), rows));
    AggregateMeans(w, q, f, Singular(f), rows);
    assert Eval(w, Compiler.Junction(w, r, last, f, t, n).0, Singular(f), e) == Aggregate(Singular(f), Outputs(w, items, es));
    SameAggregate(w, items, q, f, Singular(f), es, First(Singular(f), rows), t2.alias);
  }

  lemma {:induction false} SameLengths<V>(w: World<V>, items: seq<Item<V>>, q: Ast<V>, f: Format, es: seq<Env<V>>,
                                          rows: seq<Row<V>>)
    requires |es| == |rows|
    ensures |Outputs(w, items, es)| == |Details(w, q, f, rows)| == |rows|
    decreases |rows|
  {
    hide OutputRow, ColumnsOf, RelatedOf;
    if rows != [] { SameLengths(w, items, q, f, es[1..], rows[1..]); }
  }

  lemma SameAggregate<V>(w: World<V>, items: seq<Item<V>>, q: Ast<V>, f: Format, singular: bool, es: seq<Env<V>>,
                         rows: seq<Row<V>>, alias: string)
    requires Shows(es, alias, rows) && (singular ==> |rows| <= 1)
    ensures Aggregate(singular, Outputs(w, items, es)) == Aggregate(singular, Details(w, q, f, rows))
       <==> Outputs(w, items, es) == Details(w, q, f, rows)
  {
    hide Outputs, Details;
    SameLengths(w, items, q, f, es, rows);
  }

  // ----- whole queries

  /** Compiling a query keeps its meaning. */
  lemma CompileMeans<V>(w: World<V>, q: Ast<V>, f: Format, e: Env<V>)
    requires Plain(w, q)
    ensures Eval(w, Compiler.Compile(w, q, f), Singular(f), e) == Result(w, q, f, None)
  {
    hide Compiler.Select, Eval, Result, Plain;
    SelectMeans(w, q, f, None, 0, e, None);
  }

  /** No alias is used twice in a compiled query. */
  lemma AliasesAreUnique<V>(w: World<V>, q: Ast<V>, f: Format, alias: string)
    ensures Bound(Compiler.Compile(w, q, f))[alias] <= 1
  {
    SelectFresh(w, q, f, None, 0);
    var b := Bound(Compiler.Compile(w, q, f));
    if alias in b {
      assert b[alias] == 1;
    }
  }
}
