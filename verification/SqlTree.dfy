/** SQL queries as trees, evaluated under an environment that binds the aliases of the enclosing queries. */
module SqlTree {
  import opened Wrappers
  import opened Zql

  datatype ColRef = ColRef(alias: string, column: string)

  datatype Term<+V> = Ref(ref: ColRef) | Const(value: V)

  datatype Pred<+V> =
    | Compare(op: string, left: Term<V>, right: Term<V>)
    | Equals(here: ColRef, there: ColRef)
    | AndP(preds: seq<Pred<V>>)
    | OrP(preds: seq<Pred<V>>)
    | ExistsP(negated: bool, query: Query<V>)

  datatype From = Table(name: string, alias: string) | Join(name: string, alias: string, name2: string, alias2: string)

  datatype Item<+V> = Output(ref: ColRef, name: string) | Nested(singular: bool, query: Query<V>, name: string)

  /** `on` belongs to the join, if there is one. */
  datatype Query<+V> = Select(items: seq<Item<V>>, from: From, on: seq<Pred<V>>, where: seq<Pred<V>>,
                              order: Option<seq<(ColRef, bool)>>, limit: Option<nat>)

  /** What the aliases stand for; an inner binding hides an outer one of the same name. */
  type Env<!V> = string -> Row<V>

  function Bind<V>(e: Env<V>, alias: string, row: Row<V>): Env<V> {
    x => if x == alias then row else e(x)
  }

  function Deref<V>(e: Env<V>, r: ColRef): V { e(r.alias)(r.column) }

  function TermOf<V>(e: Env<V>, t: Term<V>): V { if t.Ref? then Deref(e, t.ref) else t.value }

  function Check<V>(w: World<V>, p: Pred<V>, e: Env<V>): Tri
    decreases p, 0, 0
  {
    match p
    case Compare(op, l, r) => w.compare(op, TermOf(e, l), TermOf(e, r))
    case Equals(l, r) => w.equal(Deref(e, l), Deref(e, r))
    case AndP(ps) => AllOf(w, ps, e)
    case OrP(ps) => AnyOf(w, ps, e)
    case ExistsP(negated, q) => if (Rows(w, q, e) != []) != negated then T else F
  }

  function AllOf<V>(w: World<V>, ps: seq<Pred<V>>, e: Env<V>): Tri
    decreases ps, 0, 0
  {
    if ps == [] then T else And3(Check(w, ps[0], e), AllOf(w, ps[1..], e))
  }

  function AnyOf<V>(w: World<V>, ps: seq<Pred<V>>, e: Env<V>): Tri
    decreases ps, 0, 0
  {
    if ps == [] then F else Or3(Check(w, ps[0], e), AnyOf(w, ps[1..], e))
  }

  function Where<V>(w: World<V>, ps: seq<Pred<V>>, es: seq<Env<V>>): seq<Env<V>>
    decreases ps, 1, |es|
  {
    if es == [] then [] else
      (if AllOf(w, ps, es[0]) == T then [es[0]] else []) + Where(w, ps, es[1..])
  }

  function BindEach<V>(e: Env<V>, alias: string, rows: seq<Row<V>>): seq<Env<V>> {
    if rows == [] then [] else [Bind(e, alias, rows[0])] + BindEach(e, alias, rows[1..])
  }

  function JoinEach<V>(w: World<V>, on: seq<Pred<V>>, es: seq<Env<V>>, alias: string, rows: seq<Row<V>>): seq<Env<V>>
    decreases on, 2, |es|
  {
    if es == [] then [] else
      Where(w, on, BindEach(es[0], alias, rows)) + JoinEach(w, on, es[1..], alias, rows)
  }

  function OrderKey<V>(o: seq<(ColRef, bool)>, e: Env<V>): seq<V> {
    if o == [] then [] else [Deref(e, o[0].0)] + OrderKey(o[1..], e)
  }

  function OrderKeys<V>(o: seq<(ColRef, bool)>, es: seq<Env<V>>): seq<seq<V>> {
    if es == [] then [] else [OrderKey(o, es[0])] + OrderKeys(o, es[1..])
  }

  function OrderDirections(o: seq<(ColRef, bool)>): seq<bool> {
    if o == [] then [] else [o[0].1] + OrderDirections(o[1..])
  }

  function Ordered<V>(w: World<V>, o: Option<seq<(ColRef, bool)>>, es: seq<Env<V>>): seq<Env<V>> {
    if o.None? then es else Pick(es, w.arrange(OrderKeys(o.value, es), OrderDirections(o.value)))
  }

  /** FROM, WHERE, ORDER BY and LIMIT. */
  function Rows<V>(w: World<V>, q: Query<V>, e: Env<V>): seq<Env<V>>
    decreases q, 0, 0
  {
    var first := BindEach(e, q.from.alias, w.tables(q.from.name));
    var all := if q.from.Join? then JoinEach(w, q.on, first, q.from.alias2, w.tables(q.from.name2)) else first;
    Take(Ordered(w, q.order, Where(w, q.where, all)), q.limit)
  }

  /** A nested query as a value: a JSON list of all rows, or the only row. */
  function Aggregate<V>(singular: bool, rows: seq<OutRow<V>>): Out<V> {
    if !singular then Many(rows)
    else if rows == [] then One(None)
    else if |rows| == 1 then One(Some(rows[0]))
    else TooManyRows
  }

  function Eval<V>(w: World<V>, q: Query<V>, singular: bool, e: Env<V>): Out<V>
    decreases q, 2, 0
  {
    Aggregate(singular, Outputs(w, q.items, Rows(w, q, e)))
  }

  function Outputs<V>(w: World<V>, items: seq<Item<V>>, es: seq<Env<V>>): seq<OutRow<V>>
    decreases items, 1, |es|
  {
    if es == [] then [] else [OutputRow(w, items, es[0])] + Outputs(w, items, es[1..])
  }

  /** One row as a JSON object; of two items with the same name the last one wins. */
  function OutputRow<V>(w: World<V>, items: seq<Item<V>>, e: Env<V>): OutRow<V>
    decreases items, 0, 0
  {
    if items == [] then map[] else
      map[items[0].name := OutputValue(w, items[0], e)] + OutputRow(w, items[1..], e)
  }

  function OutputValue<V>(w: World<V>, i: Item<V>, e: Env<V>): Out<V>
    decreases i, 0, 0
  {
    match i
    case Output(ref, _) => Scalar(Deref(e, ref))
    case Nested(singular, q, _) => Eval(w, q, singular, e)
  }

  // ----- syntax

  /** An AND or OR of nothing prints as an empty pair of parentheses, which is no SQL. */
  predicate Printable<V>(q: Query<V>)
    decreases q, 1
  {
    PrintableItems(q.items) && PrintableAll(q.where)
  }

  predicate PrintableItems<V>(items: seq<Item<V>>)
    decreases items, 0
  {
    items == [] || ((items[0].Nested? ==> Printable(items[0].query)) && PrintableItems(items[1..]))
  }

  predicate PrintableAll<V>(ps: seq<Pred<V>>)
    decreases ps, 0
  {
    ps == [] || (PrintablePred(ps[0]) && PrintableAll(ps[1..]))
  }

  predicate PrintablePred<V>(p: Pred<V>)
    decreases p, 0
  {
    match p
    case AndP(ps) => ps != [] && PrintableAll(ps)
    case OrP(ps) => ps != [] && PrintableAll(ps)
    case ExistsP(_, q) => Printable(q)
    case _ => true
  }

  // ----- names

  /** The aliases that a query binds, in any order, with repetitions. */
  ghost function Bound<V>(q: Query<V>): multiset<string>
    decreases q, 1
  {
    multiset{q.from.alias} + (if q.from.Join? then multiset{q.from.alias2} else multiset{})
    + BoundInItems(q.items) + BoundInAll(q.on) + BoundInAll(q.where)
  }

  ghost function BoundInItems<V>(items: seq<Item<V>>): multiset<string>
    decreases items, 0
  {
    if items == [] then multiset{} else
      (if items[0].Nested? then Bound(items[0].query) else multiset{}) + BoundInItems(items[1..])
  }

  ghost function BoundInAll<V>(ps: seq<Pred<V>>): multiset<string>
    decreases ps, 0
  {
    if ps == [] then multiset{} else BoundInPred(ps[0]) + BoundInAll(ps[1..])
  }

  ghost function BoundInPred<V>(p: Pred<V>): multiset<string>
    decreases p, 0
  {
    match p
    case AndP(ps) => BoundInAll(ps)
    case OrP(ps) => BoundInAll(ps)
    case ExistsP(_, q) => Bound(q)
    case _ => multiset{}
  }
}
