/** Numbered placeholders for the values of a query. */
module SqlFormat {
  import opened Wrappers

  /** The parts of a query: text (identifiers among it), and values. */
  datatype Item<+A> = Raw(text: string) | Value(arg: A)

  /** The parts of the formatted text; how a value is cast depends on its argument, which is kept here. */
  datatype Piece<+A> = Text(text: string) | Placeholder(number: nat, arg: A)

  /** What a format looks at in a value to know it again, and what it sends to the database. */
  datatype Config<!A, !K, !S> = Config(key: A -> K, show: A -> S)

  // ----- the specification

  function IndexOf<A, K(==), S>(c: Config<A, K, S>, args: seq<A>, k: K): (r: nat)
    ensures r <= |args|
    ensures r < |args| ==> c.key(args[r]) == k
    ensures forall j :: 0 <= j < r ==> c.key(args[j]) != k
  {
    if args == [] || c.key(args[0]) == k then 0 else 1 + IndexOf(c, args[1..], k)
  }

  predicate Seen<A, K(==), S>(c: Config<A, K, S>, args: seq<A>, k: K) {
    IndexOf(c, args, k) < |args|
  }

  /** The arguments whose keys have not occurred before, in their order. */
  function Emitted<A, K(==), S>(c: Config<A, K, S>, items: seq<Item<A>>): seq<A> {
    if items == [] then [] else
      var (before, last) := (Emitted(c, items[..|items| - 1]), items[|items| - 1]);
      if last.Value? && !Seen(c, before, c.key(last.arg)) then before + [last.arg] else before
  }

  function Shown<A, K, S>(c: Config<A, K, S>, args: seq<A>): (r: seq<S>)
    ensures |r| == |args| && forall i :: 0 <= i < |args| ==> r[i] == c.show(args[i])
  {
    seq(|args|, i requires 0 <= i < |args| => c.show(args[i]))
  }

  function PieceOf<A, K(==), S>(c: Config<A, K, S>, emitted: seq<A>, item: Item<A>): Piece<A> {
    match item
    case Raw(text) => Text(text)
    case Value(arg) => Placeholder(IndexOf(c, emitted, c.key(arg)) + 1, arg)
  }

  // ----- the formats

  /** `ReusingFormat` and `SQLConvertFormat`, which differ in their keys and in what they show. */
  class Format<A, K(==,!new), S> {
    var seen: map<K, nat>
    const config: Config<A, K, S>
    ghost var emitted: seq<A>

    ghost predicate Valid()
      reads this
    {
      && |seen| == |emitted|
      && (forall k :: k in seen <==> Seen(config, emitted, k))
      && (forall k :: k in seen ==> seen[k] == IndexOf(config, emitted, k) + 1)
    }

    constructor (config: Config<A, K, S>)
      ensures Valid() && this.config == config && emitted == []
    {
      this.config := config;
      seen := map[];
      emitted := [];
    }

    /** `formatValue`; None stands for PREVIOUSLY_SEEN_VALUE. */
    method FormatValue(arg: A) returns (placeholder: Piece<A>, value: Option<S>)
      requires Valid()
      modifies this
      ensures Valid()
      ensures emitted == if old(Seen(config, emitted, config.key(arg))) then old(emitted) else old(emitted) + [arg]
      ensures placeholder == PieceOf(config, emitted, Value(arg))
      ensures value == if old(Seen(config, emitted, config.key(arg))) then None else Some(config.show(arg))
    {
      var key := config.key(arg);
      if key in seen {
        return Placeholder(seen[key], arg), None;
      }
      ghost var before := emitted;
      seen := seen[key := |seen| + 1];
      emitted := emitted + [arg];
      forall k ensures k in seen <==> Seen(config, emitted, k)
               ensures k in seen ==> seen[k] == IndexOf(config, emitted, k) + 1
      {
        IndexGrows(config, before, arg, k);
      }
      return Placeholder(|seen|, arg), Some(config.show(arg));
    }
  }

  lemma {:induction false} IndexGrows<A, K, S>(c: Config<A, K, S>, args: seq<A>, arg: A, k: K)
    ensures IndexOf(c, args + [arg], k)
         == if Seen(c, args, k) || c.key(arg) == k then IndexOf(c, args, k) else |args| + 1
  {
    if args == [] {
      assert (args + [arg])[1..] == [];
    } else {
      assert (args + [arg])[1..] == args[1..] + [arg];
      IndexGrows(c, args[1..], arg, k);
    }
  }

  function Pieces<A, K(==), S>(c: Config<A, K, S>, emitted: seq<A>, items: seq<Item<A>>): (r: seq<Piece<A>>)
    ensures |r| == |items| && forall i :: 0 <= i < |items| ==> r[i] == PieceOf(c, emitted, items[i])
  {
    seq(|items|, i requires 0 <= i < |items| => PieceOf(c, emitted, items[i]))
  }

  /** `formatFn`, for a format that has not been used. */
  method FormatFn<A, K(==,!new), S>(items: seq<Item<A>>, format: Format<A, K, S>) returns (text: seq<Piece<A>>, values: seq<S>)
    requires format.Valid() && format.emitted == []
    modifies format
    ensures values == Shown(format.config, Emitted(format.config, items))
    ensures text == Pieces(format.config, Emitted(format.config, items), items)
    ensures Formatted(format.config, items, text, values)
  {
    hide IndexOf, Seen, Emitted, Pieces, Shown, PieceOf, Formatted;
    ghost var c := format.config;
    text, values := [], [];
    Beginning(c);
    for n := 0 to |items|
      invariant format.Valid() && format.emitted == Emitted(c, items[..n])
      invariant values == Shown(c, format.emitted)
      invariant text == Pieces(c, format.emitted, items[..n])
    {
      NextItem(c, items[..n], items[n]);
      assert items[..n + 1] == items[..n] + [items[n]];
      match items[n]
      case Raw(t) =>
        text := text + [Text(t)];
      case Value(arg) =>
        var placeholder, value := format.FormatValue(arg);
        text := text + [placeholder];
        if value.Some? {
          values := values + [value.value];
        }
    }
    assert items[..|items|] == items;
    FormattedOnce(c, items);
  }

  lemma Beginning<A, K, S>(c: Config<A, K, S>)
    ensures Emitted(c, []) == [] && Shown(c, []) == [] && Pieces(c, [], []) == []
  {
  }

  lemma NextItem<A, K, S>(c: Config<A, K, S>, items: seq<Item<A>>, item: Item<A>)
    ensures var e := Emitted(c, items);
      if item.Value? && !Seen(c, e, c.key(item.arg)) then
        && Emitted(c, items + [item]) == e + [item.arg]
        && Pieces(c, e + [item.arg], items + [item]) == Pieces(c, e, items) + [PieceOf(c, e + [item.arg], item)]
        && Shown(c, e + [item.arg]) == Shown(c, e) + [c.show(item.arg)]
      else
        && Emitted(c, items + [item]) == e
        && Pieces(c, e, items + [item]) == Pieces(c, e, items) + [PieceOf(c, e, item)]
        && (item.Raw? ==> PieceOf(c, e, item) == Text(item.text))
  {
    hide IndexOf, Seen;
    assert (items + [item])[..|items|] == items;
    if item.Value? && !Seen(c, Emitted(c, items), c.key(item.arg)) { PiecesStay(c, items, item.arg); }
  }

  // ----- what the numbers mean

  lemma {:induction false} EmittedHasAll<A, K, S>(c: Config<A, K, S>, items: seq<Item<A>>, i: nat)
    requires i < |items| && items[i].Value?
    ensures Seen(c, Emitted(c, items), c.key(items[i].arg))
  {
    var n := |items| - 1;
    var before := Emitted(c, items[..n]);
    if items[n].Value? { IndexGrows(c, before, items[n].arg, c.key(items[i].arg)); }
    if i < n { EmittedHasAll(c, items[..n], i); }
  }

  /** Further values do not change the numbers of the ones before. */
  lemma PiecesStay<A, K, S>(c: Config<A, K, S>, items: seq<Item<A>>, arg: A)
    ensures forall i :: 0 <= i < |items| ==>
              PieceOf(c, Emitted(c, items) + [arg], items[i]) == PieceOf(c, Emitted(c, items), items[i])
  {
    forall i | 0 <= i < |items|
      ensures PieceOf(c, Emitted(c, items) + [arg], items[i]) == PieceOf(c, Emitted(c, items), items[i])
    {
      if items[i].Value? {
        EmittedHasAll(c, items, i);
        IndexGrows(c, Emitted(c, items), arg, c.key(items[i].arg));
      }
    }
  }

  ghost predicate Once<A, K, S>(c: Config<A, K, S>, args: seq<A>) {
    forall i, j :: 0 <= i < j < |args| ==> c.key(args[i]) != c.key(args[j])
  }

  /** Each key is emitted once. */
  lemma {:induction false} EmittedOnce<A, K, S>(c: Config<A, K, S>, items: seq<Item<A>>)
    ensures Once(c, Emitted(c, items))
  {
    if items != [] {
      EmittedOnce(c, items[..|items| - 1]);
    }
  }

  /** Where an emitted argument comes from: the first item with its key. */
  lemma {:induction false} EmittedFrom<A, K, S>(c: Config<A, K, S>, items: seq<Item<A>>, k: nat) returns (i: nat)
    requires k < |Emitted(c, items)|
    ensures i < |items| && items[i] == Value(Emitted(c, items)[k])
    ensures forall j :: 0 <= j < i && items[j].Value? ==> c.key(items[j].arg) != c.key(items[i].arg)
  {
    var n := |items| - 1;
    var before := Emitted(c, items[..n]);
    if k < |before| {
      i := EmittedFrom(c, items[..n], k);
    } else {
      i := n;
      forall j | 0 <= j < n && items[j].Value? ensures c.key(items[j].arg) != c.key(items[n].arg) {
        EmittedHasAll(c, items[..n], j);
      }
    }
  }

  /** Two values share a placeholder number exactly if they have the same key, and all numbers are in range. */
  lemma SameNumber<A, K, S>(c: Config<A, K, S>, items: seq<Item<A>>, i: nat, j: nat)
    requires i < |items| && j < |items| && items[i].Value? && items[j].Value?
    ensures var e := Emitted(c, items);
      && 1 <= PieceOf(c, e, items[i]).number <= |e|
      && (PieceOf(c, e, items[i]).number == PieceOf(c, e, items[j]).number <==> c.key(items[i].arg) == c.key(items[j].arg))
  {
    EmittedHasAll(c, items, i);
    EmittedHasAll(c, items, j);
  }

  /** Every number up to the number of values is used. */
  lemma EveryNumber<A, K, S>(c: Config<A, K, S>, items: seq<Item<A>>, k: nat) returns (i: nat)
    requires k < |Emitted(c, items)|
    ensures i < |items| && items[i].Value? && PieceOf(c, Emitted(c, items), items[i]).number == k + 1
  {
    i := EmittedFrom(c, items, k);
    EmittedOnce(c, items);
  }

  /** Item `f` is the first value with its key. */
  ghost predicate First<A, K, S>(c: Config<A, K, S>, items: seq<Item<A>>, f: int) {
    && 0 <= f < |items| && items[f].Value?
    && forall j :: 0 <= j < f && items[j].Value? ==> c.key(items[j].arg) != c.key(items[f].arg)
  }

  /**
   Text is kept; every value has become a placeholder, and its number is the place, in the list of values, of the first value
   with its key. The list has these first values only, in their order.
   */
  ghost predicate Formatted<A, K, S>(c: Config<A, K, S>, items: seq<Item<A>>, text: seq<Piece<A>>, values: seq<S>) {
    && |text| == |items|
    && (forall i :: 0 <= i < |items| ==>
          match items[i]
          case Raw(t) => text[i] == Text(t)
          case Value(arg) => text[i].Placeholder? && text[i].arg == arg && 1 <= text[i].number <= |values|)
    && (forall i, j :: 0 <= i < |items| && 0 <= j < |items| && items[i].Value? && items[j].Value? ==>
          (text[i].number == text[j].number <==> c.key(items[i].arg) == c.key(items[j].arg)))
    && (forall f :: First(c, items, f) ==> values[text[f].number - 1] == c.show(items[f].arg))
    && (forall f, g :: First(c, items, f) && First(c, items, g) && f < g ==> text[f].number < text[g].number)
    && (forall k :: 0 <= k < |values| ==> Listed(c, items, text, k))
  }

  ghost predicate Listed<A, K, S>(c: Config<A, K, S>, items: seq<Item<A>>, text: seq<Piece<A>>, k: nat)
    requires |text| == |items| && forall i :: 0 <= i < |items| && items[i].Value? ==> text[i].Placeholder?
  {
    exists f :: First(c, items, f) && text[f].number == k + 1
  }

  lemma FormattedOnce<A, K, S>(c: Config<A, K, S>, items: seq<Item<A>>)
    ensures Formatted(c, items, Pieces(c, Emitted(c, items), items), Shown(c, Emitted(c, items)))
  {
    hide Emitted, Pieces, Shown;
    var e := Emitted(c, items);
    forall i, j | 0 <= i < |items| && 0 <= j < |items| && items[i].Value? && items[j].Value?
      ensures 1 <= PieceOf(c, e, items[i]).number <= |e|
      ensures PieceOf(c, e, items[i]).number == PieceOf(c, e, items[j]).number <==> c.key(items[i].arg) == c.key(items[j].arg)
    {
      SameNumber(c, items, i, j);
    }
    forall f | First(c, items, f) ensures e[PieceOf(c, e, items[f]).number - 1] == items[f].arg {
      EmittedHasAll(c, items, f);
      var g := EmittedFrom(c, items, PieceOf(c, e, items[f]).number - 1);
      assert g == f;
    }
    forall f, g | First(c, items, f) && First(c, items, g) && f < g
      ensures PieceOf(c, e, items[f]).number < PieceOf(c, e, items[g]).number
    {
      FirstInOrder(c, items, f, g);
    }
    forall k | 0 <= k < |e| ensures Listed(c, items, Pieces(c, e, items), k) {
      var f := EmittedFrom(c, items, k);
      EmittedOnce(c, items);
      assert First(c, items, f);
    }
  }

  /** A key that has not occurred has not been emitted. */
  lemma NotEmitted<A, K, S>(c: Config<A, K, S>, items: seq<Item<A>>, k: K)
    requires forall j :: 0 <= j < |items| && items[j].Value? ==> c.key(items[j].arg) != k
    ensures !Seen(c, Emitted(c, items), k)
  {
    hide Emitted;
    if Seen(c, Emitted(c, items), k) {
      var f := EmittedFrom(c, items, IndexOf(c, Emitted(c, items), k));
    }
  }

  lemma {:induction false} FirstInOrder<A, K, S>(c: Config<A, K, S>, items: seq<Item<A>>, f: nat, g: nat)
    requires First(c, items, f) && First(c, items, g) && f < g
    ensures IndexOf(c, Emitted(c, items), c.key(items[f].arg)) < IndexOf(c, Emitted(c, items), c.key(items[g].arg))
  {
    hide IndexOf;
    var n := |items| - 1;
    var before := Emitted(c, items[..n]);
    EmittedHasAll(c, items[..n], f);
    if items[n].Value? {
      IndexGrows(c, before, items[n].arg, c.key(items[f].arg));
      IndexGrows(c, before, items[n].arg, c.key(items[g].arg));
    }
    if g < n {
      FirstInOrder(c, items[..n], f, g);
      EmittedHasAll(c, items[..n], g);
    } else {
      NotEmitted(c, items[..n], c.key(items[g].arg));
    }
  }

  /** The value that the database puts in place of a placeholder. */
  function Substituted<A, S>(piece: Piece<A>, values: seq<S>): Option<S> {
    if piece.Placeholder? && 1 <= piece.number <= |values| then Some(values[piece.number - 1]) else None
  }

  ghost predicate Reproduces<A, K, S>(c: Config<A, K, S>, items: seq<Item<A>>) {
    forall i :: 0 <= i < |items| && items[i].Value? ==>
      Substituted(PieceOf(c, Emitted(c, items), items[i]), Shown(c, Emitted(c, items))) == Some(c.show(items[i].arg))
  }

  ghost predicate Alike<A, K, S>(c: Config<A, K, S>, items: seq<Item<A>>) {
    forall i, j :: 0 <= i < j < |items| && items[i].Value? && items[j].Value? && c.key(items[i].arg) == c.key(items[j].arg)
      ==> c.show(items[i].arg) == c.show(items[j].arg)
  }

  /** Every placeholder stands for its own value exactly if values with the same key are shown alike. */
  lemma SubstitutingReproduces<A, K, S>(c: Config<A, K, S>, items: seq<Item<A>>)
    ensures Reproduces(c, items) <==> Alike(c, items)
  {
    var e := Emitted(c, items);
    if Alike(c, items) {
      forall i | 0 <= i < |items| && items[i].Value?
        ensures Substituted(PieceOf(c, e, items[i]), Shown(c, e)) == Some(c.show(items[i].arg))
      {
        EmittedHasAll(c, items, i);
        var k := IndexOf(c, e, c.key(items[i].arg));
        var f := EmittedFrom(c, items, k);
        assert f <= i;
      }
    }
    if Reproduces(c, items) {
      forall i, j | 0 <= i < j < |items| && items[i].Value? && items[j].Value? && c.key(items[i].arg) == c.key(items[j].arg)
        ensures c.show(items[i].arg) == c.show(items[j].arg)
      {
        assert PieceOf(c, e, items[i]).number == PieceOf(c, e, items[j]).number;
        assert Substituted(PieceOf(c, e, items[i]), Shown(c, e)) == Some(c.show(items[i].arg));
        assert Substituted(PieceOf(c, e, items[j]), Shown(c, e)) == Some(c.show(items[j].arg));
      }
    }
  }

  // ----- the two formats

  /** `ReusingFormat`: the value is its own key and is sent as it is. */
  function Reusing<A>(): Config<A, A, A> { Config(a => a, a => a) }

  lemma ReusingReproduces<A>(items: seq<Item<A>>)
    ensures Reproduces(Reusing<A>(), items)
  {
    SubstitutingReproduces(Reusing<A>(), items);
  }
}
