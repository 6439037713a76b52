/** Scans over the primary key space: the generator behind `scan`, and the list of entries it stands for. */
module ScanIterator {
  import opened Wrappers
  import opened SortedSet
  import opened KeyOrder
  import opened Lists

  datatype Start = Start(key: string, exclusive: bool)

  /** An absent prefix is the empty one. */
  datatype ScanOptions = ScanOptions(prefix: string, start: Option<Start>, limit: Option<int>)

  type Entry<V> = (string, V)

  function Keys<V>(s: seq<Entry<V>>): (r: seq<string>)
    ensures |r| == |s| && forall i :: 0 <= i < |s| ==> r[i] == s[i].0
  {
    seq(|s|, i requires 0 <= i < |s| => s[i].0)
  }

  /** A store: entries with strictly increasing keys. */
  ghost predicate Stored<V>(s: seq<Entry<V>>) {
    Sorted(CompareUtf8, Keys(s))
  }

  function Lookup<V>(s: seq<Entry<V>>, key: string): Option<V> {
    if s == [] then None else if s[0].0 == key then Some(s[0].1) else Lookup(s[1..], key)
  }

  // ----- what a scan returns

  predicate InRange(o: ScanOptions, key: string) {
    && StartsWith(key, o.prefix)
    && (o.start.Some? ==>
          var c := CompareUtf8(key, o.start.value.key);
          c > 0 || (c == 0 && !o.start.value.exclusive))
  }

  function Restrict<V>(s: seq<Entry<V>>, p: string -> bool): seq<Entry<V>> {
    if s == [] then [] else if p(s[0].0) then [s[0]] + Restrict(s[1..], p) else Restrict(s[1..], p)
  }

  /** At most `limit` entries; the countdown only stops at exactly zero, so a limit below one means no limit. */
  function Cut<A>(s: seq<A>, limit: Option<int>): seq<A> {
    if limit.Some? && 1 <= limit.value <= |s| then s[..limit.value] else s
  }

  function ScanResult<V>(o: ScanOptions, s: seq<Entry<V>>): seq<Entry<V>> {
    Cut(Restrict(s, Range(o)), o.limit)
  }

  function Range(o: ScanOptions): string -> bool {
    key => InRange(o, key)
  }

  // ----- the generator

  /** `rest` is what the underlying iterator has left; `last` is the key at whose `yield` the generator is suspended. */
  datatype Generator<V> = Generator(options: ScanOptions, rest: seq<Entry<V>>, limit: Option<int>, last: Option<string>,
                                    finished: bool)

  function FromKey(o: ScanOptions): string {
    if o.start.Some? && CompareUtf8(o.start.value.key, o.prefix) > 0 then o.start.value.key else o.prefix
  }

  function Open<V>(o: ScanOptions, s: seq<Entry<V>>): Generator<V> {
    Generator(o, s[LowerBound(CompareUtf8, Keys(s), FromKey(o))..], o.limit, None, false)
  }

  /** What the generator's loop passes on: up to the first key without the prefix, and not an excluded start key. */
  function Walk<V>(o: ScanOptions, s: seq<Entry<V>>): seq<Entry<V>> {
    if s == [] || !StartsWith(s[0].0, o.prefix) then []
    else if o.start.Some? && o.start.value.exclusive && s[0].0 == o.start.value.key then Walk(o, s[1..])
    else [s[0]] + Walk(o, s[1..])
  }

  /** The countdown at the point of resumption. */
  function Countdown<V>(g: Generator<V>): Option<int> {
    if g.last.Some? && g.limit.Some? then Some(g.limit.value - 1) else g.limit
  }

  /** What is still to come. */
  function Pending<V>(g: Generator<V>): seq<Entry<V>> {
    if g.finished || (g.last.Some? && Countdown(g) == Some(0)) then [] else Cut(Walk(g.options, g.rest), Countdown(g))
  }

  /**
   `next()`: resume behind the last `yield`. The limit key is reported only here, when the consumer comes back after the
   last entry that the limit allows.
   */
  method Next<V>(g: Generator<V>) returns (g': Generator<V>, entry: Option<Entry<V>>, limitKey: Option<string>)
    ensures g'.options == g.options
    ensures entry == if Pending(g) == [] then None else Some(Pending(g)[0])
    ensures Pending(g') == if Pending(g) == [] then [] else Pending(g)[1..]
    ensures limitKey == if !g.finished && Countdown(g) == Some(0) then g.last else None
    ensures g'.finished <==> entry.None?
    ensures entry.Some? ==> g'.last == Some(entry.value.0) && g'.limit == Countdown(g)
  {
    limitKey := None;
    if g.finished {
      return g, None, None;
    }
    var limit := Countdown(g);
    if g.last.Some? && limit == Some(0) {
      return g.(finished := true), None, g.last;
    }
    var rest := g.rest;
    while rest != []
      invariant Walk(g.options, rest) == Walk(g.options, g.rest)
      decreases |rest|
    {
      var first := rest[0];
      if !StartsWith(first.0, g.options.prefix) {
        return g.(finished := true), None, None;
      }
      rest := rest[1..];
      if g.options.start.Some? && g.options.start.value.exclusive && first.0 == g.options.start.value.key {
        continue;
      }
      return Generator(g.options, rest, limit, Some(first.0), false), Some(first), None;
    }
    return g.(finished := true), None, None;
  }

  // ----- the generator yields the scan's result

  lemma {:induction false} RestrictConcat<V>(a: seq<Entry<V>>, b: seq<Entry<V>>, p: string -> bool)
    ensures Restrict(a + b, p) == Restrict(a, p) + Restrict(b, p)
  {
    if a == [] {
      assert a + b == b;
    } else {
      assert (a + b)[1..] == a[1..] + b;
      RestrictConcat(a[1..], b, p);
    }
  }

  lemma {:induction false} RestrictNone<V>(s: seq<Entry<V>>, p: string -> bool)
    requires forall i :: 0 <= i < |s| ==> !p(s[i].0)
    ensures Restrict(s, p) == []
  {
    if s != [] { RestrictNone(s[1..], p); }
  }

  lemma StoredPairs<V>(s: seq<Entry<V>>)
    ensures Stored(s) <==> forall i, j :: 0 <= i < j < |s| ==> CompareUtf8(s[i].0, s[j].0) < 0
  {
    SortedPairs(CompareUtf8, Keys(s));
  }

  /** From the first key on, the loop keeps exactly the keys in range. */
  lemma {:induction false} WalkIsRestrict<V>(o: ScanOptions, s: seq<Entry<V>>)
    requires Stored(s) && forall i :: 0 <= i < |s| ==> CompareUtf8(FromKey(o), s[i].0) <= 0
    ensures Walk(o, s) == Restrict(s, Range(o))
  {
    if s != [] {
      StoredPairs(s);
      var key := s[0].0;
      StartsInside(o, key);
      if StartsWith(key, o.prefix) {
        StoredPairs(s[1..]);
        WalkIsRestrict(o, s[1..]);
      } else {
        forall i | 0 <= i < |s| ensures !Range(o)(s[i].0) {
          if StartsWith(s[i].0, o.prefix) {
            assert CompareUtf8(key, s[i].0) <= 0;
            PrefixInterval(o.prefix, key, s[i].0);
          }
        }
        RestrictNone(s, Range(o));
      }
    }
  }

  /** A key at or after the first key is past the prefix and not below the start. */
  lemma StartsInside(o: ScanOptions, key: string)
    requires CompareUtf8(FromKey(o), key) <= 0
    ensures CompareUtf8(o.prefix, key) <= 0
    ensures o.start.Some? ==> CompareUtf8(key, o.start.value.key) >= 0
  {
    if o.start.Some? {
      var start := o.start.value.key;
      Antisymmetric(start, o.prefix);
      if CompareUtf8(start, o.prefix) > 0 {
        AtMostTransitive(o.prefix, start, key);
      } else {
        AtMostTransitive(start, o.prefix, key);
      }
      Antisymmetric(key, start);
    }
  }

  /** Nothing in range is lost by starting at the first key. */
  lemma BelowStart(o: ScanOptions, key: string)
    requires CompareUtf8(key, FromKey(o)) < 0
    ensures !InRange(o, key)
  {
    if InRange(o, key) {
      PrefixFirst(o.prefix, key);
      Antisymmetric(key, o.prefix);
      Antisymmetric(key, FromKey(o));
      assert false;
    }
  }

  lemma KeysTail<V>(s: seq<Entry<V>>, n: nat)
    requires n <= |s|
    ensures Keys(s[n..]) == Keys(s)[n..]
  {
  }

  /** What lies before and after the first key. */
  lemma AtFirstKey<V>(o: ScanOptions, s: seq<Entry<V>>, a: seq<Entry<V>>, b: seq<Entry<V>>)
    requires Stored(s) && s == a + b && |a| == LowerBound(CompareUtf8, Keys(s), FromKey(o))
    ensures Stored(b)
    ensures forall i :: 0 <= i < |a| ==> CompareUtf8(a[i].0, FromKey(o)) < 0
    ensures forall i :: 0 <= i < |b| ==> CompareUtf8(FromKey(o), b[i].0) <= 0
  {
    hide TotalOrder, Sorted, FromKey, CompareUtf8, Keys;
    KeysAreOrdered();
    assert b == s[|a|..];
    KeysTail(s, |a|);
    SortedPart(CompareUtf8, Keys(s), |a|, |a|);
    AboveLowerBound(CompareUtf8, Keys(s), FromKey(o));
    forall i | 0 <= i < |a| ensures CompareUtf8(a[i].0, FromKey(o)) < 0 { assert a[i] == s[i]; }
    forall i | 0 <= i < |b| ensures CompareUtf8(FromKey(o), b[i].0) <= 0 {
      assert b[i].0 == Keys(s)[|a| + i];
      Antisymmetric(FromKey(o), b[i].0);
    }
  }

  /** `scan` yields exactly the stored entries in range, in order, up to the limit. */
  lemma ScanYields<V>(o: ScanOptions, s: seq<Entry<V>>)
    requires Stored(s)
    ensures Pending(Open(o, s)) == ScanResult(o, s)
  {
    hide LowerBound, Sorted, Stored, FromKey, InRange, Walk, Restrict;
    var n := LowerBound(CompareUtf8, Keys(s), FromKey(o));
    var a, b := s[..n], s[n..];
    assert s == a + b;
    AtFirstKey(o, s, a, b);
    forall i | 0 <= i < |a| ensures !Range(o)(a[i].0) { BelowStart(o, a[i].0); }
    RestrictNone(a, Range(o));
    WalkIsRestrict(o, b);
    RestrictConcat(a, b, Range(o));
    assert Restrict(s, Range(o)) == Walk(o, b);
  }

  // ----- a scan's result, written out

  /** A key that the scan asks for: it has the prefix, and lies behind the start, or at it unless that is excluded. */
  ghost predicate Asked(o: ScanOptions, key: string) {
    && o.prefix <= key
    && (o.start.Some? ==> if key == o.start.value.key then !o.start.value.exclusive else CompareUtf8(o.start.value.key, key) < 0)
  }

  ghost function AskedBy<V>(o: ScanOptions): Entry<V> -> bool {
    (e: Entry<V>) => Asked(o, e.0)
  }

  /** The `n`-th of the stored entries that the scan asks for, if there is one and the limit is not reached. */
  ghost predicate NthEntry<V>(s: seq<Entry<V>>, o: ScanOptions, n: nat, entry: Option<Entry<V>>) {
    exists at :: Places(at, s, AskedBy(o)) &&
      if n < |at| && (o.limit.Some? && o.limit.value >= 1 ==> n < o.limit.value) then entry == Some(s[at[n]])
      else entry == None
  }

  lemma RangeIsAsked(o: ScanOptions, key: string)
    ensures InRange(o, key) <==> Asked(o, key)
  {
    if o.start.Some? { Antisymmetric(key, o.start.value.key); }
  }

  lemma {:induction false} RestrictPlaces<V>(o: ScanOptions, s: seq<Entry<V>>) returns (at: seq<nat>)
    ensures Places(at, s, AskedBy(o)) && Gathers(Restrict(s, Range(o)), s, at)
  {
    hide Places, Gathers, InRange, Asked;
    if s == [] {
      at := [];
      Nothing<Entry<V>>(AskedBy(o));
    } else {
      at := RestrictPlaces(o, s[1..]);
      RangeIsAsked(o, s[0].0);
      PlacesMore(at, s, AskedBy(o));
      GathersMore(Restrict(s[1..], Range(o)), s, at, Asked(o, s[0].0));
      at := if Asked(o, s[0].0) then [0] + Shifted(at) else Shifted(at);
    }
  }

  /** What a scan returns, entry by entry. */
  lemma ScanTells<V>(o: ScanOptions, s: seq<Entry<V>>, n: nat)
    ensures NthEntry(s, o, n, if n < |ScanResult(o, s)| then Some(ScanResult(o, s)[n]) else None)
  {
    hide Places, AskedBy, Restrict;
    var at := RestrictPlaces(o, s);
  }
}
