/**
 Subscriptions are caches: a body's last result is kept until a commit changes something that the body has read. The body
 is adaptive (what it reads next may depend on all answers so far), and what it has read is recorded as keys and scans.
 */
module Subscriptions {
  import opened Wrappers
  import opened SortedSet
  import opened KeyOrder
  import opened ScanIterator

  // ----- stores that agree

  lemma {:induction false} BeforeFirst<V>(s: seq<Entry<V>>, key: string)
    requires Stored(s) && (s != [] ==> CompareUtf8(key, s[0].0) < 0)
    ensures Lookup(s, key) == None
    decreases |s|
  {
    if s != [] {
      Rest(s);
      if s[1..] != [] { Below(key, s[0].0, s[1].0); }
      BeforeFirst(s[1..], key);
    }
  }

  lemma Below(a: string, b: string, c: string)
    requires CompareUtf8(a, b) <= 0 && CompareUtf8(b, c) <= 0
    ensures CompareUtf8(a, c) <= 0
    ensures CompareUtf8(a, b) < 0 || CompareUtf8(b, c) < 0 ==> CompareUtf8(a, c) < 0
  {
    KeysAreOrdered();
    Transitive(CompareUtf8, a, b, c);
  }

  /** What a store without its first entry is like. */
  lemma Rest<V>(s: seq<Entry<V>>)
    requires Stored(s) && s != []
    ensures Stored(s[1..]) && Lookup(s, s[0].0) == Some(s[0].1)
    ensures |s| > 1 ==> CompareUtf8(s[0].0, s[1].0) < 0
    ensures forall key :: key != s[0].0 ==> Lookup(s, key) == Lookup(s[1..], key)
  {
    StoredPairs(s);
    StoredPairs(s[1..]);
  }

  lemma HeadIsGone<V>(s: seq<Entry<V>>)
    requires Stored(s) && s != []
    ensures Lookup(s[1..], s[0].0) == None
  {
    Rest(s);
    BeforeFirst(s[1..], s[0].0);
  }

  lemma {:induction false} LookupAt<V>(s: seq<Entry<V>>, key: string)
    ensures Lookup(s, key).Some? <==> exists i :: 0 <= i < |s| && s[i].0 == key
    ensures Stored(s) ==> forall i :: 0 <= i < |s| && s[i].0 == key ==> Lookup(s, key) == Some(s[i].1)
  {
    if s != [] {
      LookupAt(s[1..], key);
      if Stored(s) {
        Rest(s);
        HeadIsGone(s);
      }
      forall i | 0 <= i < |s| && s[i].0 == key ensures Lookup(s, key).Some? {
        if i > 0 { assert s[1..][i - 1] == s[i]; }
      }
      if Lookup(s, key).Some? && s[0].0 != key {
        var i :| 0 <= i < |s[1..]| && s[1..][i].0 == key;
        assert s[i + 1].0 == key;
      }
      forall i | 0 <= i < |s| && s[i].0 == key && Stored(s) ensures Lookup(s, key) == Some(s[i].1) {
        if i > 0 { assert s[1..][i - 1] == s[i]; }
      }
    }
  }

  /** Stores that agree on some keys agree on the entries with these keys. */
  lemma {:induction false} SameEntries<V>(a: seq<Entry<V>>, b: seq<Entry<V>>, p: string -> bool)
    requires Stored(a) && Stored(b)
    requires forall key :: p(key) ==> Lookup(a, key) == Lookup(b, key)
    ensures Restrict(a, p) == Restrict(b, p)
    decreases |a| + |b|
  {
    if a != [] {
      Rest(a);
      HeadIsGone(a);
    }
    if b != [] {
      Rest(b);
      HeadIsGone(b);
    }
    if a != [] && (b == [] || CompareUtf8(a[0].0, b[0].0) < 0) {
      BeforeFirst(b, a[0].0);
      SameEntries(a[1..], b, p);
    } else if b != [] && (a == [] || CompareUtf8(b[0].0, a[0].0) < 0) {
      BeforeFirst(a, b[0].0);
      SameEntries(a, b[1..], p);
    } else if a != [] {
      Antisymmetric(a[0].0, b[0].0);
      SameEntries(a[1..], b[1..], p);
    }
  }

  lemma {:induction false} RestrictFrom<V>(s: seq<Entry<V>>, p: string -> bool, i: nat)
    requires Stored(s) && i < |Restrict(s, p)|
    ensures s != [] && CompareUtf8(s[0].0, Restrict(s, p)[i].0) <= 0
    decreases |s|
  {
    Rest(s);
    if p(s[0].0) {
      if i > 0 {
        RestrictFrom(s[1..], p, i - 1);
        Below(s[0].0, s[1].0, Restrict(s, p)[i].0);
      }
    } else {
      RestrictFrom(s[1..], p, i);
      Below(s[0].0, s[1].0, Restrict(s, p)[i].0);
    }
  }

  lemma FirstOfMore<A>(x: A, a: seq<A>, b: seq<A>, n: nat)
    requires 1 <= n <= |a| + 1 && (n > 1 ==> |b| >= n - 1 && b[..n - 1] == a[..n - 1])
    ensures |[x] + b| >= n && ([x] + b)[..n] == ([x] + a)[..n]
  {
    assert n > 1 ==> ([x] + b)[..n] == [x] + b[..n - 1] && ([x] + a)[..n] == [x] + a[..n - 1];
  }

  /** Stores that agree on some keys up to the n-th of them agree on the first `n` entries with these keys. */
  lemma {:induction false} SameFirst<V>(a: seq<Entry<V>>, b: seq<Entry<V>>, p: string -> bool, n: nat, last: string)
    requires Stored(a) && Stored(b) && 1 <= n <= |Restrict(a, p)| && last == Restrict(a, p)[n - 1].0
    requires forall key :: p(key) && CompareUtf8(key, last) <= 0 ==> Lookup(a, key) == Lookup(b, key)
    ensures |Restrict(b, p)| >= n && Restrict(b, p)[..n] == Restrict(a, p)[..n]
    decreases |a| + |b|
  {
    hide CompareUtf8, Stored;
    RestrictFrom(a, p, n - 1);
    Rest(a);
    HeadIsGone(a);
    if b != [] {
      Rest(b);
      HeadIsGone(b);
    }
    var key := a[0].0;
    if b == [] || CompareUtf8(key, b[0].0) < 0 {
      BeforeFirst(b, key);
      assert !p(key);
      SameFirst(a[1..], b, p, n, last);
    } else if CompareUtf8(b[0].0, key) < 0 {
      BeforeFirst(a, b[0].0);
      Below(b[0].0, key, last);
      assert !p(b[0].0);
      SameFirst(a, b[1..], p, n, last);
    } else {
      Antisymmetric(key, b[0].0);
      if !p(key) {
        SameFirst(a[1..], b[1..], p, n, last);
      } else {
        assert a[0] == b[0];
        if n > 1 { SameFirst(a[1..], b[1..], p, n - 1, last); }
        FirstOfMore(a[0], Restrict(a[1..], p), Restrict(b[1..], p), n);
      }
    }
  }

  // ----- which keys a recorded scan depends on

  /** A recorded scan; the limit key is the last key of a scan that ran into its limit. */
  datatype ScanInfo = ScanInfo(options: ScanOptions, inclusiveLimitKey: Option<string>)

  predicate IsKeyPastInclusiveLimit(info: ScanInfo, changedKey: string) {
    info.options.limit.Some? && info.inclusiveLimitKey.Some? && CompareUtf8(changedKey, info.inclusiveLimitKey.value) > 0
  }

  /** `scanInfoMatchesKey`, for scans of the primary key space. An empty start key counts as none. */
  predicate ScanInfoMatchesKey(info: ScanInfo, changedKey: string) {
    var o := info.options;
    var startKey := if o.start.Some? then o.start.value.key else "";
    if o.limit.Some? && o.limit.value <= 0 then
      false
    else if o.prefix == "" && startKey == "" then
      true
    else if o.prefix != "" && (!StartsWith(changedKey, o.prefix) || IsKeyPastInclusiveLimit(info, changedKey)) then
      false
    else if startKey != "" && ((o.start.value.exclusive && CompareUtf8(changedKey, startKey) <= 0)
                               || CompareUtf8(changedKey, startKey) < 0
                               || IsKeyPastInclusiveLimit(info, changedKey)) then
      false
    else
      true
  }

  /** The only limits that the matching and the generator agree on. */
  predicate FairLimit(o: ScanOptions) {
    o.limit.None? || o.limit.value >= 1
  }

  /** The limit key of a recorded scan, if there is one, is where the scan stopped. */
  ghost predicate Recorded<V>(info: ScanInfo, s: seq<Entry<V>>) {
    info.inclusiveLimitKey.Some? ==>
      var r := ScanResult(info.options, s);
      && info.options.limit.Some? && 1 <= info.options.limit.value <= |Restrict(s, Range(info.options))|
      && info.inclusiveLimitKey.value == r[|r| - 1].0
  }

  /** A key in range that is not past the limit key always matches. */
  lemma InRangeMatches(info: ScanInfo, key: string)
    requires FairLimit(info.options) && InRange(info.options, key) && !IsKeyPastInclusiveLimit(info, key)
    ensures ScanInfoMatchesKey(info, key)
  {
  }

  /**
   With a fair limit, exactly the keys that a scan asks for match, up to the limit key; only that a scan of everything has
   a limit is not made use of. (An empty start key is no start key to the matching.)
   */
  lemma MatchesExactly(info: ScanInfo, key: string)
    requires FairLimit(info.options) && (info.options.start.Some? ==> info.options.start.value.key != "")
    ensures ScanInfoMatchesKey(info, key) <==>
      && Asked(info.options, key)
      && (info.options.limit.Some? && info.inclusiveLimitKey.Some? && (info.options.prefix != "" || info.options.start.Some?)
          ==> CompareUtf8(key, info.inclusiveLimitKey.value) <= 0)
  {
    hide CompareUtf8;
    RangeIsAsked(info.options, key);
  }

  /** A scan that no changed key matches returns what it returned before. */
  lemma ScanUnaffected<V>(info: ScanInfo, a: seq<Entry<V>>, b: seq<Entry<V>>)
    requires Stored(a) && Stored(b) && FairLimit(info.options) && Recorded(info, a)
    requires forall key :: Lookup(a, key) != Lookup(b, key) ==> !ScanInfoMatchesKey(info, key)
    ensures ScanResult(info.options, b) == ScanResult(info.options, a) && Recorded(info, b)
  {
    hide ScanInfoMatchesKey, CompareUtf8, Stored;
    var p := Range(info.options);
    forall key | p(key) && !IsKeyPastInclusiveLimit(info, key) ensures Lookup(a, key) == Lookup(b, key) {
      if Lookup(a, key) != Lookup(b, key) { InRangeMatches(info, key); }
    }
    if info.inclusiveLimitKey.Some? {
      SameFirst(a, b, p, info.options.limit.value, info.inclusiveLimitKey.value);
    } else {
      SameEntries(a, b, p);
    }
  }

  /** Some key in the range of a scan, unless the range is empty: a start beyond all keys with the prefix. */
  predicate EmptyRange(o: ScanOptions) {
    o.start.Some? && CompareUtf8(o.start.value.key, o.prefix) > 0 && !StartsWith(o.start.value.key, o.prefix)
  }

  function SomeKey(o: ScanOptions): string {
    (if o.start.Some? && StartsWith(o.start.value.key, o.prefix) then o.start.value.key else o.prefix) + "!"
  }

  lemma {:induction false} Longer(key: string, more: string)
    requires more != []
    ensures CompareUtf8(key, key + more) < 0
  {
    if key != [] {
      assert (key + more)[1..] == key[1..] + more;
      Longer(key[1..], more);
    }
  }

  lemma SomeKeyInRange(o: ScanOptions)
    requires !EmptyRange(o)
    ensures InRange(o, SomeKey(o))
  {
    hide CompareUtf8;
    if o.start.Some? {
      var start := o.start.value.key;
      if StartsWith(start, o.prefix) {
        Longer(start, "!");
        Antisymmetric(start, start + "!");
        assert StartsWith(start + "!", o.prefix);
      } else {
        Longer(o.prefix, "!");
        Below(start, o.prefix, o.prefix + "!");
        Antisymmetric(start, o.prefix + "!");
      }
    }
  }

  lemma EmptyRangeHasNothing(o: ScanOptions, key: string)
    requires EmptyRange(o)
    ensures !InRange(o, key)
  {
    hide CompareUtf8;
    if InRange(o, key) {
      Antisymmetric(key, o.start.value.key);
      Antisymmetric(o.prefix, o.start.value.key);
      PrefixInterval(o.prefix, o.start.value.key, key);
      assert false;
    }
  }

  /** Changes that no key matches leave the scan's result alone, whatever the stores. */
  ghost predicate Reliable<V(!new)>(o: ScanOptions) {
    forall a: seq<Entry<V>>, b: seq<Entry<V>> ::
      Stored(a) && Stored(b) && (forall key :: Lookup(a, key) != Lookup(b, key) ==> !ScanInfoMatchesKey(ScanInfo(o, None), key))
      ==> ScanResult(o, a) == ScanResult(o, b)
  }

  /**
   A limit below one is treated as no limit by the generator and as an empty result by the matching, so a change to such a
   scan goes unnoticed; this, for a range that can hold keys at all, is the only case.
   */
  lemma ReliableExactly<V(!new)>(o: ScanOptions, value: V)
    ensures Reliable<V>(o) <==> FairLimit(o) || EmptyRange(o)
  {
    if FairLimit(o) {
      forall a: seq<Entry<V>>, b: seq<Entry<V>> |
        Stored(a) && Stored(b) && forall key :: Lookup(a, key) != Lookup(b, key) ==> !ScanInfoMatchesKey(ScanInfo(o, None), key)
        ensures ScanResult(o, a) == ScanResult(o, b)
      {
        ScanUnaffected(ScanInfo(o, None), a, b);
      }
    } else if EmptyRange(o) {
      forall a: seq<Entry<V>>, b: seq<Entry<V>> | Stored(a) && Stored(b) ensures ScanResult(o, a) == ScanResult(o, b) {
        forall key ensures !Range(o)(key) { EmptyRangeHasNothing(o, key); }
        RestrictNone(a, Range(o));
        RestrictNone(b, Range(o));
      }
    } else {
      SomeKeyInRange(o);
      var a: seq<Entry<V>>, b := [], [(SomeKey(o), value)];
      assert b[1..] == [] && Restrict(b, Range(o)) == b;
      assert ScanResult(o, a) == [] && ScanResult(o, b) == b;
    }
  }

  // ----- reading with a record of what was read

  datatype Request = Get(key: string) | Has(key: string) | IsEmpty | Scan(options: ScanOptions) | Next(scan: nat)

  datatype Answer<V> = Value(value: Option<V>) | Truth(truth: bool) | Opened | Item(entry: Option<Entry<V>>)

  /** What has been read so far: keys, scans in the order they were opened, and how many entries each has yielded. */
  datatype Reads = Reads(keys: set<string>, scans: seq<ScanInfo>, yielded: seq<nat>)

  const EVERYTHING := ScanOptions("", None, None)
  const NOTHING := Reads({}, [], [])

  function Opening(seen: Reads, o: ScanOptions): Reads {
    seen.(scans := seen.scans + [ScanInfo(o, None)], yielded := seen.yielded + [0])
  }

  /** The answer to a request, and the record of reads after it. */
  function Reply<V>(s: seq<Entry<V>>, seen: Reads, request: Request): (Answer<V>, Reads) {
    match request
    case Get(key) => (Value(Lookup(s, key)), seen.(keys := seen.keys + {key}))
    case Has(key) => (Truth(Lookup(s, key).Some?), seen.(keys := seen.keys + {key}))
    case IsEmpty => (Truth(s == []), Opening(seen, EVERYTHING))
    case Scan(o) => (Opened, Opening(seen, o))
    case Next(i) =>
      if i >= |seen.scans| || i >= |seen.yielded| then (Item(None), seen) else
      var o, n := seen.scans[i].options, seen.yielded[i];
      var r := ScanResult(o, s);
      if n < |r| then
        (Item(Some(r[n])), seen.(yielded := seen.yielded[i := n + 1]))
      else if n == |r| && n > 0 && o.limit == Some(n) then
        (Item(None), seen.(scans := seen.scans[i := ScanInfo(o, Some(r[n - 1].0))]))
      else
        (Item(None), seen)
  }

  lemma WithinLimit<V>(o: ScanOptions, s: seq<Entry<V>>)
    ensures o.limit.Some? && o.limit.value >= 1 ==> |ScanResult(o, s)| <= o.limit.value
  {
  }

  // ----- reading, written out

  /**
   The answer is what the entries of the store say. `options` are the options of the scans that have been opened, `IsEmpty`
   being one of them; `taken` is how many entries each has yielded.
   */
  ghost predicate Tells<V>(s: seq<Entry<V>>, options: seq<ScanOptions>, taken: seq<nat>, request: Request, answer: Answer<V>) {
    match request
    case Get(key) =>
      && answer.Value? && (answer.value.Some? ==> (key, answer.value.value) in s)
      && (answer.value.None? ==> forall i :: 0 <= i < |s| ==> s[i].0 != key)
    case Has(key) => answer.Truth? && (answer.truth <==> exists i :: 0 <= i < |s| && s[i].0 == key)
    case IsEmpty => answer.Truth? && (answer.truth <==> |s| == 0)
    case Scan(_) => answer.Opened?
    case Next(i) =>
      && answer.Item?
      && (if i < |options| && i < |taken| then NthEntry(s, options[i], taken[i], answer.entry) else answer.entry == None)
  }

  ghost function OptionsOf(scans: seq<ScanInfo>): (r: seq<ScanOptions>)
    ensures |r| == |scans| && forall i :: 0 <= i < |scans| ==> r[i] == scans[i].options
  {
    seq(|scans|, i requires 0 <= i < |scans| => scans[i].options)
  }

  lemma ReplyTells<V>(s: seq<Entry<V>>, seen: Reads, request: Request)
    requires Stored(s)
    ensures Tells(s, OptionsOf(seen.scans), seen.yielded, request, Reply(s, seen, request).0)
  {
    hide Stored, ScanResult, NthEntry;
    match request
    case Get(key) => LookupAt(s, key);
    case Has(key) => LookupAt(s, key);
    case Next(i) =>
      if i < |seen.scans| && i < |seen.yielded| {
        ScanTells(seen.scans[i].options, s, seen.yielded[i]);
      }
    case _ =>
  }

  /** The wrapper that a body reads through; `open` holds the generators of its scans. */
  class SubscriptionTransactionWrapper<V> {
    const store: seq<Entry<V>>
    var keys: set<string>
    var scans: seq<ScanInfo>
    var open: seq<Generator<V>>
    ghost var yielded: seq<nat>

    /** The generator stands where `n` entries have been taken from it. */
    ghost predicate At(g: Generator<V>, info: ScanInfo, n: nat) {
      var o := info.options;
      var r := ScanResult(o, store);
      && g.options == o && n <= |r| && Pending(g) == r[n..]
      && (if g.finished then
            n == |r| && (n > 0 && o.limit == Some(n) ==> info.inclusiveLimitKey == Some(r[n - 1].0))
          else
            && (g.last == if n == 0 then None else Some(r[n - 1].0))
            && (Countdown(g) == if o.limit.None? then None else Some(o.limit.value - n)))
    }

    ghost predicate Valid()
      reads this
    {
      && Stored(store) && |scans| == |open| == |yielded|
      && forall i :: 0 <= i < |scans| ==> At(open[i], scans[i], yielded[i])
    }

    ghost function Record(): Reads
      reads this
    {
      Reads(keys, scans, yielded)
    }

    constructor (store: seq<Entry<V>>)
      requires Stored(store)
      ensures Valid() && this.store == store && Record() == NOTHING
    {
      this.store, keys, scans, open, yielded := store, {}, [], [], [];
    }

    method OpenScan(o: ScanOptions)
      requires Valid()
      modifies this
      ensures Valid() && Record() == Opening(old(Record()), o)
    {
      hide LowerBound, ScanResult;
      ScanYields(o, store);
      scans, open, yielded := scans + [ScanInfo(o, None)], open + [Open(o, store)], yielded + [0];
    }

    method NextEntry(i: nat) returns (answer: Answer<V>)
      requires Valid() && i < |scans|
      modifies this
      ensures Valid() && (answer, Record()) == Reply(store, old(Record()), Next(i))
    {
      hide ScanResult, Pending;
      var g, entry, limitKey := ScanIterator.Next(open[i]);
      ghost var n, r := yielded[i], ScanResult(scans[i].options, store);
      assert Pending(open[i]) == r[n..];
      WithinLimit(scans[i].options, store);
      assert scans[i := scans[i]] == scans;
      open := open[i := g];
      if limitKey.Some? {
        scans := scans[i := scans[i].(inclusiveLimitKey := limitKey)];
      }
      if entry.Some? {
        yielded := yielded[i := n + 1];
      }
      return Item(entry);
    }

    method Ask(request: Request) returns (answer: Answer<V>)
      requires Valid()
      modifies this
      ensures Valid() && (answer, Record()) == Reply(store, old(Record()), request)
      ensures Tells(store, OptionsOf(old(scans)), old(yielded), request, answer)
    {
      hide Tells;
      ReplyTells(store, Record(), request);
      match request {
        case Get(key) =>
          keys := keys + {key};
          answer := Value(Lookup(store, key));
        case Has(key) =>
          keys := keys + {key};
          answer := Truth(Lookup(store, key).Some?);
        case IsEmpty =>
          OpenScan(EVERYTHING);
          answer := Truth(store == []);
        case Scan(o) =>
          OpenScan(o);
          answer := Opened;
        case Next(i) =>
          if i >= |scans| {
            return Item(None);
          }
          answer := NextEntry(i);
      }
    }
  }

  // ----- runs of a body

  datatype Outcome<+R> = Fulfilled(value: R) | Rejected

  datatype Action<+R> = Ask(request: Request) | Finish(outcome: Outcome<R>)

  /** A deterministic body: what it does next is a function of the answers it has got so far. */
  type Body<!V, +R> = seq<Answer<V>> -> Action<R>

  /** What has been read when the answers `h` have been given. */
  ghost function ReadsOf<V, R>(body: Body<V, R>, s: seq<Entry<V>>, h: seq<Answer<V>>): Reads {
    if h == [] then NOTHING else
      var n := |h| - 1;
      var before := ReadsOf(body, s, h[..n]);
      if body(h[..n]).Ask? then Reply(s, before, body(h[..n]).request).1 else before
  }

  /** `h` is what the body is answered when it runs on the store `s`. */
  ghost predicate Follows<V, R>(body: Body<V, R>, s: seq<Entry<V>>, h: seq<Answer<V>>) {
    h == [] ||
    var n := |h| - 1;
    && Follows(body, s, h[..n])
    && body(h[..n]).Ask?
    && h[n] == Reply(s, ReadsOf(body, s, h[..n]), body(h[..n]).request).0
  }

  /** A run from beginning to end. */
  ghost predicate Completes<V, R>(body: Body<V, R>, s: seq<Entry<V>>, h: seq<Answer<V>>) {
    Follows(body, s, h) && body(h).Finish?
  }

  /** The scans that a run has opened, in order; asking whether the store is empty counts as one. */
  ghost function OpenedBy<V, R>(body: Body<V, R>, h: seq<Answer<V>>): seq<ScanOptions> {
    if h == [] then [] else
      var n := |h| - 1;
      OpenedBy(body, h[..n]) +
      if body(h[..n]).Ask? && body(h[..n]).request.Scan? then [body(h[..n]).request.options]
      else if body(h[..n]).Ask? && body(h[..n]).request.IsEmpty? then [EVERYTHING]
      else []
  }

  /** How many entries a run has been given by its `i`-th scan. */
  ghost function TakenFrom<V, R>(body: Body<V, R>, h: seq<Answer<V>>, i: nat): nat {
    if h == [] then 0 else
      var n := |h| - 1;
      TakenFrom(body, h[..n], i) +
      if body(h[..n]) == Ask(Next(i)) && h[n].Item? && h[n].entry.Some? then 1 else 0
  }

  ghost function TakenBy<V, R>(body: Body<V, R>, h: seq<Answer<V>>): (r: seq<nat>)
    ensures |r| == |OpenedBy(body, h)|
    ensures forall i :: 0 <= i < |r| ==> r[i] == TakenFrom(body, h, i)
  {
    seq(|OpenedBy(body, h)|, i requires 0 <= i < |OpenedBy(body, h)| => TakenFrom(body, h, i))
  }

  /** The `k`-th answer of a run is what the entries of the store say. */
  ghost predicate Told<V, R>(body: Body<V, R>, s: seq<Entry<V>>, h: seq<Answer<V>>, k: nat)
    requires k < |h|
  {
    body(h[..k]).Ask? && Tells(s, OpenedBy(body, h[..k]), TakenBy(body, h[..k]), body(h[..k]).request, h[k])
  }

  /** A run has asked for the key. */
  ghost predicate AskedFor<V, R>(body: Body<V, R>, h: seq<Answer<V>>, key: string) {
    exists k :: 0 <= k < |h| && (body(h[..k]) == Ask(Get(key)) || body(h[..k]) == Ask(Has(key)))
  }

  /** What is recorded is what the run has asked for, and the scans with what they have given. */
  lemma {:induction false} RecordIs<V, R>(body: Body<V, R>, s: seq<Entry<V>>, h: seq<Answer<V>>)
    requires Follows(body, s, h)
    ensures OptionsOf(ReadsOf(body, s, h).scans) == OpenedBy(body, h) && ReadsOf(body, s, h).yielded == TakenBy(body, h)
    ensures forall key :: key in ReadsOf(body, s, h).keys <==> AskedFor(body, h, key)
    decreases |h|
  {
    hide ScanResult, Lookup, AskedFor, Reply, TakenBy;
    if h == [] {
      NothingAsked(body);
    } else {
      var n := |h| - 1;
      RecordIs(body, s, h[..n]);
      forall key { AskedMore(body, h, key); }
      RecordStep(s, ReadsOf(body, s, h[..n]), body(h[..n]).request);
      assert OptionsOf(ReadsOf(body, s, h).scans) == OpenedBy(body, h);
      forall i | 0 <= i < |ReadsOf(body, s, h).yielded| ensures ReadsOf(body, s, h).yielded[i] == TakenBy(body, h)[i] {
        if i >= |OpenedBy(body, h[..n])| { NothingTaken(body, s, h[..n], i); }
      }
    }
  }

  lemma RecordStep<V>(s: seq<Entry<V>>, seen: Reads, request: Request)
    requires |seen.scans| == |seen.yielded|
    ensures var (answer, later) := Reply(s, seen, request);
      && OptionsOf(later.scans) == OptionsOf(seen.scans) +
           (if request.Scan? then [request.options] else if request.IsEmpty? then [EVERYTHING] else [])
      && |later.yielded| == |later.scans|
      && (forall i :: 0 <= i < |seen.yielded| ==>
            later.yielded[i] == seen.yielded[i] + if request == Next(i) && answer.Item? && answer.entry.Some? then 1 else 0)
      && (forall i :: |seen.yielded| <= i < |later.yielded| ==> later.yielded[i] == 0 && request != Next(i))
      && (forall key :: key in later.keys <==> key in seen.keys || request == Get(key) || request == Has(key))
  {
    hide ScanResult, Lookup;
  }

  /** Nothing is taken from a scan that is not open. */
  lemma {:induction false} NothingTaken<V, R>(body: Body<V, R>, s: seq<Entry<V>>, h: seq<Answer<V>>, i: nat)
    requires Follows(body, s, h) && i >= |OpenedBy(body, h)|
    ensures TakenFrom(body, h, i) == 0
    decreases |h|
  {
    hide ScanResult, Lookup;
    if h != [] {
      var n := |h| - 1;
      NothingTaken(body, s, h[..n], i);
      RecordIs(body, s, h[..n]);
    }
  }

  lemma NothingAsked<V, R>(body: Body<V, R>)
    ensures forall key :: !AskedFor(body, [], key)
  {
  }

  lemma AskedMore<V, R>(body: Body<V, R>, h: seq<Answer<V>>, key: string)
    requires h != []
    ensures var n := |h| - 1;
      AskedFor(body, h, key) <==>
        AskedFor(body, h[..n], key) || body(h[..n]) == Ask(Get(key)) || body(h[..n]) == Ask(Has(key))
  {
    var n := |h| - 1;
    assert forall k :: 0 <= k <= n ==> h[..n][..k] == h[..k];
  }

  /** `later` records at least what `earlier` does. */
  ghost predicate Leads(earlier: Reads, later: Reads) {
    && earlier.keys <= later.keys && |earlier.scans| <= |later.scans|
    && |earlier.yielded| == |earlier.scans| && |later.yielded| == |later.scans|
    && forall i :: 0 <= i < |earlier.scans| ==> earlier.scans[i].options == later.scans[i].options
  }

  lemma ReplyLeads<V>(s: seq<Entry<V>>, seen: Reads, request: Request)
    requires |seen.scans| == |seen.yielded|
    ensures Leads(seen, Reply(s, seen, request).1)
  {
    hide ScanResult;
  }

  lemma {:induction false} ReadsGrow<V, R>(body: Body<V, R>, s: seq<Entry<V>>, h: seq<Answer<V>>, m: nat)
    requires Follows(body, s, h) && m <= |h|
    ensures Follows(body, s, h[..m]) && Leads(ReadsOf(body, s, h[..m]), ReadsOf(body, s, h))
    decreases |h|
  {
    hide Reply;
    if m == |h| {
      assert h[..m] == h;
    }
    if h != [] {
      var n := |h| - 1;
      ReadsGrow(body, s, h[..n], if m <= n then m else n);
      ReplyLeads(s, ReadsOf(body, s, h[..n]), body(h[..n]).request);
      if m <= n { assert h[..n][..m] == h[..m]; }
    }
  }

  /** Whatever a body does, each of its answers is what the entries of the store say. */
  lemma AllTold<V, R>(body: Body<V, R>, s: seq<Entry<V>>, h: seq<Answer<V>>)
    requires Stored(s) && Follows(body, s, h)
    ensures forall k :: 0 <= k < |h| ==> Told(body, s, h, k)
  {
    hide Reply, Tells, Stored, OpenedBy;
    forall k | 0 <= k < |h| ensures Told(body, s, h, k) {
      ReadsGrow(body, s, h, k + 1);
      assert h[..k + 1][..k] == h[..k];
      ReplyTells(s, ReadsOf(body, s, h[..k]), body(h[..k]).request);
      RecordIs(body, s, h[..k]);
    }
  }

  /** Every limit key in the record is where its scan stopped. */
  lemma {:induction false} AllRecorded<V, R>(body: Body<V, R>, s: seq<Entry<V>>, h: seq<Answer<V>>)
    requires Follows(body, s, h)
    ensures forall i :: 0 <= i < |ReadsOf(body, s, h).scans| ==> Recorded(ReadsOf(body, s, h).scans[i], s)
    decreases |h|
  {
    if h != [] {
      AllRecorded(body, s, h[..|h| - 1]);
    }
  }

  /** No changed key was read, and no changed key is one that a scan depends on. */
  ghost predicate Unmatched<V>(seen: Reads, a: seq<Entry<V>>, b: seq<Entry<V>>) {
    forall key :: Lookup(a, key) != Lookup(b, key) ==>
      key !in seen.keys && forall i :: 0 <= i < |seen.scans| ==> !ScanInfoMatchesKey(seen.scans[i], key)
  }

  /** The scans of a body have no limit, or a limit of at least one. */
  ghost predicate AllFair(seen: Reads) {
    forall i :: 0 <= i < |seen.scans| ==> FairLimit(seen.scans[i].options)
  }

  /** A read that ends up in an unmatched record is answered alike by both stores. */
  lemma SameReply<V>(a: seq<Entry<V>>, b: seq<Entry<V>>, seen: Reads, request: Request, final: Reads)
    requires Stored(a) && Stored(b) && Leads(Reply(a, seen, request).1, final) && |seen.scans| == |seen.yielded|
    requires Unmatched(final, a, b) && AllFair(final)
    requires forall i :: 0 <= i < |final.scans| ==> Recorded(final.scans[i], a)
    ensures Reply(a, seen, request) == Reply(b, seen, request)
  {
    hide CompareUtf8, Stored, ScanResult;
    match request
    case IsEmpty =>
      var info := final.scans[|seen.scans|];
      assert info.options == EVERYTHING;
      forall key ensures Lookup(a, key) == Lookup(b, key) {
        assert ScanInfoMatchesKey(info, key);
      }
      if a != [] { assert Lookup(b, a[0].0).Some?; }
      if b != [] { assert Lookup(a, b[0].0).Some?; }
    case Next(i) =>
      if i < |seen.scans| {
        ScanUnaffected(final.scans[i], a, b);
      }
    case _ =>
  }

  /** The run on the other store is the same run, as far as it goes. */
  lemma {:induction false} SameSteps<V, R>(body: Body<V, R>, a: seq<Entry<V>>, b: seq<Entry<V>>, h: seq<Answer<V>>, m: nat)
    requires Stored(a) && Stored(b) && Follows(body, a, h) && m <= |h|
    requires Unmatched(ReadsOf(body, a, h), a, b) && AllFair(ReadsOf(body, a, h))
    ensures Follows(body, b, h[..m]) && ReadsOf(body, b, h[..m]) == ReadsOf(body, a, h[..m])
  {
    hide Unmatched, AllFair, Recorded, Reply;
    if m > 0 {
      SameSteps(body, a, b, h, m - 1);
      assert h[..m][..m - 1] == h[..m - 1];
      ReadsGrow(body, a, h, m - 1);
      ReadsGrow(body, a, h, m);
      AllRecorded(body, a, h);
      SameReply(a, b, ReadsOf(body, a, h[..m - 1]), body(h[..m - 1]).request, ReadsOf(body, a, h));
    }
  }

  /**
   Why it is enough to rerun the bodies that a diff matches: a body that no changed key matches would ask the same
   questions, get the same answers, finish alike and leave the same record.
   */
  lemma SameRun<V, R>(body: Body<V, R>, a: seq<Entry<V>>, b: seq<Entry<V>>, h: seq<Answer<V>>)
    requires Stored(a) && Stored(b) && Completes(body, a, h)
    requires Unmatched(ReadsOf(body, a, h), a, b) && AllFair(ReadsOf(body, a, h))
    ensures Completes(body, b, h) && ReadsOf(body, b, h) == ReadsOf(body, a, h)
  {
    SameSteps(body, a, b, h, |h|);
    assert h[..|h|] == h;
  }

  // ----- diffs

  datatype DiffOp<+V> = Add(key: string, newValue: V) | Change(key: string, oldValue: V, newValue: V)
                      | Del(key: string, oldValue: V)
  {
    function Old(): Option<V> { if Add? then None else Some(oldValue) }
    function New(): Option<V> { if Del? then None else Some(newValue) }
  }

  function DiffKeys<V>(diff: seq<DiffOp<V>>): (r: seq<string>)
    ensures |r| == |diff| && forall i :: 0 <= i < |diff| ==> r[i] == diff[i].key
  {
    seq(|diff|, i requires 0 <= i < |diff| => diff[i].key)
  }

  /** The diff of two stores: in key order, true, and complete. */
  ghost predicate IsDiff<V>(a: seq<Entry<V>>, b: seq<Entry<V>>, diff: seq<DiffOp<V>>) {
    && Sorted(CompareUtf8, DiffKeys(diff))
    && (forall i :: 0 <= i < |diff| ==> Lookup(a, diff[i].key) == diff[i].Old() && Lookup(b, diff[i].key) == diff[i].New())
    && (forall key :: Lookup(a, key) != Lookup(b, key) ==> key in DiffKeys(diff))
  }

  /** `diffMatchesSubscription` */
  predicate DiffMatchesSubscription<V>(keys: set<string>, scans: seq<ScanInfo>, diff: seq<DiffOp<V>>) {
    || (exists i :: 0 <= i < |diff| && diff[i].key in keys)
    || (exists j :: 0 <= j < |scans| && exists i :: 0 <= i < |diff| && ScanInfoMatchesKey(scans[j], diff[i].key))
  }

  /** `scanInfoMatchesDiff` */
  method ScanInfoMatchesDiff<V>(info: ScanInfo, diff: seq<DiffOp<V>>) returns (r: bool)
    ensures r <==> exists i :: 0 <= i < |diff| && ScanInfoMatchesKey(info, diff[i].key)
  {
    for i := 0 to |diff|
      invariant forall j :: 0 <= j < i ==> !ScanInfoMatchesKey(info, diff[j].key)
    {
      if ScanInfoMatchesKey(info, diff[i].key) {
        return true;
      }
    }
    return false;
  }

  /** The loops of `diffMatchesSubscription`. */
  method MatchDiff<V>(keys: set<string>, scans: seq<ScanInfo>, diff: seq<DiffOp<V>>) returns (r: bool)
    ensures r <==>
      || (exists i :: 0 <= i < |diff| && diff[i].key in keys)
      || (exists j :: 0 <= j < |scans| && exists i :: 0 <= i < |diff| && ScanInfoMatchesKey(scans[j], diff[i].key))
  {
    for i := 0 to |diff|
      invariant forall j :: 0 <= j < i ==> diff[j].key !in keys
    {
      if diff[i].key in keys {
        return true;
      }
    }
    for j := 0 to |scans|
      invariant forall k :: 0 <= k < j ==> forall i :: 0 <= i < |diff| ==> !ScanInfoMatchesKey(scans[k], diff[i].key)
    {
      var matches := ScanInfoMatchesDiff(scans[j], diff);
      if matches {
        return true;
      }
    }
    return false;
  }

  lemma NoMatch<V>(seen: Reads, a: seq<Entry<V>>, b: seq<Entry<V>>, diff: seq<DiffOp<V>>)
    requires IsDiff(a, b, diff) && !DiffMatchesSubscription(seen.keys, seen.scans, diff)
    ensures Unmatched(seen, a, b)
  {
    forall key | Lookup(a, key) != Lookup(b, key)
      ensures key !in seen.keys && forall i :: 0 <= i < |seen.scans| ==> !ScanInfoMatchesKey(seen.scans[i], key)
    {
      var i :| 0 <= i < |diff| && diff[i].key == key;
    }
  }

  // ----- subscriptions

  /** Two runs of a body on one store get the same answers. */
  lemma OneRun<V, R>(body: Body<V, R>, s: seq<Entry<V>>, h: seq<Answer<V>>, k: seq<Answer<V>>)
    requires Completes(body, s, h) && Completes(body, s, k)
    ensures h == k
  {
    if |h| <= |k| { OneEnds(body, s, h, k); } else { OneEnds(body, s, k, h); }
  }

  /** A run that has finished does not go on. */
  lemma OneEnds<V, R>(body: Body<V, R>, s: seq<Entry<V>>, h: seq<Answer<V>>, k: seq<Answer<V>>)
    requires Completes(body, s, h) && Completes(body, s, k) && |h| <= |k|
    ensures h == k
  {
    OnePrefix(body, s, h, k, |h|);
    assert h[..|h|] == h;
    AsksBefore(body, s, k, |h|);
    assert |h| == |k| ==> k[..|h|] == k;
  }

  lemma AsksBefore<V, R>(body: Body<V, R>, s: seq<Entry<V>>, h: seq<Answer<V>>, m: nat)
    requires Follows(body, s, h) && m <= |h|
    ensures m < |h| ==> body(h[..m]).Ask?
  {
    if m < |h| {
      FollowsPart(body, s, h, m + 1);
      assert h[..m + 1][..m] == h[..m];
    }
  }

  lemma {:induction false} FollowsPart<V, R>(body: Body<V, R>, s: seq<Entry<V>>, h: seq<Answer<V>>, m: nat)
    requires Follows(body, s, h) && m <= |h|
    ensures Follows(body, s, h[..m])
    decreases |h|
  {
    hide Reply, ReadsOf;
    if m < |h| {
      FollowsPart(body, s, h[..|h| - 1], m);
      assert h[..|h| - 1][..m] == h[..m];
    } else {
      assert h[..m] == h;
    }
  }

  lemma {:induction false} OnePrefix<V, R>(body: Body<V, R>, s: seq<Entry<V>>, h: seq<Answer<V>>, k: seq<Answer<V>>, m: nat)
    requires Follows(body, s, h) && Follows(body, s, k) && m <= |h| && m <= |k|
    ensures h[..m] == k[..m]
  {
    hide Reply, ReadsOf;
    if m > 0 {
      OnePrefix(body, s, h, k, m - 1);
      FollowsPart(body, s, h, m);
      FollowsPart(body, s, k, m);
      assert h[..m][..m - 1] == h[..m - 1] && k[..m][..m - 1] == k[..m - 1];
      assert h[..m] == h[..m - 1] + [h[m - 1]] && k[..m] == k[..m - 1] + [k[m - 1]];
    }
  }

  class SubscriptionImpl<V(!new), R(!new)> {
    const body: Body<V, R>
    const isEqual: (R, R) -> bool
    /** Bodies finish: on each store, after a number of questions that depends on the store. */
    ghost const bound: seq<Entry<V>> -> nat
    var keys: set<string>
    var scans: seq<ScanInfo>
    var lastValue: Option<R>
    /** All values that the callback has been given. */
    var delivered: seq<R>
    /** How many fires have selected the subscription but not run it, and the results, in order of the runs, to be delivered. */
    var selected: nat
    var results: seq<Outcome<R>>
    ghost var answers: seq<Answer<V>>
    ghost var ran: bool
    /** Of the last run's result and a different one of an earlier run, the earlier one was delivered later. */
    ghost var stale: bool

    constructor (body: Body<V, R>, isEqual: (R, R) -> bool, ghost bound: seq<Entry<V>> -> nat)
      ensures this.body == body && this.isEqual == isEqual && this.bound == bound
      ensures New()
    {
      this.body, this.isEqual, this.bound := body, isEqual, bound;
      keys, scans, lastValue, delivered, selected, results, answers, ran, stale := {}, [], None, [], 0, [], [], false, false;
    }

    ghost predicate New()
      reads this
    {
      && keys == {} && scans == [] && lastValue == None && delivered == [] && results == [] && selected == 0 && !ran && !stale
    }

    ghost predicate Finishes() {
      forall s, h :: Follows(body, s, h) && body(h).Ask? ==> |h| < bound(s)
    }

    /** Bodies finish, and use no limit below one. */
    ghost predicate Sensible() {
      && Finishes()
      && forall s, h :: Follows(body, s, h) ==> AllFair(ReadsOf(body, s, h))
    }

    /** The record is the record of a run of the body on the store `s`. */
    ghost predicate UpToDate(s: seq<Entry<V>>)
      reads `keys, `scans, `answers
    {
      && Completes(body, s, answers)
      && keys == ReadsOf(body, s, answers).keys && scans == ReadsOf(body, s, answers).scans
    }

    /** The last value is `outcome`, as far as `isEqual` can tell; a failing body leaves the last value alone. */
    ghost predicate Shows(outcome: Outcome<R>)
      reads this
    {
      outcome.Fulfilled? ==> lastValue.Some? && (lastValue.value == outcome.value || isEqual(lastValue.value, outcome.value))
    }

    /** The subscription is up to date with the store `s`: so is its record, and its last value is what that run returned. */
    ghost predicate Current(s: seq<Entry<V>>)
      reads this
    {
      && UpToDate(s) && Shows(body(answers).outcome)
      && lastValue == if delivered == [] then None else Some(delivered[|delivered| - 1])
    }

    /** The last value, or the result to be delivered last, is that of the last run. */
    ghost predicate Kept()
      reads this
    {
      && Sensible() && lastValue == (if delivered == [] then None else Some(delivered[|delivered| - 1]))
      && (!ran ==> keys == {} && scans == [] && lastValue == None && results == [] && !stale)
      && (ran ==> body(answers).Finish?)
      && (ran && !stale ==>
            if results == [] then Shows(body(answers).outcome) else results[|results| - 1] == body(answers).outcome)
    }

    /** All results to be delivered are those of the last run. */
    ghost predicate Prompt()
      reads `results, `answers
    {
      results == [] || (body(answers).Finish? && forall i :: 0 <= i < |results| ==> results[i] == body(answers).outcome)
    }

    /** The source's loops over the keys and scans of the record: some changed key has been read, or lies in a scan's range. */
    method Matches(diff: seq<DiffOp<V>>) returns (r: bool)
      ensures r <==> DiffMatchesSubscription(keys, scans, diff)
      ensures !r ==> forall s, t :: UpToDate(s) && Stored(s) && Stored(t) && IsDiff(s, t, diff) && Sensible() ==> UpToDate(t)
    {
      hide ReadsOf, IsDiff, Stored, Completes, Sensible;
      r := MatchDiff(keys, scans, diff);
      if !r {
        forall s, t | UpToDate(s) && Stored(s) && Stored(t) && IsDiff(s, t, diff) && Sensible() ensures UpToDate(t) {
          SkippedRecord(s, t, diff);
        }
      }
    }

    /** Run the body on a store, and remember what it read even if it fails. */
    method Invoke(store: seq<Entry<V>>) returns (outcome: Outcome<R>)
      requires Stored(store) && Finishes()
      modifies this`keys, this`scans, this`answers
      ensures UpToDate(store) && outcome == body(answers).outcome
      ensures forall k :: 0 <= k < |answers| ==> Told(body, store, answers, k)
    {
      hide Told, Tells;
      var tx := new SubscriptionTransactionWrapper(store);
      var h := [];
      while body(h).Ask?
        invariant tx.Valid() && fresh(tx) && tx.store == store
        invariant Follows(body, store, h) && tx.Record() == ReadsOf(body, store, h)
        decreases bound(store) - |h|
      {
        var answer := tx.Ask(body(h).request);
        assert (h + [answer])[..|h|] == h;
        h := h + [answer];
      }
      AllTold(body, store, h);
      keys, scans, answers := tx.keys, tx.scans, h;
      return body(h).outcome;
    }

    method OnData(outcome: Outcome<R>)
      requires lastValue == if delivered == [] then None else Some(delivered[|delivered| - 1])
      modifies this`lastValue, this`delivered
      ensures lastValue == if delivered == [] then None else Some(delivered[|delivered| - 1])
      ensures outcome.Rejected? ==> lastValue == old(lastValue) && delivered == old(delivered)
      ensures outcome.Fulfilled? ==>
        && lastValue.Some? && (lastValue.value == outcome.value || isEqual(lastValue.value, outcome.value))
        && delivered == old(delivered) + (if old(lastValue).Some? && isEqual(old(lastValue).value, outcome.value) then []
                                          else [outcome.value])
    {
      if outcome.Fulfilled? {
        if lastValue.None? || !isEqual(lastValue.value, outcome.value) {
          lastValue := Some(outcome.value);
          delivered := delivered + [outcome.value];
        }
      }
    }

    /** A fire selects the subscription, if its diff matches. */
    method Select(diff: seq<DiffOp<V>>)
      modifies this`selected
      ensures selected == old(selected) + if DiffMatchesSubscription(keys, scans, diff) then 1 else 0
    {
      hide DiffMatchesSubscription;
      var matches := Matches(diff);
      if matches {
        selected := selected + 1;
      }
    }

    /** One of the fires that have selected the subscription runs its body on the store of that moment. */
    method Run(store: seq<Entry<V>>)
      requires Stored(store) && Kept() && selected > 0
      modifies this
      ensures Kept() && UpToDate(store) && ran && selected == old(selected) - 1 && results == old(results) + [body(answers).outcome]
      ensures lastValue == old(lastValue) && delivered == old(delivered) && !stale
      ensures old(results == [] || (UpToDate(store) && Prompt())) ==> Prompt()
    {
      hide ReadsOf;
      ghost var was := answers;
      var outcome := Invoke(store);
      if old(UpToDate(store)) { OneRun(body, store, was, answers); }
      selected, results, ran, stale := selected - 1, results + [outcome], true, false;
    }

    /** One of the fires that have run the subscription calls its callback. */
    method Deliver(k: nat)
      requires Kept() && k < |results|
      modifies this`results, this`lastValue, this`delivered, this`stale
      ensures Kept() && results == old(results)[..k] + old(results)[k + 1..]
      ensures stale == old(stale || (k == |results| - 1 && exists j :: 0 <= j < k && results[j] != results[k]))
      ensures old(Prompt()) ==> Prompt() && stale == old(stale)
    {
      hide Sensible;
      OnData(results[k]);
      stale := stale || (k == |results| - 1 && exists j :: 0 <= j < k && results[j] != results[k]);
      results := results[..k] + results[k + 1..];
    }

    lemma SkippedRecord(a: seq<Entry<V>>, b: seq<Entry<V>>, diff: seq<DiffOp<V>>)
      requires Stored(a) && Stored(b) && IsDiff(a, b, diff) && UpToDate(a) && Sensible()
      requires !DiffMatchesSubscription(keys, scans, diff)
      ensures UpToDate(b)
    {
      hide ReadsOf, IsDiff, Stored, DiffMatchesSubscription;
      NoMatch(ReadsOf(body, a, answers), a, b, diff);
      SameRun(body, a, b, answers);
    }

    /** A subscription that the diff does not match needs no run. */
    lemma Skipped(a: seq<Entry<V>>, b: seq<Entry<V>>, diff: seq<DiffOp<V>>)
      requires Stored(a) && Stored(b) && IsDiff(a, b, diff) && Current(a) && Sensible()
      requires !DiffMatchesSubscription(keys, scans, diff)
      ensures Current(b)
    {
      hide ReadsOf, IsDiff, Stored, DiffMatchesSubscription, Sensible;
      SkippedRecord(a, b, diff);
    }
  }
}
