/**
 Watchers get the operations of each commit's diff whose keys have their prefix, and keep a copy of these entries. The diffs
 are selected at the commits and delivered later; so are the initial values.
 */
module Watches {
  import opened Wrappers
  import opened SortedSet
  import opened KeyOrder
  import opened ScanIterator
  import opened Subscriptions
  import BinarySearch

  // ----- the operations with a prefix

  /** The operations on keys with the prefix. */
  function WithPrefix<V>(diff: seq<DiffOp<V>>, prefix: string): seq<DiffOp<V>> {
    if diff == [] then []
    else if StartsWith(diff[0].key, prefix) then [diff[0]] + WithPrefix(diff[1..], prefix)
    else WithPrefix(diff[1..], prefix)
  }

  lemma {:induction false} PrefixAfter<V>(diff: seq<DiffOp<V>>, i: nat, prefix: string)
    requires i <= |diff| && forall j :: 0 <= j < i ==> !StartsWith(diff[j].key, prefix)
    ensures WithPrefix(diff, prefix) == WithPrefix(diff[i..], prefix)
  {
    if i > 0 {
      PrefixAfter(diff[1..], i - 1, prefix);
      assert diff[1..][i - 1..] == diff[i..];
    } else {
      assert diff[0..] == diff;
    }
  }

  lemma DiffPairs<V>(diff: seq<DiffOp<V>>)
    ensures Sorted(CompareUtf8, DiffKeys(diff))
      <==> forall i, j :: 0 <= i < j < |diff| ==> CompareUtf8(diff[i].key, diff[j].key) < 0
  {
    SortedPairs(CompareUtf8, DiffKeys(diff));
  }

  /** `diffBinarySearch`: the index of the first operation whose key is not below the prefix. */
  method DiffBinarySearch<V>(diff: seq<DiffOp<V>>, prefix: string) returns (i: nat)
    requires Sorted(CompareUtf8, DiffKeys(diff))
    ensures i <= |diff|
    ensures forall j :: 0 <= j < i ==> CompareUtf8(diff[j].key, prefix) < 0
    ensures forall j :: i <= j < |diff| ==> CompareUtf8(prefix, diff[j].key) <= 0
  {
    DiffPairs(diff);
    var compare := i requires 0 <= i < |diff| => CompareUtf8(prefix, diff[i].key);
    forall i, j | 0 <= i <= j < |diff|
      ensures (compare(i) <= 0 ==> compare(j) <= 0) && (compare(i) < 0 ==> compare(j) < 0)
    {
      if i < j && compare(i) <= 0 { Below(prefix, diff[i].key, diff[j].key); }
    }
    i := BinarySearch.Search(|diff|, compare);
    forall j | 0 <= j < |diff| ensures (CompareUtf8(diff[j].key, prefix) < 0 <==> compare(j) > 0) {
      Antisymmetric(diff[j].key, prefix);
    }
    if i < |diff| && compare(i) == 0 {
      forall j | 0 <= j < i ensures CompareUtf8(diff[j].key, prefix) < 0 { assert diff[i].key == prefix; }
    }
  }

  /** Once a key at or after the prefix lacks it, all later keys do. */
  lemma {:induction false} PrefixEnds<V>(diff: seq<DiffOp<V>>, prefix: string)
    requires Sorted(CompareUtf8, DiffKeys(diff)) && diff != []
    requires CompareUtf8(prefix, diff[0].key) <= 0 && !StartsWith(diff[0].key, prefix)
    ensures WithPrefix(diff, prefix) == []
  {
    DiffPairs(diff);
    forall j | 0 <= j < |diff| ensures !StartsWith(diff[j].key, prefix) {
      if j > 0 && StartsWith(diff[j].key, prefix) { PrefixInterval(prefix, diff[0].key, diff[j].key); }
    }
    PrefixAfter(diff, |diff|, prefix);
  }

  /** Where the search ends is where the operations with the prefix begin. */
  lemma BeginsAt<V>(diff: seq<DiffOp<V>>, prefix: string, i: nat)
    requires i <= |diff| && forall j :: 0 <= j < i ==> CompareUtf8(diff[j].key, prefix) < 0
    ensures WithPrefix(diff, prefix) == WithPrefix(diff[i..], prefix)
  {
    forall j | 0 <= j < i ensures !StartsWith(diff[j].key, prefix) {
      if StartsWith(diff[j].key, prefix) {
        PrefixFirst(prefix, diff[j].key);
        Antisymmetric(prefix, diff[j].key);
        Antisymmetric(diff[j].key, prefix);
        assert false;
      }
    }
    PrefixAfter(diff, i, prefix);
  }

  lemma TailIsSorted<V>(diff: seq<DiffOp<V>>, i: nat)
    requires Sorted(CompareUtf8, DiffKeys(diff)) && i <= |diff|
    ensures Sorted(CompareUtf8, DiffKeys(diff[i..]))
  {
    hide Sorted, DiffKeys, CompareUtf8;
    assert DiffKeys(diff[i..]) == DiffKeys(diff)[i..];
    SortedPart(CompareUtf8, DiffKeys(diff), i, i);
  }

  /** The search and the loop that stops at the first foreign key together keep exactly the operations with the prefix. */
  method SelectPrefix<V>(diff: seq<DiffOp<V>>, prefix: string) returns (newDiff: seq<DiffOp<V>>)
    requires Sorted(CompareUtf8, DiffKeys(diff))
    ensures newDiff == WithPrefix(diff, prefix)
  {
    hide Sorted, CompareUtf8, WithPrefix;
    newDiff := [];
    var i := DiffBinarySearch(diff, prefix);
    BeginsAt(diff, prefix, i);
    ghost var first := i;
    while i < |diff|
      invariant first <= i <= |diff|
      invariant newDiff + WithPrefix(diff[i..], prefix) == WithPrefix(diff, prefix)
    {
      if !StartsWith(diff[i].key, prefix) {
        TailIsSorted(diff, i);
        PrefixEnds(diff[i..], prefix);
        return;
      }
      NextWithPrefix(diff, i, prefix);
      newDiff := newDiff + [diff[i]];
      i := i + 1;
    }
    NoneLeft(diff, prefix);
  }

  lemma NextWithPrefix<V>(diff: seq<DiffOp<V>>, i: nat, prefix: string)
    requires i < |diff| && StartsWith(diff[i].key, prefix)
    ensures WithPrefix(diff[i..], prefix) == [diff[i]] + WithPrefix(diff[i + 1..], prefix)
  {
    assert diff[i..][1..] == diff[i + 1..];
  }

  lemma NoneLeft<V>(diff: seq<DiffOp<V>>, prefix: string)
    ensures WithPrefix(diff[|diff|..], prefix) == []
  {
  }

  /** `watcherMatchesDiff` */
  method WatcherMatchesDiff<V>(diff: seq<DiffOp<V>>, prefix: string) returns (r: bool)
    requires Sorted(CompareUtf8, DiffKeys(diff))
    ensures r <==> prefix == "" || WithPrefix(diff, prefix) != []
  {
    hide Sorted, CompareUtf8;
    if prefix == "" {
      return true;
    }
    var i := DiffBinarySearch(diff, prefix);
    BeginsAt(diff, prefix, i);
    if i < |diff| && !StartsWith(diff[i].key, prefix) {
      TailIsSorted(diff, i);
      PrefixEnds(diff[i..], prefix);
    }
    r := i < |diff| && StartsWith(diff[i].key, prefix);
  }

  function NotEmpty<A>(s: seq<A>): seq<seq<A>> {
    if s == [] then [] else [s]
  }

  /** A diff for a watcher, if it selects it. */
  function Chosen<V>(diff: seq<DiffOp<V>>, prefix: string): seq<seq<DiffOp<V>>> {
    if prefix == "" || WithPrefix(diff, prefix) != [] then [diff] else []
  }

  // ----- what a watcher makes of its diffs

  function ApplyOp<V>(m: map<string, V>, op: DiffOp<V>): map<string, V> {
    if op.Del? then m - {op.key} else m[op.key := op.newValue]
  }

  function ApplyDiff<V>(m: map<string, V>, diff: seq<DiffOp<V>>): map<string, V>
    decreases |diff|
  {
    if diff == [] then m else ApplyDiff(ApplyOp(m, diff[0]), diff[1..])
  }

  function Find<V>(m: map<string, V>, key: string): Option<V> {
    if key in m then Some(m[key]) else None
  }

  /** The consumer's copy has, for every key with the prefix, what the store has; and nothing else. */
  ghost predicate Mirrors<V>(m: map<string, V>, prefix: string, s: seq<Entry<V>>) {
    forall key :: Find(m, key) == if StartsWith(key, prefix) then Lookup(s, key) else None
  }

  /** Everything in the consumer's copy is as in the store, but some entries may be missing. */
  ghost predicate PartOf<V>(m: map<string, V>, prefix: string, s: seq<Entry<V>>) {
    forall key :: key in m ==> StartsWith(key, prefix) && Find(m, key) == Lookup(s, key)
  }

  /** After a diff without repeated keys, a key has the value of its operation, or else the value it had. */
  lemma {:induction false} AfterDiff<V>(m: map<string, V>, diff: seq<DiffOp<V>>, key: string)
    requires Sorted(CompareUtf8, DiffKeys(diff))
    ensures forall i :: 0 <= i < |diff| && diff[i].key == key ==> Find(ApplyDiff(m, diff), key) == diff[i].New()
    ensures key !in DiffKeys(diff) ==> Find(ApplyDiff(m, diff), key) == Find(m, key)
    decreases |diff|
  {
    if diff != [] {
      TailIsSorted(diff, 1);
      DiffPairs(diff);
      AfterDiff(ApplyOp(m, diff[0]), diff[1..], key);
      forall i | 0 <= i < |diff| && diff[i].key == key ensures Find(ApplyDiff(m, diff), key) == diff[i].New() {
        if i > 0 { assert diff[1..][i - 1] == diff[i]; }
      }
    }
  }

  lemma {:induction false} PrefixMembers<V>(diff: seq<DiffOp<V>>, prefix: string)
    ensures forall op :: op in WithPrefix(diff, prefix) <==> op in diff && StartsWith(op.key, prefix)
  {
    if diff != [] {
      PrefixMembers(diff[1..], prefix);
      assert diff == [diff[0]] + diff[1..];
    }
  }

  /** Where a selected operation comes from. */
  lemma {:induction false} Origin<V>(diff: seq<DiffOp<V>>, prefix: string, j: nat) returns (i: nat)
    requires j < |WithPrefix(diff, prefix)|
    ensures i < |diff| && diff[i] == WithPrefix(diff, prefix)[j]
  {
    if StartsWith(diff[0].key, prefix) && j == 0 {
      i := 0;
    } else {
      i := Origin(diff[1..], prefix, if StartsWith(diff[0].key, prefix) then j - 1 else j);
      i := i + 1;
    }
  }

  lemma {:induction false} PrefixSorted<V>(diff: seq<DiffOp<V>>, prefix: string)
    requires Sorted(CompareUtf8, DiffKeys(diff))
    ensures Sorted(CompareUtf8, DiffKeys(WithPrefix(diff, prefix)))
  {
    hide Sorted, CompareUtf8, DiffKeys;
    if diff != [] {
      TailIsSorted(diff, 1);
      PrefixSorted(diff[1..], prefix);
      if StartsWith(diff[0].key, prefix) {
        FirstIsLeast(diff, WithPrefix(diff[1..], prefix), prefix);
      }
    }
  }

  lemma FirstIsLeast<V>(diff: seq<DiffOp<V>>, rest: seq<DiffOp<V>>, prefix: string)
    requires Sorted(CompareUtf8, DiffKeys(diff)) && diff != [] && rest == WithPrefix(diff[1..], prefix)
    requires Sorted(CompareUtf8, DiffKeys(rest))
    ensures Sorted(CompareUtf8, DiffKeys([diff[0]] + rest))
  {
    hide Sorted, CompareUtf8, DiffKeys, WithPrefix;
    PrefixMembers(diff[1..], prefix);
    DiffPairs(diff);
    DiffPairs(rest);
    DiffPairs([diff[0]] + rest);
    forall j | 0 <= j < |rest| ensures CompareUtf8(diff[0].key, rest[j].key) < 0 {
      assert rest[j] in diff[1..];
      var k :| 0 <= k < |diff[1..]| && diff[1..][k] == rest[j];
      assert diff[k + 1] == rest[j];
    }
  }

  /** Stores that agree on the keys with the prefix. */
  ghost predicate Agree<V>(prefix: string, a: seq<Entry<V>>, b: seq<Entry<V>>) {
    forall key :: StartsWith(key, prefix) ==> Lookup(a, key) == Lookup(b, key)
  }

  /** As far as keys with the prefix are concerned, the diff leads from the store `a` to `b`. */
  ghost predicate Updates<V>(prefix: string, a: seq<Entry<V>>, b: seq<Entry<V>>, diff: seq<DiffOp<V>>) {
    && Sorted(CompareUtf8, DiffKeys(diff))
    && (forall i :: 0 <= i < |diff| && StartsWith(diff[i].key, prefix) ==> Lookup(b, diff[i].key) == diff[i].New())
    && (forall key :: StartsWith(key, prefix) && key !in DiffKeys(diff) ==> Lookup(a, key) == Lookup(b, key))
  }

  /** The diff of a commit leads there from every store that differs only in foreign keys. */
  lemma DiffUpdates<V>(prefix: string, was: seq<Entry<V>>, a: seq<Entry<V>>, b: seq<Entry<V>>, diff: seq<DiffOp<V>>)
    requires Agree(prefix, was, a) && IsDiff(a, b, diff)
    ensures Updates(prefix, was, b, diff)
    ensures WithPrefix(diff, prefix) == [] ==> Agree(prefix, was, b)
  {
    hide Sorted, CompareUtf8;
    PrefixMembers(diff, prefix);
    forall key | StartsWith(key, prefix) && Lookup(was, key) != Lookup(b, key) ensures WithPrefix(diff, prefix) != [] {
      assert key in DiffKeys(diff);
      var i :| 0 <= i < |diff| && diff[i].key == key;
      assert diff[i] in WithPrefix(diff, prefix);
    }
  }

  /** What a selected diff does to one key of the consumer's copy. */
  lemma AfterSelected<V>(m: map<string, V>, prefix: string, a: seq<Entry<V>>, b: seq<Entry<V>>, diff: seq<DiffOp<V>>,
                         key: string)
    requires Updates(prefix, a, b, diff)
    ensures var after := Find(ApplyDiff(m, WithPrefix(diff, prefix)), key);
      if StartsWith(key, prefix) && key in DiffKeys(diff) then after == Lookup(b, key) else after == Find(m, key)
  {
    hide Sorted, CompareUtf8;
    var selected := WithPrefix(diff, prefix);
    PrefixMembers(diff, prefix);
    PrefixSorted(diff, prefix);
    AfterDiff(m, selected, key);
    if StartsWith(key, prefix) && key in DiffKeys(diff) {
      var i :| 0 <= i < |diff| && diff[i].key == key;
      assert diff[i] in selected;
    }
  }

  /** Applying the diffs that a watcher gets keeps the copy a mirror of the store (or a part of it, before the first run). */
  lemma DiffKeepsMirror<V>(m: map<string, V>, prefix: string, a: seq<Entry<V>>, b: seq<Entry<V>>, diff: seq<DiffOp<V>>)
    requires Updates(prefix, a, b, diff)
    ensures Mirrors(m, prefix, a) ==> Mirrors(ApplyDiff(m, WithPrefix(diff, prefix)), prefix, b)
    ensures PartOf(m, prefix, a) ==> PartOf(ApplyDiff(m, WithPrefix(diff, prefix)), prefix, b)
  {
    hide Sorted;
    forall key { AfterSelected(m, prefix, a, b, diff, key); }
  }

  /** Everything that a scan with the prefix returns, as added. */
  method InitialAdditions<V>(prefix: string, s: seq<Entry<V>>) returns (newDiff: seq<DiffOp<V>>)
    requires Stored(s)
    ensures newDiff == Additions(ScanResult(ScanOptions(prefix, None, None), s))
  {
    hide Stored, Sorted, ScanResult, CompareUtf8, Additions, Pending;
    var o := ScanOptions(prefix, None, None);
    ScanYields(o, s);
    newDiff := [];
    var g := Open(o, s);
    while true
      invariant newDiff + Additions(Pending(g)) == Additions(ScanResult(o, s))
      decreases |Pending(g)|
    {
      ghost var more := Pending(g);
      var g', entry, _ := ScanIterator.Next(g);
      if entry.None? {
        return;
      }
      AdditionsStep(more);
      newDiff, g := newDiff + [Add(entry.value.0, entry.value.1)], g';
    }
  }

  function Additions<V>(s: seq<Entry<V>>): (r: seq<DiffOp<V>>)
    ensures |r| == |s| && forall i :: 0 <= i < |s| ==> r[i] == Add(s[i].0, s[i].1)
  {
    seq(|s|, i requires 0 <= i < |s| => Add(s[i].0, s[i].1))
  }

  lemma AdditionsStep<V>(s: seq<Entry<V>>)
    requires s != []
    ensures Additions(s) == [Add(s[0].0, s[0].1)] + Additions(s[1..])
  {
  }

  lemma {:induction false} RestrictMembers<V>(s: seq<Entry<V>>, p: string -> bool)
    requires Stored(s)
    ensures Stored(Restrict(s, p))
    ensures forall key :: Lookup(Restrict(s, p), key) == if p(key) then Lookup(s, key) else None
  {
    if s != [] {
      Rest(s);
      HeadIsGone(s);
      RestrictMembers(s[1..], p);
      var r := Restrict(s[1..], p);
      if p(s[0].0) {
        assert ([s[0]] + r)[1..] == r;
        StoredPairs(r);
        StoredPairs([s[0]] + r);
        forall j | 0 <= j < |r| ensures CompareUtf8(s[0].0, r[j].0) < 0 {
          RestrictFrom(s[1..], p, j);
          Below(s[0].0, s[1].0, r[j].0);
        }
      }
    }
  }

  /** The operations add exactly the entries with the prefix. */
  ghost predicate Listing<V>(prefix: string, s: seq<Entry<V>>, diff: seq<DiffOp<V>>) {
    && Sorted(CompareUtf8, DiffKeys(diff))
    && (forall i :: 0 <= i < |diff| ==>
          StartsWith(diff[i].key, prefix) && diff[i].Add? && Lookup(s, diff[i].key) == Some(diff[i].newValue))
    && (forall key :: StartsWith(key, prefix) && Lookup(s, key).Some? ==> key in DiffKeys(diff))
  }

  /** What the first run computes lists the store. */
  lemma InitialLists<V>(prefix: string, s: seq<Entry<V>>)
    requires Stored(s)
    ensures var diff := Additions(ScanResult(ScanOptions(prefix, None, None), s));
      Sorted(CompareUtf8, DiffKeys(diff)) && Listing(prefix, s, WithPrefix(diff, prefix))
  {
    hide CompareUtf8, Lookup, WithPrefix, Sorted;
    var o := ScanOptions(prefix, None, None);
    var r := Restrict(s, Range(o));
    var diff := Additions(r);
    var selected := WithPrefix(diff, prefix);
    RestrictMembers(s, Range(o));
    assert DiffKeys(diff) == Keys(r);
    PrefixSorted(diff, prefix);
    PrefixMembers(diff, prefix);
    forall j | 0 <= j < |selected|
      ensures StartsWith(selected[j].key, prefix) && selected[j].Add? && Lookup(s, selected[j].key) == Some(selected[j].newValue)
    {
      var i := Origin(diff, prefix, j);
      assert selected[j] in selected;
      LookupAt(r, r[i].0);
    }
    forall key | StartsWith(key, prefix) && Lookup(s, key).Some? ensures key in DiffKeys(selected) {
      LookupAt(r, key);
      var i :| 0 <= i < |r| && r[i].0 == key;
      assert diff[i] in selected;
      var j :| 0 <= j < |selected| && selected[j] == diff[i];
      assert DiffKeys(selected)[j] == key;
    }
  }

  /** What the listed entries do to one key of the consumer's copy. */
  lemma AfterListed<V>(m: map<string, V>, prefix: string, s: seq<Entry<V>>, diff: seq<DiffOp<V>>, key: string)
    requires Listing(prefix, s, diff)
    ensures Find(ApplyDiff(m, diff), key)
      == if StartsWith(key, prefix) && Lookup(s, key).Some? then Lookup(s, key) else Find(m, key)
  {
    hide Sorted, CompareUtf8, Lookup;
    AfterDiff(m, diff, key);
    if key in DiffKeys(diff) {
      var i :| 0 <= i < |diff| && diff[i].key == key;
    }
  }

  // ----- what is on its way to a watcher

  /** Each of the diffs leads from one of the stores to the next. */
  ghost predicate Chain<V>(prefix: string, stores: seq<seq<Entry<V>>>, diffs: seq<seq<DiffOp<V>>>) {
    && |stores| == |diffs| + 1
    && forall i :: 0 <= i < |diffs| ==> Updates(prefix, stores[i], stores[i + 1], diffs[i])
  }

  lemma ChainLength<V>(prefix: string, stores: seq<seq<Entry<V>>>, diffs: seq<seq<DiffOp<V>>>)
    requires Chain(prefix, stores, diffs)
    ensures |stores| == |diffs| + 1
    ensures diffs != [] ==> Updates(prefix, stores[0], stores[1], diffs[0])
  {
  }

  lemma ChainGrows<V>(prefix: string, stores: seq<seq<Entry<V>>>, diffs: seq<seq<DiffOp<V>>>, b: seq<Entry<V>>,
                      diff: seq<DiffOp<V>>)
    requires Chain(prefix, stores, diffs) && Updates(prefix, stores[|diffs|], b, diff)
    ensures Chain(prefix, stores + [b], diffs + [diff])
  {
    hide Updates;
  }

  lemma ChainShrinks<V>(prefix: string, stores: seq<seq<Entry<V>>>, diffs: seq<seq<DiffOp<V>>>)
    requires Chain(prefix, stores, diffs) && diffs != []
    ensures Chain(prefix, stores[1..], diffs[1..])
  {
    hide Updates;
  }

  /** The key has one value in all stores up to the one at the index. */
  ghost predicate Steady<V>(stores: seq<seq<Entry<V>>>, at: nat, key: string)
    requires at < |stores|
  {
    forall j :: 0 <= j <= at ==> Lookup(stores[j], key) == Lookup(stores[0], key)
  }

  /**
   The copy after the initial values of the store at the index have been taken in: right for all keys that the diffs on
   the way up to that store do not change. At index zero, it is a mirror of the first of the stores.
   */
  ghost predicate Holds<V>(m: map<string, V>, prefix: string, stores: seq<seq<Entry<V>>>, at: nat)
    requires at < |stores|
  {
    forall key ::
      if StartsWith(key, prefix) then Steady(stores, at, key) ==> Find(m, key) == Lookup(stores[0], key) else key !in m
  }

  /** The next diff takes the copy on to the next store. */
  lemma NextHolds<V>(m: map<string, V>, prefix: string, stores: seq<seq<Entry<V>>>, diff: seq<DiffOp<V>>, at: nat)
    requires |stores| >= 2 && at < |stores| && Updates(prefix, stores[0], stores[1], diff) && Holds(m, prefix, stores, at)
    ensures Holds(ApplyDiff(m, WithPrefix(diff, prefix)), prefix, stores[1..], if at == 0 then 0 else at - 1)
  {
    hide Updates, ApplyDiff, WithPrefix, DiffKeys;
    var after, next := ApplyDiff(m, WithPrefix(diff, prefix)), if at == 0 then 0 else at - 1;
    forall key
      ensures if StartsWith(key, prefix) then Steady(stores[1..], next, key) ==> Find(after, key) == Lookup(stores[1], key)
              else key !in after
    {
      AfterSelected(m, prefix, stores[0], stores[1], diff, key);
      if StartsWith(key, prefix) && key !in DiffKeys(diff) && Steady(stores[1..], next, key) {
        UntouchedKey(prefix, stores[0], stores[1], diff, key);
        forall j | 0 <= j <= at ensures Lookup(stores[j], key) == Lookup(stores[0], key) {
          if j > 0 { assert stores[1..][j - 1] == stores[j]; }
        }
        assert Steady(stores, at, key);
      }
    }
  }

  lemma UntouchedKey<V>(prefix: string, a: seq<Entry<V>>, b: seq<Entry<V>>, diff: seq<DiffOp<V>>, key: string)
    requires Updates(prefix, a, b, diff) && StartsWith(key, prefix) && key !in DiffKeys(diff)
    ensures Lookup(a, key) == Lookup(b, key)
  {
  }

  /** The initial values may come before some of the diffs that lead to their store. */
  lemma FirstHolds<V>(m: map<string, V>, prefix: string, stores: seq<seq<Entry<V>>>, diff: seq<DiffOp<V>>, at: nat)
    requires at < |stores| && Listing(prefix, stores[at], diff) && PartOf(m, prefix, stores[0])
    ensures Holds(ApplyDiff(m, diff), prefix, stores, at)
  {
    hide Listing, ApplyDiff;
    var after := ApplyDiff(m, diff);
    forall key
      ensures if StartsWith(key, prefix) then Steady(stores, at, key) ==> Find(after, key) == Lookup(stores[0], key)
              else key !in after
    {
      AfterListed(m, prefix, stores[at], diff, key);
      assert Steady(stores, at, key) ==> Lookup(stores[at], key) == Lookup(stores[0], key);
    }
  }

  /**
   The copy together with what is to be delivered, the diffs and perhaps the initial values, brings about the store: the
   values at `at` are those of the store with this index, whether they have been delivered or not.
   */
  ghost predicate OnTheWay<V>(m: map<string, V>, told: bool, prefix: string, stores: seq<seq<Entry<V>>>,
                              diffs: seq<seq<DiffOp<V>>>, first: Option<seq<DiffOp<V>>>, at: nat, store: seq<Entry<V>>)
  {
    && Chain(prefix, stores, diffs) && Agree(prefix, stores[|diffs|], store) && at <= |diffs|
    && (first.Some? ==> Listing(prefix, stores[at], first.value))
    && if told then Holds(m, prefix, stores, at) else PartOf(m, prefix, stores[0])
  }

  lemma NextOnTheWay<V>(m: map<string, V>, told: bool, prefix: string, stores: seq<seq<Entry<V>>>,
                        diffs: seq<seq<DiffOp<V>>>, first: Option<seq<DiffOp<V>>>, at: nat, store: seq<Entry<V>>)
    requires OnTheWay(m, told, prefix, stores, diffs, first, at, store) && diffs != [] && (first.Some? ==> at > 0)
    ensures |stores| == |diffs| + 1
    ensures OnTheWay(ApplyDiff(m, WithPrefix(diffs[0], prefix)), told, prefix, stores[1..], diffs[1..], first,
                     if at == 0 then 0 else at - 1, store)
  {
    hide Sorted, CompareUtf8, Lookup, Listing, Holds, PartOf, Agree, Updates, ApplyDiff, WithPrefix, Chain;
    ChainLength(prefix, stores, diffs);
    ChainShrinks(prefix, stores, diffs);
    if told { NextHolds(m, prefix, stores, diffs[0], at); }
    DiffKeepsMirror(m, prefix, stores[0], stores[1], diffs[0]);
    assert stores[1..][|diffs| - 1] == stores[|diffs|];
    assert at > 0 ==> stores[1..][at - 1] == stores[at];
  }

  lemma OneMoreOnTheWay<V>(m: map<string, V>, told: bool, prefix: string, stores: seq<seq<Entry<V>>>,
                           diffs: seq<seq<DiffOp<V>>>, first: Option<seq<DiffOp<V>>>, at: nat, store: seq<Entry<V>>,
                           diff: seq<DiffOp<V>>, b: seq<Entry<V>>)
    requires OnTheWay(m, told, prefix, stores, diffs, first, at, store) && Updates(prefix, stores[|diffs|], b, diff)
    ensures OnTheWay(m, told, prefix, stores + [b], diffs + [diff], first, at, b)
  {
    hide Sorted, CompareUtf8, Lookup, Listing, Holds, PartOf, Updates, Chain;
    ChainLength(prefix, stores, diffs);
    ChainGrows(prefix, stores, diffs, b, diff);
    if told { StillHolds(m, prefix, stores, at, b); }
    assert (stores + [b])[0] == stores[0] && (stores + [b])[at] == stores[at] && (stores + [b])[|diffs| + 1] == b;
  }

  /** One more store behind leaves the claims about the earlier ones alone. */
  lemma StillHolds<V>(m: map<string, V>, prefix: string, stores: seq<seq<Entry<V>>>, at: nat, b: seq<Entry<V>>)
    requires at < |stores| && Holds(m, prefix, stores, at)
    ensures Holds(m, prefix, stores + [b], at)
  {
    hide Lookup;
    forall key | Steady(stores + [b], at, key) ensures Steady(stores, at, key) {
      forall j | 0 <= j <= at ensures Lookup(stores[j], key) == Lookup(stores[0], key) {
        assert (stores + [b])[j] == stores[j];
      }
    }
  }

  /** What the owner of the callback makes of all that it has been given. */
  function CopyOf<V>(delivered: seq<seq<DiffOp<V>>>): map<string, V> {
    if delivered == [] then map[] else ApplyDiff(CopyOf(delivered[..|delivered| - 1]), delivered[|delivered| - 1])
  }

  class WatchSubscription<V(!new)> {
    const prefix: string
    const initialValuesInFirstDiff: bool
    /** The diffs that the callback has been given, and what its owner makes of them. */
    var delivered: seq<seq<DiffOp<V>>>
    ghost var copy: map<string, V>
    /** Whether the first run has been made, and what it has computed, if that is still to be delivered. */
    var read: bool
    var first: Option<seq<DiffOp<V>>>
    /** The diffs, in commit order, of the fires that have selected the watcher and not called it back. */
    var queue: seq<seq<DiffOp<V>>>
    /** The stores that these diffs lead through; the one with the index `at` is the one that the first run has read. */
    ghost var behind: seq<seq<Entry<V>>>
    ghost var at: nat
    /** A diff has been delivered before that of an earlier commit, or before the initial values of an earlier store. */
    ghost var overtaken: bool

    constructor (prefix: string, initialValuesInFirstDiff: bool)
      ensures this.prefix == prefix && this.initialValuesInFirstDiff == initialValuesInFirstDiff
      ensures New()
    {
      this.prefix, this.initialValuesInFirstDiff, delivered, copy := prefix, initialValuesInFirstDiff, [], map[];
      read, first, queue, behind, at, overtaken := false, None, [], [[]], 0, false;
    }

    ghost predicate New()
      reads this
    {
      delivered == [] && copy == map[] && queue == [] && first == None && !read && at == 0 && !overtaken
    }

    /** The initial values have been delivered. */
    ghost predicate Told()
      reads this
    {
      initialValuesInFirstDiff && read && first.None?
    }

    ghost predicate Ok(store: seq<Entry<V>>)
      reads this
    {
      && (forall i :: 0 <= i < |queue| ==> Sorted(CompareUtf8, DiffKeys(queue[i])))
      && (first.Some? ==> read && initialValuesInFirstDiff)
      && copy == CopyOf(delivered)
      && (!overtaken ==> OnTheWay(copy, Told(), prefix, behind, queue, first, at, store))
    }

    /** Nothing is on its way to the watcher. */
    ghost predicate Quiet()
      reads this
    {
      queue == [] && first.None? && read
    }

    lemma QuietMirrors(store: seq<Entry<V>>)
      requires Ok(store) && Quiet() && !overtaken
      ensures PartOf(copy, prefix, store) || initialValuesInFirstDiff
      ensures initialValuesInFirstDiff ==> Mirrors(copy, prefix, store)
    {
      if initialValuesInFirstDiff {
        forall key ensures Find(copy, key) == if StartsWith(key, prefix) then Lookup(store, key) else None {
          assert Steady(behind, 0, key);
        }
      }
    }

    method Matches(diff: seq<DiffOp<V>>) returns (r: bool)
      requires Sorted(CompareUtf8, DiffKeys(diff))
      ensures r <==> prefix == "" || WithPrefix(diff, prefix) != []
    {
      r := WatcherMatchesDiff(diff, prefix);
    }

    method OnData(diff: seq<DiffOp<V>>)
      modifies this`delivered, this`copy
      ensures delivered == old(delivered) + [diff] && copy == ApplyDiff(old(copy), diff)
      ensures old(copy == CopyOf(delivered)) ==> copy == CopyOf(delivered)
    {
      assert (delivered + [diff])[..|delivered|] == delivered;
      delivered, copy := delivered + [diff], ApplyDiff(copy, diff);
    }

    /** The fire of a commit selects the watcher, if its diff matches. */
    method Select(diff: seq<DiffOp<V>>, ghost a: seq<Entry<V>>, ghost b: seq<Entry<V>>)
      requires Ok(a) && IsDiff(a, b, diff)
      modifies this`queue, this`behind
      ensures Ok(b)
      ensures queue == old(queue) + Chosen(diff, prefix)
    {
      hide Sorted, CompareUtf8, Lookup, Listing, Holds, PartOf, Updates, Chain;
      assert Sorted(CompareUtf8, DiffKeys(diff));
      if !overtaken {
        ChainLength(prefix, behind, queue);
        DiffUpdates(prefix, behind[|queue|], a, b, diff);
        OneMoreOnTheWay(copy, Told(), prefix, behind, queue, first, at, a, diff, b);
      }
      var matches := Matches(diff);
      if matches {
        queue, behind := queue + [diff], behind + [b];
      }
    }

    /** The first run reads everything with the prefix as added, if that was asked for. */
    method InitialRun(s: seq<Entry<V>>)
      requires Stored(s) && Ok(s) && !read
      modifies this`read, this`first, this`at
      ensures Ok(s) && read && (first.Some? <==> initialValuesInFirstDiff)
    {
      hide Sorted, CompareUtf8, Holds, PartOf, Updates, ScanResult, Additions, WithPrefix;
      read := true;
      if initialValuesInFirstDiff {
        var newDiff := InitialAdditions(prefix, s);
        InitialLists(prefix, s);
        var diff := SelectPrefix(newDiff, prefix);
        first, at := Some(diff), |queue|;
      }
    }

    method Regular(diff: seq<DiffOp<V>>)
      requires Sorted(CompareUtf8, DiffKeys(diff))
      modifies this`delivered, this`copy
      ensures copy == ApplyDiff(old(copy), WithPrefix(diff, prefix))
      ensures delivered == old(delivered) + NotEmpty(WithPrefix(diff, prefix))
      ensures old(copy == CopyOf(delivered)) ==> copy == CopyOf(delivered)
    {
      var newDiff := SelectPrefix(diff, prefix);
      if newDiff != [] {
        OnData(newDiff);
      }
    }

    /** One of the fires calls the watcher back. */
    method Deliver(k: nat, ghost store: seq<Entry<V>>)
      requires Ok(store) && k < |queue|
      modifies this`delivered, this`copy, this`queue, this`behind, this`at, this`overtaken
      ensures Ok(store) && queue == old(queue)[..k] + old(queue)[k + 1..]
      ensures copy == ApplyDiff(old(copy), WithPrefix(old(queue)[k], prefix))
      ensures delivered == old(delivered) + NotEmpty(WithPrefix(old(queue)[k], prefix))
      ensures overtaken == old(overtaken || k > 0 || (first.Some? && at == 0))
    {
      hide Sorted, CompareUtf8, OnTheWay, ApplyDiff, WithPrefix, CopyOf, DiffKeys;
      Regular(queue[k]);
      overtaken := overtaken || k > 0 || (first.Some? && at == 0);
      if !overtaken {
        NextOnTheWay(old(copy), Told(), prefix, behind, queue, first, at, store);
        assert queue[..0] + queue[1..] == queue[1..];
        behind, at := behind[1..], if at == 0 then 0 else at - 1;
      }
      queue := queue[..k] + queue[k + 1..];
    }

    /** The initial values are delivered, however many of the diffs that lead to their store have been delivered before. */
    method DeliverFirst(ghost store: seq<Entry<V>>)
      requires Ok(store) && first.Some?
      modifies this`delivered, this`copy, this`first
      ensures Ok(store) && first == None && delivered == old(delivered) + [old(first.value)]
    {
      hide Sorted, CompareUtf8, Lookup, Listing, Holds, PartOf, Agree, Updates, ApplyDiff;
      if !overtaken { FirstHolds(copy, prefix, behind, first.value, at); }
      OnData(first.value);
      first := None;
    }
  }
}
