/**
 In which order the callbacks of overlapping fires must come. A delivery takes one of the diffs that wait, the `k`-th in
 commit order; `ks` are the choices, one for each delivery, so delivering in commit order is choosing zero each time.
 */
module DeliveryOrder {
  import opened Wrappers
  import opened SortedSet
  import opened KeyOrder
  import opened ScanIterator
  import opened Subscriptions
  import opened Watches

  function Without<A>(s: seq<A>, k: nat): (r: seq<A>)
    requires k < |s|
    ensures |r| == |s| - 1
  {
    s[..k] + s[k + 1..]
  }

  /** Every waiting diff is chosen once. */
  predicate Choices(n: nat, ks: seq<nat>) {
    |ks| == n && forall t :: 0 <= t < n ==> ks[t] < n - t
  }

  predicate InOrder(ks: seq<nat>) {
    forall t :: 0 <= t < |ks| ==> ks[t] == 0
  }

  /** The diffs as they are delivered. */
  function Delivered<V>(diffs: seq<seq<DiffOp<V>>>, ks: seq<nat>): (r: seq<seq<DiffOp<V>>>)
    requires Choices(|diffs|, ks)
    ensures |r| == |diffs|
    decreases |ks|
  {
    if ks == [] then [] else [diffs[ks[0]]] + Delivered(Without(diffs, ks[0]), ks[1..])
  }

  /** The consumer's copy after some diffs have been taken in, one after the other. */
  function TakeIn<V>(m: map<string, V>, prefix: string, diffs: seq<seq<DiffOp<V>>>): map<string, V>
    decreases |diffs|
  {
    if diffs == [] then m else TakeIn(ApplyDiff(m, WithPrefix(diffs[0], prefix)), prefix, diffs[1..])
  }

  lemma TakeNext<V>(m: map<string, V>, prefix: string, diffs: seq<seq<DiffOp<V>>>, ks: seq<nat>)
    requires Choices(|diffs|, ks) && ks != []
    ensures Choices(|diffs| - 1, ks[1..])
    ensures TakeIn(m, prefix, Delivered(diffs, ks))
      == TakeIn(ApplyDiff(m, WithPrefix(diffs[ks[0]], prefix)), prefix, Delivered(Without(diffs, ks[0]), ks[1..]))
  {
    hide ApplyDiff, WithPrefix;
    var rest := Delivered(Without(diffs, ks[0]), ks[1..]);
    assert Delivered(diffs, ks)[0] == diffs[ks[0]] && Delivered(diffs, ks)[1..] == rest;
  }

  /** Commits with their diffs. */
  ghost predicate Commits<V>(stores: seq<seq<Entry<V>>>, diffs: seq<seq<DiffOp<V>>>) {
    && |stores| == |diffs| + 1
    && (forall i :: 0 <= i < |stores| ==> Stored(stores[i]))
    && (forall i :: 0 <= i < |diffs| ==> IsDiff(stores[i], stores[i + 1], diffs[i]))
  }

  /** As far as the keys with the prefix are concerned, commits are a chain of updates. */
  lemma CommitsChain<V>(prefix: string, stores: seq<seq<Entry<V>>>, diffs: seq<seq<DiffOp<V>>>)
    requires Commits(stores, diffs)
    ensures Chain(prefix, stores, diffs)
  {
    hide IsDiff, Stored, Updates;
    forall i | 0 <= i < |diffs| ensures Updates(prefix, stores[i], stores[i + 1], diffs[i]) {
      DiffUpdates(prefix, stores[i], stores[i], stores[i + 1], diffs[i]);
    }
  }

  // ----- in commit order

  lemma {:induction false} DeliveredInOrder<V>(diffs: seq<seq<DiffOp<V>>>, ks: seq<nat>)
    requires Choices(|diffs|, ks) && InOrder(ks)
    ensures Delivered(diffs, ks) == diffs
    decreases |ks|
  {
    if ks != [] {
      assert Without(diffs, 0) == diffs[1..];
      DeliveredInOrder(diffs[1..], ks[1..]);
    }
  }

  lemma {:induction false} InOrderMirrors<V>(m: map<string, V>, prefix: string, stores: seq<seq<Entry<V>>>,
                                             diffs: seq<seq<DiffOp<V>>>)
    requires Chain(prefix, stores, diffs) && Mirrors(m, prefix, stores[0])
    ensures Mirrors(TakeIn(m, prefix, diffs), prefix, stores[|diffs|])
    decreases |diffs|
  {
    hide Mirrors, ApplyDiff, WithPrefix, Updates;
    if diffs != [] {
      DiffKeepsMirror(m, prefix, stores[0], stores[1], diffs[0]);
      InOrderMirrors(ApplyDiff(m, WithPrefix(diffs[0], prefix)), prefix, stores[1..], diffs[1..]);
    }
  }

  // ----- in any order: the last operation on a key decides

  /** What an operation on the key does, if the diff has one. */
  ghost function NewIn<V>(diff: seq<DiffOp<V>>, key: string): Option<Option<V>>
    decreases |diff|
  {
    if diff == [] then None else if diff[0].key == key then Some(diff[0].New()) else NewIn(diff[1..], key)
  }

  /** What the last of the operations on the key does. */
  ghost function LastNew<V>(diffs: seq<seq<DiffOp<V>>>, key: string): Option<Option<V>>
    decreases |diffs|
  {
    if diffs == [] then None
    else if LastNew(diffs[1..], key).Some? then LastNew(diffs[1..], key) else NewIn(diffs[0], key)
  }

  lemma {:induction false} NewInKeys<V>(diff: seq<DiffOp<V>>, key: string)
    ensures NewIn(diff, key).Some? <==> key in DiffKeys(diff)
    ensures NewIn(diff, key).Some? ==> exists i :: 0 <= i < |diff| && diff[i].key == key && NewIn(diff, key) == Some(diff[i].New())
  {
    if diff != [] {
      NewInKeys(diff[1..], key);
      assert DiffKeys(diff) == [diff[0].key] + DiffKeys(diff[1..]);
      if diff[0].key == key {
        assert NewIn(diff, key) == Some(diff[0].New());
      } else if NewIn(diff, key).Some? {
        var i :| 0 <= i < |diff[1..]| && diff[1..][i].key == key && NewIn(diff, key) == Some(diff[1..][i].New());
        assert diff[i + 1] == diff[1..][i];
      }
    }
  }

  lemma AfterOne<V>(m: map<string, V>, prefix: string, diff: seq<DiffOp<V>>, key: string)
    requires Sorted(CompareUtf8, DiffKeys(diff))
    ensures Find(ApplyDiff(m, WithPrefix(diff, prefix)), key)
      == if StartsWith(key, prefix) && NewIn(diff, key).Some? then NewIn(diff, key).value else Find(m, key)
  {
    hide Sorted, CompareUtf8;
    var selected := WithPrefix(diff, prefix);
    NewInKeys(diff, key);
    PrefixMembers(diff, prefix);
    PrefixSorted(diff, prefix);
    AfterDiff(m, selected, key);
    forall j | 0 <= j < |selected| ensures StartsWith(selected[j].key, prefix) && selected[j].key in DiffKeys(diff) {
      var i := Origin(diff, prefix, j);
      assert selected[j] in selected && DiffKeys(diff)[i] == selected[j].key;
    }
    if StartsWith(key, prefix) && NewIn(diff, key).Some? {
      var i :| 0 <= i < |diff| && diff[i].key == key && NewIn(diff, key) == Some(diff[i].New());
      assert diff[i] in selected;
      var j :| 0 <= j < |selected| && selected[j] == diff[i];
    }
  }

  lemma {:induction false} AfterAll<V>(m: map<string, V>, prefix: string, diffs: seq<seq<DiffOp<V>>>, key: string)
    requires forall i :: 0 <= i < |diffs| ==> Sorted(CompareUtf8, DiffKeys(diffs[i]))
    ensures Find(TakeIn(m, prefix, diffs), key)
      == if StartsWith(key, prefix) && LastNew(diffs, key).Some? then LastNew(diffs, key).value else Find(m, key)
    decreases |diffs|
  {
    hide Sorted, CompareUtf8, WithPrefix, ApplyDiff, NewIn;
    if diffs != [] {
      AfterOne(m, prefix, diffs[0], key);
      AfterAll(ApplyDiff(m, WithPrefix(diffs[0], prefix)), prefix, diffs[1..], key);
    }
  }

  lemma {:induction false} LastNewSome<V>(diffs: seq<seq<DiffOp<V>>>, key: string)
    ensures LastNew(diffs, key).Some? <==> exists i :: 0 <= i < |diffs| && NewIn(diffs[i], key).Some?
    decreases |diffs|
  {
    hide NewIn;
    if diffs != [] {
      LastNewSome(diffs[1..], key);
      if LastNew(diffs[1..], key).Some? {
        var i :| 0 <= i < |diffs[1..]| && NewIn(diffs[1..][i], key).Some?;
        assert diffs[i + 1] == diffs[1..][i];
      }
      forall i | 0 <= i < |diffs| && NewIn(diffs[i], key).Some? ensures LastNew(diffs, key).Some? {
        if i > 0 { assert diffs[1..][i - 1] == diffs[i]; }
      }
    }
  }

  lemma {:induction false} SameDiffs<V>(diffs: seq<seq<DiffOp<V>>>, ks: seq<nat>)
    requires Choices(|diffs|, ks)
    ensures multiset(Delivered(diffs, ks)) == multiset(diffs)
    decreases |ks|
  {
    if ks != [] {
      var k := ks[0];
      SameDiffs(Without(diffs, k), ks[1..]);
      assert diffs == diffs[..k] + [diffs[k]] + diffs[k + 1..];
    }
  }

  lemma Partner<A>(a: seq<A>, b: seq<A>, i: nat) returns (j: nat)
    requires multiset(a) == multiset(b) && i < |a|
    ensures j < |b| && b[j] == a[i]
  {
    assert a[i] in multiset(a);
    j :| 0 <= j < |b| && b[j] == a[i];
  }

  lemma TouchedToo<V>(a: seq<seq<DiffOp<V>>>, b: seq<seq<DiffOp<V>>>, key: string)
    requires multiset(a) == multiset(b) && LastNew(a, key).Some?
    ensures LastNew(b, key).Some?
  {
    LastNewSome(a, key);
    LastNewSome(b, key);
    var i :| 0 <= i < |a| && NewIn(a[i], key).Some?;
    var j := Partner(a, b, i);
  }

  /**
   Whatever the order of the callbacks, the copy ends up as a mirror exactly if, for each key with the prefix, the operation
   that is delivered last has the same new value as the one that was committed last.
   */
  lemma MirrorsExactly<V>(m: map<string, V>, prefix: string, stores: seq<seq<Entry<V>>>, diffs: seq<seq<DiffOp<V>>>,
                          ks: seq<nat>)
    requires Chain(prefix, stores, diffs) && Choices(|diffs|, ks) && Mirrors(m, prefix, stores[0])
    ensures Mirrors(TakeIn(m, prefix, Delivered(diffs, ks)), prefix, stores[|diffs|])
      <==> forall key :: StartsWith(key, prefix) ==> LastNew(Delivered(diffs, ks), key) == LastNew(diffs, key)
  {
    hide Sorted, CompareUtf8, Lookup, LastNew, TakeIn, Delivered;
    var late := Delivered(diffs, ks);
    InOrderMirrors(m, prefix, stores, diffs);
    SameDiffs(diffs, ks);
    forall i | 0 <= i < |diffs| ensures Sorted(CompareUtf8, DiffKeys(diffs[i])) {
      assert Updates(prefix, stores[i], stores[i + 1], diffs[i]);
    }
    forall i | 0 <= i < |late| ensures Sorted(CompareUtf8, DiffKeys(late[i])) {
      var j := Partner(late, diffs, i);
    }
    forall key
      ensures StartsWith(key, prefix) ==>
        (Find(TakeIn(m, prefix, late), key) == Find(TakeIn(m, prefix, diffs), key) <==> LastNew(late, key) == LastNew(diffs, key))
      ensures !StartsWith(key, prefix) ==> Find(TakeIn(m, prefix, late), key) == Find(m, key)
    {
      if LastNew(late, key).Some? { TouchedToo(late, diffs, key); }
      if LastNew(diffs, key).Some? { TouchedToo(diffs, late, key); }
      AfterAll(m, prefix, late, key);
      AfterAll(m, prefix, diffs, key);
    }
  }

  lemma WaitingExactly<V>(m: map<string, V>, prefix: string, stores: seq<seq<Entry<V>>>, diffs: seq<seq<DiffOp<V>>>,
                          ks: seq<nat>, first: Option<seq<DiffOp<V>>>, store: seq<Entry<V>>)
    requires OnTheWay(m, true, prefix, stores, diffs, first, 0, store) && Choices(|diffs|, ks)
    ensures Mirrors(TakeIn(m, prefix, Delivered(diffs, ks)), prefix, store)
      <==> forall key :: StartsWith(key, prefix) ==> LastNew(Delivered(diffs, ks), key) == LastNew(diffs, key)
  {
    hide Lookup, Updates, LastNew, TakeIn, Delivered;
    forall key ensures Find(m, key) == if StartsWith(key, prefix) then Lookup(stores[0], key) else None {
      assert Steady(stores, 0, key);
    }
    MirrorsExactly(m, prefix, stores, diffs, ks);
  }

  /** The callbacks of the fires that have selected a watcher, in the order of the choices, and what becomes of its copy. */
  method CallBacks<V(!new)>(w: WatchSubscription<V>, ks: seq<nat>, ghost store: seq<Entry<V>>)
    requires w.Ok(store) && w.first.None? && Choices(|w.queue|, ks)
    modifies w`delivered, w`copy, w`queue, w`behind, w`at, w`overtaken
    ensures w.Ok(store) && w.queue == []
    ensures w.copy == TakeIn(old(w.copy), w.prefix, Delivered(old(w.queue), ks))
    ensures w.overtaken <==> old(w.overtaken) || !InOrder(ks)
    ensures old(w.Told() && w.at == 0 && !w.overtaken) ==>
      (Mirrors(w.copy, w.prefix, store) <==>
       forall key :: StartsWith(key, w.prefix) ==> LastNew(Delivered(old(w.queue), ks), key) == LastNew(old(w.queue), key))
  {
    hide WithPrefix, ApplyDiff, Delivered, OnTheWay, Sorted;
    ghost var was := w.queue;
    assert ks[0..] == ks;
    if w.Told() && w.at == 0 && !w.overtaken {
      WaitingExactly(w.copy, w.prefix, w.behind, w.queue, ks, w.first, store);
    }
    for t := 0 to |ks|
      invariant w.Ok(store) && |w.queue| == |ks| - t && Choices(|w.queue|, ks[t..])
      invariant TakeIn(w.copy, w.prefix, Delivered(w.queue, ks[t..])) == TakeIn(old(w.copy), w.prefix, Delivered(was, ks))
      invariant w.overtaken <==> old(w.overtaken) || !InOrder(ks[..t])
    {
      NextChoice(|w.queue|, ks, t);
      TakeNext(w.copy, w.prefix, w.queue, ks[t..]);
      w.Deliver(ks[t], store);
    }
    assert ks[..|ks|] == ks && Delivered(w.queue, ks[|ks|..]) == [];
  }

  lemma NextChoice(n: nat, ks: seq<nat>, t: nat)
    requires t < |ks| && Choices(n, ks[t..])
    ensures ks[t..][0] == ks[t] < n && ks[t..][1..] == ks[t + 1..]
    ensures InOrder(ks[..t + 1]) <==> InOrder(ks[..t]) && ks[t] == 0
  {
    assert ks[..t + 1] == ks[..t] + [ks[t]];
    assert InOrder(ks[..t + 1]) ==> ks[..t + 1][t] == 0 && forall i :: 0 <= i < t ==> ks[..t][i] == ks[..t + 1][i];
  }

  // ----- which orders are safe

  /** Whatever the commits, the copy ends up as a mirror. */
  ghost predicate Safe<V(!new)>(prefix: string, ks: seq<nat>) {
    forall m: map<string, V>, stores, diffs ::
      Commits(stores, diffs) && Choices(|diffs|, ks) && Mirrors(m, prefix, stores[0])
      ==> Mirrors(TakeIn(m, prefix, Delivered(diffs, ks)), prefix, stores[|diffs|])
  }

  /** An order of callbacks is safe exactly if it is that of the commits. */
  lemma SafeExactly<V(!new)>(prefix: string, ks: seq<nat>, x: V, y: V)
    requires Choices(|ks|, ks) && x != y
    ensures Safe<V>(prefix, ks) <==> InOrder(ks)
  {
    hide Mirrors, TakeIn, Delivered;
    if InOrder(ks) {
      forall m: map<string, V>, stores, diffs | Commits(stores, diffs) && Choices(|diffs|, ks) && Mirrors(m, prefix, stores[0])
        ensures Mirrors(TakeIn(m, prefix, Delivered(diffs, ks)), prefix, stores[|diffs|])
      {
        DeliveredInOrder(diffs, ks);
        CommitsChain(prefix, stores, diffs);
        InOrderMirrors(m, prefix, stores, diffs);
      }
    } else {
      var stores, diffs := Overtaking(prefix, ks, x, y);
    }
  }

  lemma OneEntry<V>(prefix: string, x: V, y: V)
    ensures Stored<V>([]) && Stored([(prefix, x)])
    ensures Lookup([(prefix, x)], prefix) == Some(x) && forall key :: key != prefix ==> Lookup([(prefix, x)], key) == None
    ensures IsDiff([], [(prefix, x)], [Add(prefix, x)]) && IsDiff([(prefix, x)], [(prefix, y)], [Change(prefix, x, y)])
  {
    assert [(prefix, x)][1..] == [] && [(prefix, y)][1..] == [];
    assert DiffKeys([Add(prefix, x)]) == [prefix] && DiffKeys([Change(prefix, x, y)]) == [prefix];
  }

  lemma NothingChanged<V>(s: seq<Entry<V>>)
    ensures IsDiff(s, s, [])
  {
  }

  /** Where only additions of one entry are to come, or have come last, the copy has that entry. */
  lemma {:induction false} OnlyAdded<V>(m: map<string, V>, prefix: string, diffs: seq<seq<DiffOp<V>>>, x: V)
    requires forall i :: 0 <= i < |diffs| ==> diffs[i] == [] || diffs[i] == [Add(prefix, x)]
    requires Find(m, prefix) == Some(x) || [Add(prefix, x)] in diffs
    ensures Find(TakeIn(m, prefix, diffs), prefix) == Some(x)
    decreases |diffs|
  {
    if diffs != [] {
      var op := Add(prefix, x);
      assert diffs == [diffs[0]] + diffs[1..];
      assert ApplyDiff(m, WithPrefix([op], prefix)) == m[prefix := x] by { assert [op][1..] == []; }
      OnlyAdded(ApplyDiff(m, WithPrefix(diffs[0], prefix)), prefix, diffs[1..], x);
    }
  }

  lemma OvertakesNow<V>(prefix: string, ks: seq<nat>, x: V, y: V) returns (stores: seq<seq<Entry<V>>>, diffs: seq<seq<DiffOp<V>>>)
    requires Choices(|ks|, ks) && ks != [] && ks[0] > 0 && x != y
    ensures Commits(stores, diffs) && Choices(|diffs|, ks) && stores[0] == [] && Mirrors<V>(map[], prefix, stores[0])
    ensures !Mirrors(TakeIn(map[], prefix, Delivered(diffs, ks)), prefix, stores[|diffs|])
  {
    hide IsDiff, Stored, ApplyDiff, TakeIn, Delivered, CompareUtf8;
    var n, k := |ks|, ks[0];
    OneEntry(prefix, x, y);
    OneEntry(prefix, y, y);
    diffs := seq(n, i => if i == 0 then [Add(prefix, x)] else if i == k then [Change(prefix, x, y)] else []);
    stores := seq(n + 1, i => if i == 0 then [] else if i <= k then [(prefix, x)] else [(prefix, y)]);
    NothingChanged([(prefix, x)]);
    NothingChanged([(prefix, y)]);
    var rest := Without(diffs, k);
    assert rest[0] == diffs[0];
    var late := Delivered(rest, ks[1..]);
    SameDiffs(rest, ks[1..]);
    forall i | 0 <= i < |late| ensures late[i] == [] || late[i] == [Add(prefix, x)] {
      var j := Partner(late, rest, i);
    }
    var j := Partner(rest, late, 0);
    TakeNext(map[], prefix, diffs, ks);
    OnlyAdded(ApplyDiff(map[], WithPrefix(diffs[k], prefix)), prefix, late, x);
    var m := TakeIn(map[], prefix, Delivered(diffs, ks));
    assert Find(m, prefix) != Lookup(stores[n], prefix) && StartsWith(prefix, prefix);
  }

  /** Commits that leave a key different when a diff overtakes another: the overtaken one adds it, the other changes it. */
  lemma {:induction false} Overtaking<V>(prefix: string, ks: seq<nat>, x: V, y: V)
    returns (stores: seq<seq<Entry<V>>>, diffs: seq<seq<DiffOp<V>>>)
    requires Choices(|ks|, ks) && !InOrder(ks) && x != y
    ensures Commits(stores, diffs) && Choices(|diffs|, ks) && stores[0] == [] && Mirrors<V>(map[], prefix, stores[0])
    ensures !Mirrors(TakeIn(map[], prefix, Delivered(diffs, ks)), prefix, stores[|diffs|])
    decreases |ks|
  {
    hide Mirrors, IsDiff, Stored, TakeIn, Delivered;
    var k := ks[0];
    if k == 0 {
      var later, more := Overtaking(prefix, ks[1..], x, y);
      stores, diffs := [[]] + later, [[]] + more;
      NothingChanged<V>([]);
      assert Without(diffs, 0) == more && stores[|diffs|] == later[|more|];
      TakeNext(map[], prefix, diffs, ks);
    } else {
      stores, diffs := OvertakesNow(prefix, ks, x, y);
    }
  }

  // ----- cases

  /** Two mutations of one key, neither awaited: if the second callback comes first, the copy keeps the first value. */
  lemma OvertakenPair()
    ensures var one, two := [("k", 1)], [("k", 2)];
      var diffs := [[Add("k", 1)], [Change("k", 1, 2)]];
      && Commits([[], one, two], diffs)
      && Mirrors(TakeIn(map[], "", Delivered(diffs, [0, 0])), "", two)
      && TakeIn(map[], "", Delivered(diffs, [1, 0])) == map["k" := 1]
      && !Mirrors(map["k" := 1], "", two)
  {
    hide IsDiff, Stored, Sorted;
    OneEntry("k", 1, 2);
    OneEntry("k", 2, 2);
    var add: seq<DiffOp<int>>, change := [Add("k", 1)], [Change("k", 1, 2)];
    var diffs := [add, change];
    assert Commits([[], [("k", 1)], [("k", 2)]], diffs);
    assert Mirrors<int>(map[], "", []);
    CommitsChain("", [[], [("k", 1)], [("k", 2)]], diffs);
    InOrderMirrors(map[], "", [[], [("k", 1)], [("k", 2)]], diffs);
    DeliveredInOrder(diffs, [0, 0]);
    assert Without(diffs, 1) == [add] && Without([add], 0) == [];
    assert WithPrefix(add, "") == add && WithPrefix(change, "") == change && Delivered<int>([], []) == [];
    assert ApplyDiff(map[], change) == map["k" := 2] && ApplyDiff(map["k" := 2], add) == map["k" := 1];
    TakeNext(map[], "", diffs, [1, 0]);
    TakeNext(map["k" := 2], "", [add], [0]);
    assert Find(map["k" := 1], "k") != Lookup([("k", 2)], "k") && StartsWith("k", "");
  }

  /** Initial values that come after the diff of a commit behind their store bring a deleted entry back. */
  lemma LateInitialValues()
    ensures var one := [("k", 1)];
      && Listing("", one, [Add("k", 1)]) && IsDiff(one, [], [Del("k", 1)])
      && ApplyDiff(TakeIn<int>(map[], "", [[Del("k", 1)]]), [Add("k", 1)]) == map["k" := 1]
      && !Mirrors(map["k" := 1], "", [])
  {
    OneEntry("k", 1, 1);
    assert DiffKeys([Add("k", 1)]) == ["k"] && DiffKeys<int>([Del("k", 1)]) == ["k"];
    assert WithPrefix<int>([Del("k", 1)], "") == [Del("k", 1)];
    assert TakeIn<int>(map[], "", [[Del("k", 1)]]) == map[];
    assert Find(map["k" := 1], "k") != Lookup<int>([], "k") && StartsWith("k", "");
  }
}
