/** The functions of BTreeModel are the operations of a sorted set, for every comparator that is a total order. */
module BTreeRefinement {
  import opened Wrappers
  import opened SortedSet
  import opened BTreeModel

  /** The keys of a tree in iteration order. */
  ghost function Contents<K>(t: Tree<K>): seq<K>
    decreases t, 0
  {
    if t.Leaf? then t.keys else Flat(t.children)
  }

  ghost function Flat<K>(ts: seq<Tree<K>>): seq<K>
    decreases ts, 1
  {
    if ts == [] then [] else Contents(ts[0]) + Flat(ts[1..])
  }

  lemma {:induction false} FlatConcat<K>(a: seq<Tree<K>>, b: seq<Tree<K>>)
    ensures Flat(a + b) == Flat(a) + Flat(b)
  {
    if a == [] {
      assert a + b == b;
    } else {
      FlatConcat(a[1..], b);
      assert (a + b)[1..] == a[1..] + b;
      Assoc3(Contents(a[0]), Flat(a[1..]), Flat(b));
    }
  }

  lemma FlatOne<K>(t: Tree<K>)
    ensures Flat([t]) == Contents(t)
  {
    assert [t][1..] == [];
  }

  lemma FlatSplit<K>(ts: seq<Tree<K>>, i: nat)
    requires i <= |ts|
    ensures Flat(ts) == Flat(ts[..i]) + Flat(ts[i..])
  {
    hide Flat;
    FlatConcat(ts[..i], ts[i..]);
    assert ts == ts[..i] + ts[i..];
  }

  lemma FlatFrom<K>(ts: seq<Tree<K>>, i: nat)
    requires i < |ts|
    ensures Flat(ts[i..]) == Contents(ts[i]) + Flat(ts[i + 1..])
  {
    assert ts[i..][1..] == ts[i + 1..];
  }

  lemma FlatUpTo<K>(ts: seq<Tree<K>>, i: nat)
    requires i < |ts|
    ensures Flat(ts[..i + 1]) == Flat(ts[..i]) + Contents(ts[i])
  {
    assert ts[..i + 1] == ts[..i] + [ts[i]];
    FlatConcat(ts[..i], [ts[i]]);
    FlatOne(ts[i]);
  }

  lemma FlatAt<K>(ts: seq<Tree<K>>, i: nat)
    requires i < |ts|
    ensures Flat(ts) == Flat(ts[..i]) + Contents(ts[i]) + Flat(ts[i + 1..])
  {
    FlatSplit(ts, i + 1);
    FlatUpTo(ts, i);
  }

  lemma FlatSplice<K>(ts: seq<Tree<K>>, i: nat, n: nat, x: seq<Tree<K>>)
    requires i + n <= |ts|
    ensures Flat(Splice(ts, i, n, x)) == Flat(ts[..i]) + Flat(x) + Flat(ts[i + n..])
  {
    FlatConcat(ts[..i] + x, ts[i + n..]);
    FlatConcat(ts[..i], x);
  }

  lemma FlatUpdate<K>(ts: seq<Tree<K>>, i: nat, t: Tree<K>)
    requires i < |ts|
    ensures Flat(ts[i := t]) == Flat(ts[..i]) + Contents(t) + Flat(ts[i + 1..])
  {
    var us := ts[i := t];
    FlatAt(us, i);
    assert us[..i] == ts[..i] && us[i + 1..] == ts[i + 1..];
  }

  lemma FlatTwo<K>(ts: seq<Tree<K>>, i: nat)
    requires i + 1 < |ts|
    ensures Flat(ts) == Flat(ts[..i]) + (Contents(ts[i]) + Contents(ts[i + 1])) + Flat(ts[i + 2..])
  {
    FlatAt(ts, i);
    FlatFrom(ts, i + 1);
    Assoc(Flat(ts[..i]), Contents(ts[i]), Contents(ts[i + 1]), Flat(ts[i + 2..]));
  }

  lemma FlatJust<K>(a: Tree<K>, b: Tree<K>)
    ensures Flat([a, b]) == Contents(a) + Contents(b)
  {
    assert [a, b][1..] == [b];
    FlatOne(b);
  }

  lemma Assoc3<K>(a: seq<K>, b: seq<K>, c: seq<K>)
    ensures a + b + c == a + (b + c)
  {
  }

  lemma Assoc<K>(a: seq<K>, b: seq<K>, c: seq<K>, d: seq<K>)
    ensures (a + b) + (c + d) == a + (b + c) + d == a + (b + (c + d))
  {
  }

  /** The cached greatest key is the last key; only a node without keys has no contents. */
  lemma {:induction false} LastIsMax<K>(t: Tree<K>, height: nat)
    requires Shape(t, height)
    ensures t.keys == [] <==> Contents(t) == []
    ensures t.keys != [] ==> Contents(t)[|Contents(t)| - 1] == MaxKey(t)
    decreases height
  {
    if t.Inner? && t.keys != [] {
      var n := |t.children| - 1;
      LastIsMax(t.children[n], height - 1);
      FlatAt(t.children, n);
      assert t.children[n + 1..] == [];
    }
  }

  // ----- shifting, splitting and merging do not change the contents

  lemma TakeFromRightContents<K>(lhs: Tree<K>, rhs: Tree<K>, height: nat)
    requires Shape(lhs, height) && Shape(rhs, height) && |lhs.keys| < MAX_NODE_SIZE && rhs.keys != []
    ensures var (l, r) := TakeFromRight(lhs, rhs, height); Contents(l) + Contents(r) == Contents(lhs) + Contents(rhs)
  {
    if lhs.Inner? {
      FlatConcat(lhs.children, [rhs.children[0]]);
      FlatOne(rhs.children[0]);
    }
  }

  lemma TakeLastContents<K>(a: seq<Tree<K>>, b: seq<Tree<K>>)
    requires a != []
    ensures Flat(a[..|a| - 1]) + Flat([a[|a| - 1]] + b) == Flat(a) + Flat(b)
  {
    var n := |a| - 1;
    assert a == a[..n] + [a[n]];
    FlatConcat(a[..n], [a[n]]);
    FlatConcat([a[n]], b);
    Assoc3(Flat(a[..n]), Flat([a[n]]), Flat(b));
  }

  lemma TakeFromLeftContents<K>(lhs: Tree<K>, rhs: Tree<K>, height: nat)
    requires Shape(lhs, height) && Shape(rhs, height) && |rhs.keys| < MAX_NODE_SIZE && lhs.keys != []
    ensures var (l, r) := TakeFromLeft(lhs, rhs, height); Contents(l) + Contents(r) == Contents(lhs) + Contents(rhs)
  {
    hide Flat;
    var n := |lhs.keys| - 1;
    var (l, r) := TakeFromLeft(lhs, rhs, height);
    if lhs.Inner? {
      TakeLastContents(lhs.children, rhs.children);
      assert Contents(l) == Flat(l.children) && Contents(r) == Flat(r.children);
    } else {
      assert Contents(l) + Contents(r) == lhs.keys + rhs.keys;
    }
  }

  lemma FlatPair<K>(ts: seq<Tree<K>>, i: nat, a: Tree<K>, b: Tree<K>)
    requires i + 1 < |ts|
    requires Contents(a) + Contents(b) == Contents(ts[i]) + Contents(ts[i + 1])
    ensures Flat(ts[i := a][i + 1 := b]) == Flat(ts)
  {
    var us := ts[i := a][i + 1 := b];
    FlatTwo(ts, i);
    FlatTwo(us, i);
    assert us[..i] == ts[..i] && us[i + 2..] == ts[i + 2..];
  }

  lemma ShiftLeftContents<K>(t: Tree<K>, i: nat, height: nat)
    requires Shape(t, height) && t.Inner? && i + 1 < |t.children|
    requires |t.children[i].keys| < MAX_NODE_SIZE && |t.children[i + 1].keys| > 1
    ensures Contents(ShiftLeft(t, i, height)) == Contents(t)
  {
    TakeFromRightContents(t.children[i], t.children[i + 1], height - 1);
    var (a, b) := TakeFromRight(t.children[i], t.children[i + 1], height - 1);
    FlatPair(t.children, i, a, b);
  }

  lemma ShiftRightContents<K>(t: Tree<K>, i: nat, height: nat)
    requires Shape(t, height) && t.Inner? && i + 1 < |t.children|
    requires |t.children[i + 1].keys| < MAX_NODE_SIZE && |t.children[i].keys| > 1
    ensures Contents(ShiftRight(t, i, height)) == Contents(t)
  {
    TakeFromLeftContents(t.children[i], t.children[i + 1], height - 1);
    var (a, b) := TakeFromLeft(t.children[i], t.children[i + 1], height - 1);
    FlatPair(t.children, i, a, b);
  }

  lemma MakeRoomContents<K>(cmp: (K, K) -> int, t: Tree<K>, i: nat, key: K, height: nat)
    requires Shape(t, height) && t.Inner? && i < |t.children|
    ensures Contents(MakeRoom(cmp, t, i, key, height)) == Contents(t)
  {
    hide Contents, ShiftLeft, ShiftRight;
    if |t.children[i].keys| == MAX_NODE_SIZE {
      if i > 0 && |t.children[i - 1].keys| < MAX_NODE_SIZE { ShiftLeftContents(t, i - 1, height); }
      if i + 1 < |t.children| && |t.children[i + 1].keys| < MAX_NODE_SIZE { ShiftRightContents(t, i, height); }
    }
  }

  lemma {:induction false} TryMergeContents<K>(t: Tree<K>, i: nat, height: nat)
    requires t.Inner? && height > 0 && Slots(t.keys, t.children, height - 1) && i < |t.keys|
    ensures Contents(TryMerge(t, i, height)) == Contents(t)
    decreases height, 0
  {
    if i + 1 < |t.children| && |t.children[i].keys| + |t.children[i + 1].keys| <= MAX_NODE_SIZE {
      var merged := MergeSibling(t.children[i], t.children[i + 1], height - 1);
      MergeSiblingContents(t.children[i], t.children[i + 1], height - 1);
      FlatSplice(t.children, i, 2, [merged]);
      FlatOne(merged);
      FlatTwo(t.children, i);
    }
  }

  lemma {:induction false} MergeSiblingContents<K>(lhs: Tree<K>, rhs: Tree<K>, height: nat)
    requires Shape(lhs, height) && Shape(rhs, height) && lhs.keys != [] && rhs.keys != []
    requires |lhs.keys| + |rhs.keys| <= MAX_NODE_SIZE
    ensures Contents(MergeSibling(lhs, rhs, height)) == Contents(lhs) + Contents(rhs)
    decreases height, 1
  {
    if lhs.Inner? {
      var joined := Inner(lhs.keys + rhs.keys, lhs.children + rhs.children);
      TryMergeContents(joined, |lhs.keys| - 1, height);
      FlatConcat(lhs.children, rhs.children);
    }
  }

  /** The keys cached in a node are in order because the keys below it are. */
  lemma KeysSorted<K(!new)>(cmp: (K, K) -> int, t: Tree<K>, height: nat)
    requires Shape(t, height) && Sorted(cmp, Contents(t))
    ensures Sorted(cmp, t.keys)
  {
    hide Contents;
    if t.Inner? {
      forall i: nat, j: nat | i < j < |t.keys| ensures Rises(cmp, t.keys, i, j) {
        FlatSplit(t.children, j);
        Elements(t.children[..j], i, height - 1);
        assert t.children[j..][0] == t.children[j];
        Elements(t.children[j..], 0, height - 1);
        assert Contents(t) == Flat(t.children[..j]) + Flat(t.children[j..]) by { InnerContents(t); }
        SortedAcross(cmp, Flat(t.children[..j]), Flat(t.children[j..]), t.keys[i], t.keys[j]);
      }
    } else {
      assert Contents(t) == t.keys by { LeafContents(t); }
    }
  }

  lemma InnerContents<K>(t: Tree<K>)
    requires t.Inner?
    ensures Contents(t) == Flat(t.children)
  {
  }

  lemma LeafContents<K>(t: Tree<K>)
    requires t.Leaf?
    ensures Contents(t) == t.keys
  {
  }

  // ----- set inserts

  lemma ChildSorted<K>(cmp: (K, K) -> int, t: Tree<K>, i: nat, height: nat)
    requires Shape(t, height) && t.Inner? && i < |t.children| && Sorted(cmp, Contents(t))
    ensures Sorted(cmp, Contents(t.children[i]))
  {
    FlatAt(t.children, i);
    SortedParts(cmp, Flat(t.children[..i]) + Contents(t.children[i]), Flat(t.children[i + 1..]));
    SortedParts(cmp, Flat(t.children[..i]), Contents(t.children[i]));
  }

  /** The key's child and its neighbours in an inner node, with the order facts that the descent relies on. */
  ghost predicate Target<K>(cmp: (K, K) -> int, t: Tree<K>, i: nat, key: K) {
    && t.Inner? && |t.keys| == |t.children| && i < |t.keys|
    && (i > 0 ==> cmp(t.keys[i - 1], key) < 0)
    && (i + 1 < |t.keys| ==> cmp(t.keys[i], key) >= 0)
  }

  lemma PrefixLast<K>(t: Tree<K>, i: nat, height: nat)
    requires Shape(t, height) && t.Inner? && 0 < i <= |t.children|
    ensures var s := Flat(t.children[..i]); s != [] && s[|s| - 1] == t.keys[i - 1]
  {
    FlatUpTo(t.children, i - 1);
    LastIsMax(t.children[i - 1], height - 1);
  }

  lemma TargetFocus<K>(cmp: (K, K) -> int, t: Tree<K>, i: nat, key: K, height: nat)
    requires Shape(t, height) && Target(cmp, t, i, key) && Sorted(cmp, Contents(t))
    ensures Contents(t) == Flat(t.children[..i]) + Contents(t.children[i]) + Flat(t.children[i + 1..])
    ensures Focus(cmp, Flat(t.children[..i]), Contents(t.children[i]), Flat(t.children[i + 1..]), key)
  {
    FlatAt(t.children, i);
    LastIsMax(t.children[i], height - 1);
    if i > 0 {
      PrefixLast(t, i, height);
    } else {
      assert t.children[..i] == [];
    }
    if i + 1 == |t.children| { assert t.children[i + 1..] == []; }
  }

  lemma MakeRoomTarget<K>(cmp: (K, K) -> int, t: Tree<K>, i: nat, key: K, height: nat)
    requires Shape(t, height) && Target(cmp, t, i, key)
    ensures Target(cmp, MakeRoom(cmp, t, i, key, height), i, key)
  {
  }

  /**
   Shifting an entry to the right sibling is dead code: a key above the child's greatest key is only ever sent to the
   last child, which has no right sibling. So `MakeRoom` changes a node only by shifting an entry to the left.
   */
  lemma NeverShiftsRight<K>(cmp: (K, K) -> int, t: Tree<K>, key: K, height: nat)
    requires Shape(t, height) && t.Inner? && t.keys != []
    ensures var i := ChildIndex(cmp, t, key);
      && !(i + 1 < |t.children| && cmp(MaxKey(t.children[i]), key) < 0)
      && (MakeRoom(cmp, t, i, key, height) != t ==>
            i > 0 && |MakeRoom(cmp, t, i, key, height).children[i - 1].keys| == |t.children[i - 1].keys| + 1)
  {
  }

  /** What `set` leaves behind, read left to right. */
  ghost function SetContents<K>(r: SetResult<K>): seq<K> {
    Contents(r.node) + if r.right.Some? then Contents(r.right.value) else []
  }

  lemma SpliceInHalf<K>(s: seq<K>, half: nat, i: nat, x: seq<K>)
    requires half <= |s| && i <= |s|
    ensures i >= half ==> s[..half] + Splice(s[half..], i - half, 0, x) == Splice(s, i, 0, x)
    ensures i <= half ==> Splice(s[..half], i, 0, x) + s[half..] == Splice(s, i, 0, x)
  {
  }

  lemma SetFullLeaf<K(!new)>(cmp: (K, K) -> int, t: Tree<K>, key: K)
    requires Shape(t, 0) && !Found(cmp, t.keys, key) && |t.keys| == MAX_NODE_SIZE
    ensures SetContents(SetLeaf(cmp, t, key)) == Insert(cmp, t.keys, key)
  {
    hide LowerBound, Found, Flat, Splice;
    var r := SetLeaf(cmp, t, key);
    assert SetContents(r) == r.node.keys + r.right.value.keys;
    SpliceInHalf(t.keys, |t.keys| / 2, LowerBound(cmp, t.keys, key), [key]);
  }

  lemma SetLeafInserts<K(!new)>(cmp: (K, K) -> int, t: Tree<K>, key: K)
    requires Shape(t, 0)
    ensures SetContents(SetLeaf(cmp, t, key)) == Insert(cmp, t.keys, key)
    ensures SetLeaf(cmp, t, key).added == !Found(cmp, t.keys, key)
  {
    hide LowerBound, Flat, Splice;
    var r := SetLeaf(cmp, t, key);
    if Found(cmp, t.keys, key) || |t.keys| < MAX_NODE_SIZE {
      assert SetContents(r) == r.node.keys + [];
    } else {
      SetFullLeaf(cmp, t, key);
    }
  }

  lemma Elements<K>(ts: seq<Tree<K>>, i: nat, height: nat)
    requires i < |ts| && Shape(ts[i], height) && ts[i].keys != []
    ensures MaxKey(ts[i]) in Flat(ts)
  {
    FlatAt(ts, i);
    LastIsMax(ts[i], height);
  }

  lemma SortedAcross<K>(cmp: (K, K) -> int, a: seq<K>, b: seq<K>, x: K, y: K)
    requires Sorted(cmp, a + b) && x in a && y in b
    ensures cmp(x, y) < 0
  {
    SortedParts(cmp, a, b);
  }

  /** Where the new right sibling goes is decided by keys, and the keys decide by position. */
  lemma SplitSide<K(!new)>(cmp: (K, K) -> int, t: Tree<K>, i: nat, right: Tree<K>, height: nat)
    requires TotalOrder(cmp)
    requires Shape(t, height) && t.Inner? && i < |t.keys| == MAX_NODE_SIZE
    requires Shape(right, height - 1) && right.keys != []
    requires Sorted(cmp, Flat(t.children[..i + 1]) + Contents(right) + Flat(t.children[i + 1..]))
    ensures var left := Split(t, height).0; cmp(MaxKey(right), MaxKey(left)) > 0 <==> i + 1 >= |left.keys|
  {
    var last := MAX_NODE_SIZE / 2 - 1;
    assert MaxKey(Split(t, height).0) == t.keys[last];
    if last <= i {
      LeftOf(cmp, t, i, last, right, height);
      Flip(cmp, t.keys[last], MaxKey(right));
    } else {
      RightOf(cmp, t, i, last, right, height);
    }
  }

  lemma LeftOf<K>(cmp: (K, K) -> int, t: Tree<K>, i: nat, j: nat, right: Tree<K>, height: nat)
    requires Shape(t, height) && t.Inner? && j <= i < |t.keys|
    requires Shape(right, height - 1) && right.keys != []
    requires Sorted(cmp, Flat(t.children[..i + 1]) + Contents(right) + Flat(t.children[i + 1..]))
    ensures cmp(t.keys[j], MaxKey(right)) < 0
  {
    var a := t.children[..i + 1];
    LastIsMax(right, height - 1);
    Elements(a, j, height - 1);
    SortedParts(cmp, Flat(a) + Contents(right), Flat(t.children[i + 1..]));
    SortedAcross(cmp, Flat(a), Contents(right), t.keys[j], MaxKey(right));
  }

  lemma RightOf<K>(cmp: (K, K) -> int, t: Tree<K>, i: nat, j: nat, right: Tree<K>, height: nat)
    requires Shape(t, height) && t.Inner? && i < j < |t.keys|
    requires Shape(right, height - 1) && right.keys != []
    requires Sorted(cmp, Flat(t.children[..i + 1]) + Contents(right) + Flat(t.children[i + 1..]))
    ensures cmp(MaxKey(right), t.keys[j]) < 0
  {
    var b := t.children[i + 1..];
    LastIsMax(right, height - 1);
    assert b[j - (i + 1)] == t.children[j];
    Elements(b, j - (i + 1), height - 1);
    SortedAcross(cmp, Flat(t.children[..i + 1]) + Contents(right), Flat(b), MaxKey(right), t.keys[j]);
  }

  lemma InsertInHalf<K>(ts: seq<Tree<K>>, half: nat, i: nat, x: Tree<K>)
    requires half <= |ts| && i <= |ts|
    ensures i >= half ==> Flat(ts[..half]) + Flat(Splice(ts[half..], i - half, 0, [x])) == Flat(ts[..i]) + Contents(x) + Flat(ts[i..])
    ensures i <= half ==> Flat(Splice(ts[..half], i, 0, [x])) + Flat(ts[half..]) == Flat(ts[..i]) + Contents(x) + Flat(ts[i..])
  {
    SpliceInHalf(ts, half, i, [x]);
    FlatSplice(ts, i, 0, [x]);
    FlatOne(x);
    if i >= half { FlatConcat(ts[..half], Splice(ts[half..], i - half, 0, [x])); }
    if i <= half { FlatConcat(Splice(ts[..half], i, 0, [x]), ts[half..]); }
  }

  lemma AdoptSplitContents<K(!new)>(cmp: (K, K) -> int, t: Tree<K>, i: nat, right: Tree<K>, added: bool, height: nat)
    requires TotalOrder(cmp)
    requires Shape(t, height) && t.Inner? && i < |t.keys|
    requires Shape(right, height - 1) && right.keys != []
    requires Sorted(cmp, Flat(t.children[..i + 1]) + Contents(right) + Flat(t.children[i + 1..]))
    ensures SetContents(AdoptSplit(cmp, t, i, right, added, height))
         == Flat(t.children[..i + 1]) + Contents(right) + Flat(t.children[i + 1..])
  {
    if |t.keys| < MAX_NODE_SIZE {
      FlatSplice(t.children, i + 1, 0, [right]);
      FlatOne(right);
    } else {
      SplitSide(cmp, t, i, right, height);
      AdoptIntoHalf(cmp, t, i, right, added, height);
    }
  }

  lemma AdoptIntoHalf<K>(cmp: (K, K) -> int, t: Tree<K>, i: nat, right: Tree<K>, added: bool, height: nat)
    requires Shape(t, height) && t.Inner? && i < |t.keys| == MAX_NODE_SIZE
    requires Shape(right, height - 1) && right.keys != []
    requires var left := Split(t, height).0; cmp(MaxKey(right), MaxKey(left)) > 0 <==> i + 1 >= |left.keys|
    ensures SetContents(AdoptSplit(cmp, t, i, right, added, height))
         == Flat(t.children[..i + 1]) + Contents(right) + Flat(t.children[i + 1..])
  {
    hide InsertChild, Splice, Flat;
    var half := MAX_NODE_SIZE / 2;
    InsertInHalf(t.children, half, i + 1, right);
    if i + 1 >= half {
      var sibling := Split(t, height).1;
      InsertChildContents(sibling, i - half + 1, right, height);
    } else {
      var left := Split(t, height).0;
      InsertChildContents(left, i + 1, right, height);
    }
  }

  lemma InsertChildContents<K>(t: Tree<K>, i: nat, child: Tree<K>, height: nat)
    requires Shape(t, height) && t.Inner? && |t.keys| < MAX_NODE_SIZE && i <= |t.keys|
    requires Shape(child, height - 1) && child.keys != []
    ensures Contents(InsertChild(t, i, child, height)) == Flat(Splice(t.children, i, 0, [child]))
  {
  }

  lemma SetAboveContents<K(!new)>(cmp: (K, K) -> int, t: Tree<K>, i: nat, below: SetResult<K>, height: nat)
    requires TotalOrder(cmp)
    requires Shape(t, height) && t.Inner? && i < |t.keys| && SetShape(below, height - 1)
    requires Sorted(cmp, Flat(t.children[..i]) + SetContents(below) + Flat(t.children[i + 1..]))
    ensures SetContents(SetAbove(cmp, t, i, below, height))
         == Flat(t.children[..i]) + SetContents(below) + Flat(t.children[i + 1..])
  {
    hide Flat, AdoptSplit, TotalOrder, Sorted;
    if below.right.Some? {
      SplitAboveContents(cmp, t, i, below.node, below.right.value, below.added, height);
      Assoc(Flat(t.children[..i]), Contents(below.node), Contents(below.right.value), []);
      assert Flat(t.children[..i]) + Contents(below.node) + Contents(below.right.value)
          == Flat(t.children[..i]) + SetContents(below);
    } else {
      assert SetContents(below) == Contents(below.node);
      FlatUpdate(t.children, i, below.node);
    }
  }

  lemma SplitAboveContents<K(!new)>(cmp: (K, K) -> int, t: Tree<K>, i: nat, node: Tree<K>, right: Tree<K>, added: bool, height: nat)
    requires TotalOrder(cmp)
    requires Shape(t, height) && t.Inner? && i < |t.keys| && SetShape(SetResult(node, Some(right), added), height - 1)
    requires Sorted(cmp, Flat(t.children[..i]) + (Contents(node) + Contents(right)) + Flat(t.children[i + 1..]))
    ensures SetContents(AdoptSplit(cmp, Fill(t, i, node, height), i, right, added, height))
         == Flat(t.children[..i]) + Contents(node) + Contents(right) + Flat(t.children[i + 1..])
  {
    hide Flat, AdoptSplit, Sorted, TotalOrder, SetContents, Contents;
    var grown := Fill(t, i, node, height);
    FlatUpTo(grown.children, i);
    assert grown.children[..i] == t.children[..i] && grown.children[i + 1..] == t.children[i + 1..];
    Assoc(Flat(t.children[..i]), Contents(node), Contents(right), []);
    assert Flat(t.children[..i]) + Contents(node) + Contents(right) == Flat(t.children[..i]) + (Contents(node) + Contents(right));
    AdoptSplitContents(cmp, grown, i, right, added, height);
  }

  lemma RoomyFocus<K(!new)>(cmp: (K, K) -> int, t: Tree<K>, key: K, height: nat)
    requires Shape(t, height) && t.Inner? && t.keys != [] && Sorted(cmp, Contents(t))
    ensures var i := ChildIndex(cmp, t, key); var roomy := MakeRoom(cmp, t, i, key, height);
      && Contents(t) == Flat(roomy.children[..i]) + Contents(roomy.children[i]) + Flat(roomy.children[i + 1..])
      && Focus(cmp, Flat(roomy.children[..i]), Contents(roomy.children[i]), Flat(roomy.children[i + 1..]), key)
  {
    var i := ChildIndex(cmp, t, key);
    MakeRoomContents(cmp, t, i, key, height);
    MakeRoomTarget(cmp, t, i, key, height);
    TargetFocus(cmp, MakeRoom(cmp, t, i, key, height), i, key, height);
  }

  lemma SetStep<K(!new)>(cmp: (K, K) -> int, t: Tree<K>, key: K, below: SetResult<K>, height: nat)
    requires TotalOrder(cmp) && Shape(t, height) && t.Inner? && t.keys != [] && Sorted(cmp, Contents(t))
    requires SetShape(below, height - 1)
    requires var i := ChildIndex(cmp, t, key); var s := Contents(MakeRoom(cmp, t, i, key, height).children[i]);
      && SetContents(below) == Insert(cmp, s, key)
      && below.added == !Found(cmp, s, key)
    ensures var i := ChildIndex(cmp, t, key); var roomy := MakeRoom(cmp, t, i, key, height);
      && SetContents(SetAbove(cmp, roomy, i, below, height)) == Insert(cmp, Contents(t), key)
      && below.added == !Found(cmp, Contents(t), key)
  {
    var i := ChildIndex(cmp, t, key);
    var roomy := MakeRoom(cmp, t, i, key, height);
    RoomyFocus(cmp, t, key, height);
    FocusOps(cmp, Flat(roomy.children[..i]), Contents(roomy.children[i]), Flat(roomy.children[i + 1..]), key);
    InsertSorted(cmp, Contents(t), key);
    SetAboveContents(cmp, roomy, i, below, height);
  }

  lemma {:induction false} SetInserts<K(!new)>(cmp: (K, K) -> int, t: Tree<K>, key: K, height: nat)
    requires TotalOrder(cmp) && Shape(t, height) && (t.Inner? ==> t.keys != []) && Sorted(cmp, Contents(t))
    ensures SetContents(SetNode(cmp, t, key, height)) == Insert(cmp, Contents(t), key)
    ensures SetNode(cmp, t, key, height).added == !Found(cmp, Contents(t), key)
    decreases height
  {
    hide MakeRoom, SetLeaf, SetAbove, LowerBound, Flat, Splice;
    if t.Leaf? {
      SetLeafInserts(cmp, t, key);
    } else {

      var i := ChildIndex(cmp, t, key);
      var child := MakeRoom(cmp, t, i, key, height).children[i];
      MakeRoomContents(cmp, t, i, key, height);
      ChildSorted(cmp, MakeRoom(cmp, t, i, key, height), i, height);
      SetInserts(cmp, child, key, height - 1);
      SetStep(cmp, t, key, SetNode(cmp, child, key, height - 1), height);
    }
  }

  // ----- delete removes

  lemma MergeStepContents<K>(t: Tree<K>, i: nat, height: nat)
    requires Dented(t, i, height)
    ensures Contents(MergeStep(t, i, height)) == Contents(t)
  {
    if t.children[i].keys != [] {
      TryMergeContents(t, i, height);
    } else {
      FlatSplice(t.children, i, 1, []);
      FlatAt(t.children, i);
      LastIsMax(t.children[i], height - 1);
    }
  }

  lemma CleanUpContents<K>(t: Tree<K>, i: nat, height: nat)
    requires Dented(t, i, height)
    ensures Contents(CleanUp(t, i, height)) == Contents(t)
  {
    MergeStepContents(t, i, height);
    if i > 0 { MergeStepContents(MergeStep(t, i, height), i - 1, height); }
  }

  lemma DentContents<K>(t: Tree<K>, i: nat, child: Tree<K>, height: nat)
    requires Shape(t, height) && t.Inner? && i < |t.children| && Shape(child, height - 1)
    ensures Contents(CleanUp(Dent(t, i, child, height), i, height))
         == Flat(t.children[..i]) + Contents(child) + Flat(t.children[i + 1..])
  {
    FlatUpdate(t.children, i, child);
    CleanUpContents(Dent(t, i, child, height), i, height);
  }

  lemma AboveMaxIsAbsent<K(!new)>(cmp: (K, K) -> int, t: Tree<K>, key: K, height: nat)
    requires TotalOrder(cmp) && Shape(t, height) && Sorted(cmp, Contents(t))
    requires LowerBound(cmp, t.keys, key) == |t.keys|
    ensures LowerBound(cmp, Contents(t), key) == |Contents(t)|
  {
    LastIsMax(t, height);
    LowerBoundUnique(cmp, Contents(t), key, |Contents(t)|);
  }

  lemma DeleteStep<K(!new)>(cmp: (K, K) -> int, t: Tree<K>, i: nat, key: K, child: Tree<K>, height: nat)
    requires TotalOrder(cmp) && Shape(t, height) && Target(cmp, t, i, key) && Sorted(cmp, Contents(t))
    requires Shape(child, height - 1) && Contents(child) == Remove(cmp, Contents(t.children[i]), key)
    ensures Contents(CleanUp(Dent(t, i, child, height), i, height)) == Remove(cmp, Contents(t), key)
    ensures Found(cmp, Contents(t.children[i]), key) == Found(cmp, Contents(t), key)
  {
    hide LowerBound, Splice;
    TargetFocus(cmp, t, i, key, height);
    FocusOps(cmp, Flat(t.children[..i]), Contents(t.children[i]), Flat(t.children[i + 1..]), key);
    DentContents(t, i, child, height);
  }

  lemma {:induction false} DeleteRemoves<K(!new)>(cmp: (K, K) -> int, t: Tree<K>, key: K, height: nat)
    requires TotalOrder(cmp) && Shape(t, height) && Sorted(cmp, Contents(t))
    ensures Contents(DeleteNode(cmp, t, key, height).0) == Remove(cmp, Contents(t), key)
    ensures DeleteNode(cmp, t, key, height).1 == Found(cmp, Contents(t), key)
    decreases height
  {
    hide CleanUp, Dent, LowerBound, Flat, Splice;
    var i := LowerBound(cmp, t.keys, key);
    if t.Inner? && i == |t.keys| {
      AboveMaxIsAbsent(cmp, t, key, height);
    } else if t.Inner? {
      ChildSorted(cmp, t, i, height);
      DeleteRemoves(cmp, t.children[i], key, height - 1);
      DeleteStep(cmp, t, i, key, DeleteNode(cmp, t.children[i], key, height - 1).0, height);
    }
  }

  lemma {:induction false} CollapseContents<K>(t: Tree<K>, height: nat)
    requires Shape(t, height)
    ensures Contents(Collapse(t, height).0) == Contents(t)
    decreases height
  {
    if t.Inner? && |t.keys| == 1 {
      assert t.children == [t.children[0]];
      FlatOne(t.children[0]);
      CollapseContents(t.children[0], height - 1);
    }
  }

  lemma NewRootContents<K>(left: Tree<K>, right: Tree<K>, height: nat)
    requires Shape(left, height) && left.keys != [] && Shape(right, height) && right.keys != []
    ensures Contents(NewRoot(left, right, height)) == Contents(left) + Contents(right)
  {
    FlatJust(left, right);
  }

  // ----- the operations of the set

  ghost predicate Ordered<K(!new)>(cmp: (K, K) -> int, root: Tree<K>, height: nat) {
    RootShape(root, height) && Sorted(cmp, Contents(root))
  }

  lemma SetRootContents<K>(cmp: (K, K) -> int, root: Tree<K>, key: K, height: nat)
    requires RootShape(root, height)
    ensures Contents(SetRoot(cmp, root, key, height).0) == SetContents(SetNode(cmp, root, key, height))
  {
    var s := SetNode(cmp, root, key, height);
    if s.right.Some? {
      NewRootContents(s.node, s.right.value, height);
    }
  }

  /** `add` is insertion into the sorted set; it keeps the tree balanced, bounded, cached and ordered. */
  lemma AddRefines<K(!new)>(cmp: (K, K) -> int, root: Tree<K>, key: K, height: nat)
    requires TotalOrder(cmp) && Ordered(cmp, root, height)
    ensures var (root', height', added) := SetRoot(cmp, root, key, height);
      && Ordered(cmp, root', height')
      && Contents(root') == Insert(cmp, Contents(root), key)
      && added == !Found(cmp, Contents(root), key)
  {
    SetInserts(cmp, root, key, height);
    InsertSorted(cmp, Contents(root), key);
    SetRootContents(cmp, root, key, height);
  }

  /** `delete` is removal from the sorted set, with the same guarantees; it reports whether the key was there. */
  lemma DeleteRefines<K(!new)>(cmp: (K, K) -> int, root: Tree<K>, key: K, height: nat)
    requires TotalOrder(cmp) && Ordered(cmp, root, height)
    ensures var (root', height', found) := DeleteRoot(cmp, root, key, height);
      && Ordered(cmp, root', height')
      && Contents(root') == Remove(cmp, Contents(root), key)
      && found == Found(cmp, Contents(root), key)
  {
    DeleteRemoves(cmp, root, key, height);
    RemoveIsRemoval(cmp, Contents(root), key);
    CollapseContents(DeleteNode(cmp, root, key, height).0, height);
  }

  /** `get` finds exactly the element that compares as equal to the key. */
  lemma {:induction false} GetRefines<K(!new)>(cmp: (K, K) -> int, t: Tree<K>, key: K, height: nat)
    requires TotalOrder(cmp) && Shape(t, height) && Sorted(cmp, Contents(t))
    ensures var s := Contents(t);
      Get(cmp, t, key, height) == if Found(cmp, s, key) then Some(s[LowerBound(cmp, s, key)]) else None
    decreases height
  {
    hide LowerBound, Flat;
    if t.Inner? {
      var i := LowerBound(cmp, t.keys, key);
      if i >= |t.keys| {
        AboveMaxIsAbsent(cmp, t, key, height);
      } else {
        TargetFocus(cmp, t, i, key, height);
        var a, b, c := Flat(t.children[..i]), Contents(t.children[i]), Flat(t.children[i + 1..]);
        FocusLowerBound(cmp, a, b, c, key);
        GetRefines(cmp, t.children[i], key, height - 1);
      }
    }
  }
}
