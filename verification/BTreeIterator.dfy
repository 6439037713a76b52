/**
 Iteration over the tree with an explicit stack of levels: `nodeQueue[0]` holds the leaf's siblings, `nodeQueue[1]` its
 parent's siblings, and so on; `nodeIndex` says where the path runs. The tree is not changed while it is iterated over,
 so the iterators work on the immutable trees that the nodes stand for.
 */
module BTreeIterator {
  import opened Wrappers
  import opened SortedSet
  import opened BTreeModel
  import opened BTreeRefinement
  import opened BTreeHeap

  // ----- what is to be iterated over

  /** The keys from `lowest` on. */
  function Ascending<K>(cmp: (K, K) -> int, s: seq<K>, lowest: K, inclusive: bool): seq<K> {
    s[if !inclusive && Found(cmp, s, lowest) then LowerBound(cmp, s, lowest) + 1 else LowerBound(cmp, s, lowest)..]
  }

  /** The keys up to `highest`, in ascending order. */
  function UpTo<K>(cmp: (K, K) -> int, s: seq<K>, highest: K, inclusive: bool): seq<K> {
    s[..if inclusive && Found(cmp, s, highest) then LowerBound(cmp, s, highest) + 1 else LowerBound(cmp, s, highest)]
  }

  /** What `valuesFrom` starts with; without a start key, only an inclusive start is meaningful. */
  function Start<K>(cmp: (K, K) -> int, s: seq<K>, lowest: Option<K>, inclusive: bool, vague: bool): seq<K> {
    match lowest
    case Some(key) => Ascending(cmp, s, key, inclusive)
    case None => if inclusive || !vague || s == [] then s else s[1..]
  }

  /** A start key selects exactly the keys on its side, and keeps their order. */
  lemma AscendingSelects<K(!new)>(cmp: (K, K) -> int, s: seq<K>, lowest: K, inclusive: bool)
    requires TotalOrder(cmp) && Sorted(cmp, s)
    ensures var r := Ascending(cmp, s, lowest, inclusive);
      && Sorted(cmp, r)
      && (forall x :: x in r <==> x in s && (cmp(x, lowest) > 0 || (inclusive && cmp(x, lowest) == 0)))
  {
    Around(cmp, s, lowest);
    var i, n := LowerBound(cmp, s, lowest), if Found(cmp, s, lowest) then 1 else 0;
    SpliceMembers(s, i, n, []);
    assert s[i..] == s[i..i + n] + s[i + n..];
    SortedPart(cmp, s, i, i);
    SortedPart(cmp, s, i + n, i + n);
  }

  lemma UpToSelects<K(!new)>(cmp: (K, K) -> int, s: seq<K>, highest: K, inclusive: bool)
    requires TotalOrder(cmp) && Sorted(cmp, s)
    ensures var r := UpTo(cmp, s, highest, inclusive);
      && Sorted(cmp, r)
      && (forall x :: x in r <==> x in s && (cmp(x, highest) < 0 || (inclusive && cmp(x, highest) == 0)))
  {
    Around(cmp, s, highest);
    var i, n := LowerBound(cmp, s, highest), if Found(cmp, s, highest) then 1 else 0;
    SpliceMembers(s, i, n, []);
    assert s[..i + n] == s[..i] + s[i..i + n];
    SortedPart(cmp, s, i, i);
    SortedPart(cmp, s, i + n, i + n);
  }

  // ----- the stack of levels

  /** Level `l` of the stack holds non-empty trees of height `height + l`. */
  ghost predicate Levels<K>(queue: seq<seq<Tree<K>>>, index: seq<int>, height: nat) {
    && |queue| == |index|
    && forall l, j :: 0 <= l < |queue| && 0 <= j < |queue[l]| ==> Shape(queue[l][j], height + l) && queue[l][j].keys != []
  }

  /** The keys to the right of the path, nearest first. */
  ghost function RightOfPath<K>(queue: seq<seq<Tree<K>>>, index: seq<int>): seq<K>
    requires |queue| == |index|
  {
    if queue == [] then [] else
      (if 0 <= index[0] + 1 <= |queue[0]| then Flat(queue[0][index[0] + 1..]) else [])
      + RightOfPath(queue[1..], index[1..])
  }

  /** The keys to the left of the path, nearest last. */
  ghost function LeftOfPath<K>(queue: seq<seq<Tree<K>>>, index: seq<int>): seq<K>
    requires |queue| == |index|
  {
    if queue == [] then [] else
      LeftOfPath(queue[1..], index[1..]) + if 0 <= index[0] <= |queue[0]| then Flat(queue[0][..index[0]]) else []
  }

  /** The descent of `findPath`: what lies left of the path, at its end, and right of it. */
  ghost predicate OnPath<K>(cmp: (K, K) -> int, root: Tree<K>, key: Option<K>, left: seq<K>, mid: seq<K>, right: seq<K>) {
    && Contents(root) == left + mid + right
    && (if key.Some? then Focus(cmp, left, mid, right, key.value) else left == [])
  }

  lemma Deeper<K(!new)>(cmp: (K, K) -> int, root: Tree<K>, key: Option<K>, left: seq<K>, right: seq<K>, t: Tree<K>, i: nat,
                        height: nat)
    requires TotalOrder(cmp) && Sorted(cmp, Contents(root)) && Shape(t, height) && t.Inner? && i < |t.children|
    requires OnPath(cmp, root, key, left, Contents(t), right)
    requires i == if key.None? then 0 else LowerBound(cmp, t.keys, key.value)
    ensures OnPath(cmp, root, key, left + Flat(t.children[..i]), Contents(t.children[i]), Flat(t.children[i + 1..]) + right)
  {
    hide Flat, Contents, LowerBound, Shape, TotalOrder;
    var a, b, c := Flat(t.children[..i]), Contents(t.children[i]), Flat(t.children[i + 1..]);
    FlatAt(t.children, i);
    InnerContents(t);
    Regroup(left, a, b, c, right);
    if key.Some? {
      SortedParts(cmp, left + Contents(t), right);
      SortedParts(cmp, left, Contents(t));
      FoundBelow(cmp, t, i, key.value, height);
      NarrowFocus(cmp, left, a, b, c, right, key.value);
    } else {
      assert t.children[..0] == [];
      NoFlat(t.children[..0], 0);
    }
  }

  lemma Regroup<A>(left: seq<A>, a: seq<A>, b: seq<A>, c: seq<A>, right: seq<A>)
    ensures left + (a + b + c) + right == (left + a) + b + (c + right)
  {
  }

  lemma FoundBelow<K(!new)>(cmp: (K, K) -> int, t: Tree<K>, i: nat, key: K, height: nat)
    requires Shape(t, height) && t.Inner? && i < |t.children| && i == LowerBound(cmp, t.keys, key)
    requires Sorted(cmp, Contents(t))
    ensures var a, b, c := Flat(t.children[..i]), Contents(t.children[i]), Flat(t.children[i + 1..]);
      b != [] && cmp(b[|b| - 1], key) >= 0 && Focus(cmp, a, b, c, key)
  {
    TargetFocus(cmp, t, i, key, height);
    LastIsMax(t.children[i], height - 1);
  }

  lemma NarrowFocus<K>(cmp: (K, K) -> int, left: seq<K>, a: seq<K>, b: seq<K>, c: seq<K>, right: seq<K>, key: K)
    requires Focus(cmp, left, a + b + c, right, key) && Focus(cmp, a, b, c, key)
    requires b != [] && cmp(b[|b| - 1], key) >= 0
    ensures Focus(cmp, left + a, b, c + right, key)
  {
    Regroup(left, a, b, c, right);
  }

  /** Nothing is found below: the key is above everything. */
  lemma Nowhere<K(!new)>(cmp: (K, K) -> int, root: Tree<K>, key: K, left: seq<K>, right: seq<K>, t: Tree<K>, height: nat)
    requires TotalOrder(cmp) && Shape(t, height) && t.keys != [] && Sorted(cmp, Contents(root))
    requires OnPath(cmp, root, Some(key), left, Contents(t), right) && LowerBound(cmp, t.keys, key) == |t.keys|
    ensures LowerBound(cmp, Contents(root), key) == |Contents(root)|
  {
    LastIsMax(t, height);
    assert right == [];
    assert Contents(root) == left + Contents(t);
    LowerBoundUnique(cmp, Contents(root), key, |Contents(root)|);
  }

  datatype Path<K> = Path(queue: seq<seq<Tree<K>>>, index: seq<int>, leaf: Tree<K>)

  ghost predicate PathIn<K>(p: Path<K>) {
    && |p.queue| == |p.index| && Levels(p.queue, p.index, 0)
    && p.leaf.Leaf?
    && (forall l :: 0 <= l < |p.index| ==> 0 <= p.index[l] < |p.queue[l]|)
    && (p.queue != [] ==> p.leaf == p.queue[0][p.index[0]])
  }

  /** `findPath`: nothing when the key is above the greatest key of an inner root. */
  method FindPath<K(!new)>(key: Option<K>, root: Tree<K>, cmp: (K, K) -> int, ghost height: nat) returns (r: Option<Path<K>>)
    requires TotalOrder(cmp) && Ordered(cmp, root, height)
    ensures r.Some? ==>
      && PathIn(r.value)
      && OnPath(cmp, root, key, LeftOfPath(r.value.queue, r.value.index), r.value.leaf.keys,
                RightOfPath(r.value.queue, r.value.index))
    ensures r.None? ==> root.Inner? && key.Some? && LowerBound(cmp, Contents(root), key.value) == |Contents(root)|
  {
    hide Flat, Focus, LeftOfPath, RightOfPath, Levels, OnPath, Contents;
    EmptyPath<K>(height);
    var next, queue, index := root, [], [];
    ghost var h := height;
    Whole(cmp, root, key);
    while next.Inner?
      invariant Shape(next, h) && (next.Inner? ==> next.keys != [])
      invariant |queue| == |index| && Levels(queue, index, h)
      invariant forall l :: 0 <= l < |index| ==> 0 <= index[l] < |queue[l]|
      invariant queue != [] ==> next == queue[0][index[0]]
      invariant OnPath(cmp, root, key, LeftOfPath(queue, index), Contents(next), RightOfPath(queue, index))
      decreases h
    {
      var i := 0;
      if key.Some? {
        Part(cmp, root, key.value, LeftOfPath(queue, index), next, RightOfPath(queue, index), h);
        i := IndexOf(key.value, next.keys, 0, cmp);
      }
      if i >= |next.children| {
        Nowhere(cmp, root, key.value, LeftOfPath(queue, index), RightOfPath(queue, index), next, h);
        return None;
      }
      Deeper(cmp, root, key, LeftOfPath(queue, index), RightOfPath(queue, index), next, i, h);
      Push(queue, index, next, i, h);
      queue, index, next, h := [next.children] + queue, [i] + index, next.children[i], h - 1;
    }
    LeafContents(next);
    return Some(Path(queue, index, next));
  }

  lemma EmptyPath<K>(height: nat)
    ensures Levels<K>([], [], height) && LeftOfPath<K>([], []) == [] && RightOfPath<K>([], []) == []
  {
  }

  lemma Push<K>(queue: seq<seq<Tree<K>>>, index: seq<int>, t: Tree<K>, i: nat, height: nat)
    requires Levels(queue, index, height) && Shape(t, height) && t.Inner? && i < |t.children|
    ensures var (queue', index') := ([t.children] + queue, [i] + index);
      && Levels(queue', index', height - 1)
      && LeftOfPath(queue', index') == LeftOfPath(queue, index) + Flat(t.children[..i])
      && RightOfPath(queue', index') == Flat(t.children[i + 1..]) + RightOfPath(queue, index)
      && Shape(t.children[i], height - 1) && t.children[i].keys != []
  {
    hide Flat;
    assert ([t.children] + queue)[1..] == queue && ([i] + index)[1..] == index;
  }

  lemma Whole<K>(cmp: (K, K) -> int, root: Tree<K>, key: Option<K>)
    requires Sorted(cmp, Contents(root))
    ensures OnPath(cmp, root, key, [], Contents(root), [])
  {
    assert [] + Contents(root) + [] == Contents(root);
  }

  lemma Part<K(!new)>(cmp: (K, K) -> int, root: Tree<K>, key: K, left: seq<K>, t: Tree<K>, right: seq<K>, height: nat)
    requires Shape(t, height) && OnPath(cmp, root, Some(key), left, Contents(t), right)
    ensures Sorted(cmp, t.keys)
  {
    SortedParts(cmp, left + Contents(t), right);
    SortedParts(cmp, left, Contents(t));
    KeysSorted(cmp, t, height);
  }

  // ----- ascending

  lemma RightAbove<K>(queue: seq<seq<Tree<K>>>, index: seq<int>, level: nat)
    requires |queue| == |index| && level < |queue|
    ensures RightOfPath(queue[level..], index[level..])
         == (if 0 <= index[level] + 1 <= |queue[level]| then Flat(queue[level][index[level] + 1..]) else [])
            + RightOfPath(queue[level + 1..], index[level + 1..])
  {
    assert queue[level..][1..] == queue[level + 1..] && index[level..][1..] == index[level + 1..];
  }

  lemma LeafSorted<K>(cmp: (K, K) -> int, root: Tree<K>, key: Option<K>, left: seq<K>, leaf: Tree<K>, right: seq<K>)
    requires Sorted(cmp, Contents(root)) && OnPath(cmp, root, key, left, leaf.keys, right)
    ensures Sorted(cmp, leaf.keys)
  {
    SortedParts(cmp, left + leaf.keys, right);
    SortedParts(cmp, left, leaf.keys);
  }

  /** One before the first index of the leaf to be visited. */
  method StartIndex<K(!new)>(keys: seq<K>, cmp: (K, K) -> int, lowestKey: Option<K>, inclusive: bool, vague: bool)
    returns (i: int)
    requires TotalOrder(cmp) && Sorted(cmp, keys)
    ensures i >= -1 && Tail(keys, i) == Start(cmp, keys, lowestKey, inclusive, vague)
  {
    i := -1;
    if lowestKey.Some? {
      var at := IndexOf(lowestKey.value, keys, 0, cmp);
      i := at - 1;
    }
    if !inclusive && i < |keys| {
      var same := if i + 1 < |keys| && lowestKey.Some? then cmp(keys[i + 1], lowestKey.value) == 0 else vague;
      if same {
        i := i + 1;
      }
    }
  }

  /** What comes after index `i`. */
  ghost function Tail<K>(keys: seq<K>, i: int): seq<K> {
    if 0 <= i + 1 <= |keys| then keys[i + 1..] else []
  }

  lemma WholeTail<K>(keys: seq<K>)
    ensures Tail(keys, -1) == keys
  {
  }

  /** One index further: the key there is the first of what is to come, or the leaf has no more. */
  lemma TailStep<K>(keys: seq<K>, i: int, rest: seq<K>)
    requires i >= -1
    ensures i + 1 < |keys| ==> Tail(keys, i) + rest == [keys[i + 1]] + (Tail(keys, i + 1) + rest)
    ensures i + 1 >= |keys| ==> Tail(keys, i) + rest == Tail(keys, i + 1) + rest == rest && Tail(keys, i + 1) == []
  {
  }

  /** How the start falls into the leaf at the end of the path. */
  lemma StartAt<K(!new)>(cmp: (K, K) -> int, s: seq<K>, lowest: Option<K>, inclusive: bool, vague: bool,
                         left: seq<K>, mid: seq<K>, right: seq<K>)
    requires TotalOrder(cmp) && s == left + mid + right
    requires if lowest.Some? then Focus(cmp, left, mid, right, lowest.value) else left == []
    requires mid == [] ==> right == []
    ensures Start(cmp, s, lowest, inclusive, vague) == Start(cmp, mid, lowest, inclusive, vague) + right
  {
    hide LowerBound, Focus;
    if lowest.Some? {
      FocusLowerBound(cmp, left, mid, right, lowest.value);
      DropInto(left, mid, right, LowerBound(cmp, mid, lowest.value));
      if Found(cmp, mid, lowest.value) { DropInto(left, mid, right, LowerBound(cmp, mid, lowest.value) + 1); }
    } else {
      DropInto(left, mid, right, 0);
      if mid != [] { DropInto(left, mid, right, 1); }
    }
  }

  lemma DropInto<A>(a: seq<A>, b: seq<A>, c: seq<A>, j: nat)
    requires j <= |b|
    ensures (a + b + c)[|a| + j..] == b[j..] + c
  {
  }

  /** Which leaf and which index an iteration up from `lowestKey` starts with. */
  method StartAbove<K(!new)>(lowestKey: Option<K>, root: Tree<K>, cmp: (K, K) -> int, inclusive: bool, vague: bool,
                             ghost height: nat)
    returns (p: Path<K>, i: int)
    requires TotalOrder(cmp) && Ordered(cmp, root, height)
    ensures PathIn(p) && i >= -1
    ensures Tail(p.leaf.keys, i) + RightOfPath(p.queue, p.index)
         == Start(cmp, Contents(root), lowestKey, inclusive, vague)
  {
    hide LowerBound, Flat, LeftOfPath, Focus, Sorted, TotalOrder, Contents, Shape, Levels;
    var info := FindPath(lowestKey, root, cmp, height);
    if info.None? {
      EmptyPath<K>(0);
      return Path([], [], Leaf([])), -1;
    }
    p := info.value;
    ghost var left, right := LeftOfPath(p.queue, p.index), RightOfPath(p.queue, p.index);
    LeafSorted(cmp, root, lowestKey, left, p.leaf, right);
    if p.leaf.keys == [] { EmptyLeaf(p); }
    i := StartIndex(p.leaf.keys, cmp, lowestKey, inclusive, vague);
    StartAt(cmp, Contents(root), lowestKey, inclusive, vague, left, p.leaf.keys, right);
  }

  /** Only a root leaf can be empty. */
  lemma EmptyLeaf<K>(p: Path<K>)
    requires PathIn(p) && p.leaf.keys == []
    ensures RightOfPath(p.queue, p.index) == []
  {
  }

  class AscendingIterator<K(!new)> {
    var nodeQueue: seq<seq<Tree<K>>>
    var nodeIndex: seq<int>
    var leaf: Tree<K>
    var i: int

    ghost predicate Valid()
      reads this
    {
      && Levels(nodeQueue, nodeIndex, 0) && (forall l :: 0 <= l < |nodeIndex| ==> nodeIndex[l] >= 0)
      && leaf.Leaf? && i >= -1
    }

    /** What is still to come. */
    ghost function Remaining(): seq<K>
      requires Valid()
      reads this
    {
      Tail(leaf.keys, i) + RightOfPath(nodeQueue, nodeIndex)
    }

    /**
     `valuesFrom`. When there is no start key, or it lies above every key of a root leaf, an exclusive start makes the code
     compare with a missing value; `vague` stands for whatever the comparator then says about equality.
     */
    constructor ValuesFrom(root: Tree<K>, cmp: (K, K) -> int, lowestKey: Option<K>, inclusive: bool, vague: bool,
                           ghost height: nat)
      requires TotalOrder(cmp) && Ordered(cmp, root, height)
      ensures Valid() && Remaining() == Start(cmp, Contents(root), lowestKey, inclusive, vague)
    {
      hide Start, LeftOfPath, RightOfPath, Contents, Shape, Sorted, TotalOrder;
      var p, at := StartAbove(lowestKey, root, cmp, inclusive, vague, height);
      nodeQueue, nodeIndex, leaf, i := p.queue, p.index, p.leaf, at;
    }

    lemma SameDepth()
      requires Valid()
      ensures |nodeQueue| == |nodeIndex|
    {
    }

    /** The next key, and one key less to come; after the last key, nothing, for ever. */
    method Next() returns (r: Option<K>)
      requires Valid()
      modifies this
      ensures Valid()
      ensures var s := old(Remaining());
        if s == [] then r == None && Remaining() == [] else r == Some(s[0]) && Remaining() == s[1..]
    {
      hide Levels, RightOfPath, Shape, Contents, Flat, Tail;
      while true
        invariant Valid() && Remaining() == old(Remaining())
        decreases if i + 1 < |leaf.keys| then 0 else 1
      {
        SameDepth();
        TailStep(leaf.keys, i, RightOfPath(nodeQueue, nodeIndex));
        i := i + 1;
        if i < |leaf.keys| {
          return Some(leaf.keys[i]);
        }
        var level := Climb();
        if level >= |nodeQueue| {
          return None;
        }
        Descend(level);
        WholeTail(leaf.keys);
      }
    }

    /** Up to the nearest level on which there is a next sibling. */
    method Climb() returns (level: nat)
      requires Valid()
      modifies this`nodeIndex
      ensures Valid() && level <= |nodeQueue| && |nodeIndex| == |nodeQueue|
      ensures level == |nodeQueue| ==> old(RightOfPath(nodeQueue, nodeIndex)) == [] == RightOfPath(nodeQueue, nodeIndex)
      ensures level < |nodeQueue| ==>
        && nodeIndex[level] < |nodeQueue[level]|
        && old(RightOfPath(nodeQueue, nodeIndex))
           == Contents(nodeQueue[level][nodeIndex[level]]) + RightOfPath(nodeQueue[level..], nodeIndex[level..])
    {
      hide RightOfPath, Flat, Contents;
      level := 0;
      assert nodeQueue[0..] == nodeQueue && nodeIndex[0..] == nodeIndex;
      while level < |nodeQueue|
        invariant Valid() && level <= |nodeQueue|
        invariant RightOfPath(nodeQueue[level..], nodeIndex[level..]) == old(RightOfPath(nodeQueue, nodeIndex))
        invariant forall l :: 0 <= l < level ==> nodeIndex[l] >= |nodeQueue[l]|
      {
        RightAbove(nodeQueue, nodeIndex, level);
        ghost var above := nodeIndex[level + 1..];
        nodeIndex := nodeIndex[level := nodeIndex[level] + 1];
        assert nodeIndex[level + 1..] == above;
        RightAbove(nodeQueue, nodeIndex, level);
        if nodeIndex[level] < |nodeQueue[level]| {
          FlatFrom(nodeQueue[level], nodeIndex[level]);
          Assoc3(Contents(nodeQueue[level][nodeIndex[level]]), Flat(nodeQueue[level][nodeIndex[level] + 1..]),
                 RightOfPath(nodeQueue[level + 1..], above));
          return;
        }
        if nodeIndex[level] == |nodeQueue[level]| { NoFlat(nodeQueue[level], nodeIndex[level]); }
        level := level + 1;
      }
      RightEnd(nodeQueue, nodeIndex, level);
      RightEnd(nodeQueue, nodeIndex, 0);
      assert nodeQueue[0..] == nodeQueue && nodeIndex[0..] == nodeIndex;
    }

    /** Down to the first leaf of the subtree that the path enters on this level. */
    method Descend(level: nat)
      requires Valid() && level < |nodeQueue| && nodeIndex[level] < |nodeQueue[level]|
      modifies this
      ensures Valid() && i == -1 && leaf.keys != [] && nodeQueue != []
      ensures leaf.keys + RightOfPath(nodeQueue, nodeIndex)
        == old(Contents(nodeQueue[level][nodeIndex[level]]) + RightOfPath(nodeQueue[level..], nodeIndex[level..]))
    {
      hide RightOfPath, Flat;
      var l := level;
      while l > 0
        invariant Valid() && 0 <= l < |nodeQueue| && nodeIndex[l] < |nodeQueue[l]|
        invariant Contents(nodeQueue[l][nodeIndex[l]]) + RightOfPath(nodeQueue[l..], nodeIndex[l..])
               == old(Contents(nodeQueue[level][nodeIndex[level]]) + RightOfPath(nodeQueue[level..], nodeIndex[level..]))
      {
        var children := nodeQueue[l][nodeIndex[l]].children;
        ghost var above, aboveIndex := nodeQueue[l..], nodeIndex[l..];
        nodeQueue, nodeIndex := nodeQueue[l - 1 := children], nodeIndex[l - 1 := 0];
        assert nodeQueue[l..] == above && nodeIndex[l..] == aboveIndex;
        RightAbove(nodeQueue, nodeIndex, l - 1);
        FlatFrom(children, 0);
        assert children[0..] == children;
        Assoc3(Contents(children[0]), Flat(children[1..]), RightOfPath(above, aboveIndex));
        l := l - 1;
      }
      leaf, i := nodeQueue[0][nodeIndex[0]], -1;
      assert nodeQueue[0..] == nodeQueue && nodeIndex[0..] == nodeIndex;
    }
  }

  lemma NoFlat<K>(ts: seq<Tree<K>>, i: nat)
    requires i == |ts|
    ensures Flat(ts[i..]) == []
  {
  }

  /** All levels are exhausted. */
  lemma {:induction false} RightEnd<K>(queue: seq<seq<Tree<K>>>, index: seq<int>, level: nat)
    requires |queue| == |index| && level <= |queue| && forall l :: level <= l < |queue| ==> index[l] >= |queue[l]|
    ensures RightOfPath(queue[level..], index[level..]) == []
    decreases |queue| - level
  {
    if level < |queue| {
      RightAbove(queue, index, level);
      RightEnd(queue, index, level + 1);
    }
  }

  // ----- descending

  lemma LeftAbove<K>(queue: seq<seq<Tree<K>>>, index: seq<int>, level: nat)
    requires |queue| == |index| && level < |queue|
    ensures LeftOfPath(queue[level..], index[level..])
         == LeftOfPath(queue[level + 1..], index[level + 1..])
            + (if 0 <= index[level] <= |queue[level]| then Flat(queue[level][..index[level]]) else [])
  {
    assert queue[level..][1..] == queue[level + 1..] && index[level..][1..] == index[level + 1..];
  }

  lemma {:induction false} LeftEnd<K>(queue: seq<seq<Tree<K>>>, index: seq<int>, level: nat)
    requires |queue| == |index| && level <= |queue| && forall l :: level <= l < |queue| ==> index[l] < 0
    ensures LeftOfPath(queue[level..], index[level..]) == []
    decreases |queue| - level
  {
    if level < |queue| {
      LeftAbove(queue, index, level);
      LeftEnd(queue, index, level + 1);
    }
  }

  /** What `valuesFromReversed` starts with, in ascending order. */
  function End<K>(cmp: (K, K) -> int, s: seq<K>, highest: Option<K>, inclusive: bool): seq<K> {
    match highest
    case Some(key) => UpTo(cmp, s, key, inclusive)
    case None => if inclusive || s == [] then s else s[..|s| - 1]
  }

  /** Which leaf and which index an iteration down from `key` starts with. */
  method StartBelow<K(!new)>(key: K, max: K, root: Tree<K>, cmp: (K, K) -> int, inclusive: bool, ghost height: nat)
    returns (p: Path<K>, i: nat)
    requires TotalOrder(cmp) && Ordered(cmp, root, height)
    requires root.keys != [] && max == BTreeModel.MaxKey(root)
    ensures PathIn(p) && i <= |p.leaf.keys|
    ensures LeftOfPath(p.queue, p.index) + p.leaf.keys[..i] == UpTo(cmp, Contents(root), key, inclusive)
  {
    hide LowerBound, Flat, LeftOfPath, RightOfPath, Levels, Contents, Shape, Sorted, TotalOrder, Focus;
    var info := FindPath(Some(key), root, cmp, height);
    ghost var above := info.None?;
    LastIsMax(root, height);
    if info.None? {
      info := FindPath(Some(max), root, cmp, height);
      MaxIsFound(cmp, Contents(root), max);
    }
    p := info.value;
    ghost var left, right := LeftOfPath(p.queue, p.index), RightOfPath(p.queue, p.index);
    LeafSorted(cmp, root, Some(if above then max else key), left, p.leaf, right);
    i := IndexOf(key, p.leaf.keys, 0, cmp);
    if above {
      AboveLast(cmp, Contents(root), key, max, left, p.leaf.keys, right);
    } else {
      FocusLowerBound(cmp, left, p.leaf.keys, right, key);
    }
    if inclusive && i < |p.leaf.keys| && cmp(p.leaf.keys[i], key) <= 0 {
      i := i + 1;
    }
    TakeInto(left, p.leaf.keys, right, i);
  }

  lemma TakeInto<A>(a: seq<A>, b: seq<A>, c: seq<A>, j: nat)
    requires j <= |b|
    ensures (a + b + c)[..|a| + j] == a + b[..j]
  {
  }

  lemma MaxIsFound<K(!new)>(cmp: (K, K) -> int, s: seq<K>, max: K)
    requires TotalOrder(cmp) && Sorted(cmp, s) && s != [] && s[|s| - 1] == max
    ensures LowerBound(cmp, s, max) == |s| - 1
  {
    assert AtMost(cmp, max, max);
    Flip(cmp, max, max);
    if |s| > 1 { assert Rises(cmp, s, |s| - 2, |s| - 1); }
    LowerBoundUnique(cmp, s, max, |s| - 1);
  }

  /** The path to the greatest key ends in the last leaf. */
  lemma AboveLast<K(!new)>(cmp: (K, K) -> int, s: seq<K>, key: K, max: K, left: seq<K>, mid: seq<K>, right: seq<K>)
    requires TotalOrder(cmp) && Focus(cmp, left, mid, right, max) && s == left + mid + right
    requires s != [] && s[|s| - 1] == max && LowerBound(cmp, s, key) == |s|
    ensures right == [] && LowerBound(cmp, mid, key) == |mid|
  {
    LastPart(cmp, s, max, left, mid, right);
    assert s == left + mid;
    SortedParts(cmp, left, mid);
    forall j | 0 <= j < |mid| ensures cmp(mid[j], key) < 0 { assert mid[j] == s[|left| + j]; }
    LowerBoundUnique(cmp, mid, key, |mid|);
  }

  lemma LastPart<K(!new)>(cmp: (K, K) -> int, s: seq<K>, max: K, left: seq<K>, mid: seq<K>, right: seq<K>)
    requires TotalOrder(cmp) && Focus(cmp, left, mid, right, max) && s == left + mid + right
    requires s != [] && s[|s| - 1] == max
    ensures right == []
  {
    hide Sorted;
    MaxIsFound(cmp, s, max);
    FocusLowerBound(cmp, left, mid, right, max);
    assert LowerBound(cmp, mid, max) == |mid| ==> right == [];
  }

  class DescendingIterator<K(!new)> {
    var nodeQueue: seq<seq<Tree<K>>>
    var nodeIndex: seq<int>
    var leaf: Tree<K>
    var i: int

    ghost predicate Valid()
      reads this
    {
      && Levels(nodeQueue, nodeIndex, 0) && (forall l :: 0 <= l < |nodeIndex| ==> nodeIndex[l] < |nodeQueue[l]|)
      && leaf.Leaf? && i <= |leaf.keys|
    }

    /** What is still to come, in ascending order. */
    ghost function Remaining(): seq<K>
      requires Valid()
      reads this
    {
      LeftOfPath(nodeQueue, nodeIndex) + if i >= 0 then leaf.keys[..i] else []
    }

    /** `valuesFromReversed` */
    constructor ValuesFromReversed(root: Tree<K>, cmp: (K, K) -> int, highestKey: Option<K>, inclusive: bool, ghost height: nat)
      requires TotalOrder(cmp) && Ordered(cmp, root, height)
      ensures Valid() && Remaining() == End(cmp, Contents(root), highestKey, inclusive)
    {
      hide LowerBound, Flat, LeftOfPath, Contents, Shape, Sorted, TotalOrder;
      LastIsMax(root, height);
      if root.keys == [] {
        nodeQueue, nodeIndex, leaf, i := [], [], Leaf([]), 0;
        Nothing<K>();
      } else {
        var max := BTreeModel.MaxKey(root);
        var key := if highestKey.None? then max else highestKey.value;
        MaxIsFound(cmp, Contents(root), max);
        var p, at := StartBelow(key, max, root, cmp, inclusive, height);
        nodeQueue, nodeIndex, leaf, i := p.queue, p.index, p.leaf, at;
        UpToMax(cmp, Contents(root), inclusive);
      }
    }

    /** The next key downwards, and one key less to come; after the last key, nothing, for ever. */
    method Next() returns (r: Option<K>)
      requires Valid()
      modifies this
      ensures Valid()
      ensures var s := old(Remaining()); var n := |s| - 1;
        if s == [] then r == None && Remaining() == [] else r == Some(s[n]) && Remaining() == s[..n]
    {
      hide Levels, LeftOfPath, Shape, Contents, Flat;
      while true
        invariant Valid() && Remaining() == old(Remaining())
        decreases if i > 0 then 0 else 1
      {
        i := i - 1;
        if i >= 0 {
          assert leaf.keys[..i + 1] == leaf.keys[..i] + [leaf.keys[i]];
          return Some(leaf.keys[i]);
        }
        var level := Climb();
        if level >= |nodeQueue| {
          return None;
        }
        Descend(level);
      }
    }

    /** Up to the nearest level on which there is a previous sibling. */
    method Climb() returns (level: nat)
      requires Valid()
      modifies this`nodeIndex
      ensures Valid() && level <= |nodeQueue| && |nodeIndex| == |nodeQueue|
      ensures level == |nodeQueue| ==> old(LeftOfPath(nodeQueue, nodeIndex)) == [] == LeftOfPath(nodeQueue, nodeIndex)
      ensures level < |nodeQueue| ==>
        && 0 <= nodeIndex[level]
        && old(LeftOfPath(nodeQueue, nodeIndex))
           == LeftOfPath(nodeQueue[level..], nodeIndex[level..]) + Contents(nodeQueue[level][nodeIndex[level]])
    {
      hide LeftOfPath, Flat, Contents;
      level := 0;
      assert nodeQueue[0..] == nodeQueue && nodeIndex[0..] == nodeIndex;
      while level < |nodeQueue|
        invariant Valid() && level <= |nodeQueue|
        invariant LeftOfPath(nodeQueue[level..], nodeIndex[level..]) == old(LeftOfPath(nodeQueue, nodeIndex))
        invariant forall l :: 0 <= l < level ==> nodeIndex[l] < 0
      {
        LeftAbove(nodeQueue, nodeIndex, level);
        ghost var above := nodeIndex[level + 1..];
        nodeIndex := nodeIndex[level := nodeIndex[level] - 1];
        assert nodeIndex[level + 1..] == above;
        LeftAbove(nodeQueue, nodeIndex, level);
        if nodeIndex[level] >= 0 {
          FlatUpTo(nodeQueue[level], nodeIndex[level]);
          Assoc3(LeftOfPath(nodeQueue[level + 1..], above), Flat(nodeQueue[level][..nodeIndex[level]]),
                 Contents(nodeQueue[level][nodeIndex[level]]));
          return;
        }
        if nodeIndex[level] == -1 { NoFlatUpTo(nodeQueue[level]); }
        level := level + 1;
      }
      LeftEnd(nodeQueue, nodeIndex, level);
      LeftEnd(nodeQueue, nodeIndex, 0);
      assert nodeQueue[0..] == nodeQueue && nodeIndex[0..] == nodeIndex;
    }

    /** Down to the last leaf of the subtree that the path enters on this level. */
    method Descend(level: nat)
      requires Valid() && level < |nodeQueue| && nodeIndex[level] >= 0
      modifies this
      ensures Valid() && leaf.keys != [] && i == |leaf.keys| && nodeQueue != []
      ensures LeftOfPath(nodeQueue, nodeIndex) + leaf.keys
        == old(LeftOfPath(nodeQueue[level..], nodeIndex[level..]) + Contents(nodeQueue[level][nodeIndex[level]]))
    {
      hide LeftOfPath, Flat;
      var l := level;
      while l > 0
        invariant Valid() && 0 <= l < |nodeQueue| && nodeIndex[l] >= 0
        invariant LeftOfPath(nodeQueue[l..], nodeIndex[l..]) + Contents(nodeQueue[l][nodeIndex[l]])
               == old(LeftOfPath(nodeQueue[level..], nodeIndex[level..]) + Contents(nodeQueue[level][nodeIndex[level]]))
      {
        var children := nodeQueue[l][nodeIndex[l]].children;
        ghost var above, aboveIndex := nodeQueue[l..], nodeIndex[l..];
        nodeQueue, nodeIndex := nodeQueue[l - 1 := children], nodeIndex[l - 1 := |children| - 1];
        assert nodeQueue[l..] == above && nodeIndex[l..] == aboveIndex;
        LeftAbove(nodeQueue, nodeIndex, l - 1);
        FlatUpTo(children, |children| - 1);
        assert children[..|children|] == children;
        Assoc3(LeftOfPath(above, aboveIndex), Flat(children[..|children| - 1]), Contents(children[|children| - 1]));
        l := l - 1;
      }
      leaf := nodeQueue[0][nodeIndex[0]];
      i := |leaf.keys|;
      assert nodeQueue[0..] == nodeQueue && nodeIndex[0..] == nodeIndex;
    }
  }

  lemma NoFlatUpTo<K>(ts: seq<Tree<K>>)
    ensures Flat(ts[..0]) == []
  {
  }

  lemma Nothing<K>()
    ensures LeftOfPath<K>([], []) == []
  {
  }

  /** Without a key, the greatest key is used. */
  lemma UpToMax<K(!new)>(cmp: (K, K) -> int, s: seq<K>, inclusive: bool)
    requires TotalOrder(cmp) && Sorted(cmp, s) && s != []
    ensures UpTo(cmp, s, s[|s| - 1], inclusive) == if inclusive then s else s[..|s| - 1]
  {
    var max := s[|s| - 1];
    MaxIsFound(cmp, s, max);
    assert AtMost(cmp, max, max);
    Flip(cmp, max, max);
    assert s[..|s|] == s;
  }

  // ----- whole iterations

  /** Running an iterator to its end visits every key from the start on, once, in order. */
  method Collect<K(!new)>(root: Tree<K>, cmp: (K, K) -> int, lowestKey: Option<K>, ghost height: nat) returns (s: seq<K>)
    requires TotalOrder(cmp) && Ordered(cmp, root, height)
    ensures s == Start(cmp, Contents(root), lowestKey, true, false)
  {
    hide Contents, Start, TotalOrder, RightOfPath, Tail, Levels, Ordered;
    var it := new AscendingIterator.ValuesFrom(root, cmp, lowestKey, true, false, height);
    ghost var all := it.Remaining();
    s := [];
    while true
      invariant it.Valid() && fresh(it) && all == s + it.Remaining()
      decreases |it.Remaining()|
    {
      ghost var rest := it.Remaining();
      var next := it.Next();
      if next.None? {
        assert s + [] == s;
        return;
      }
      assert rest == [next.value] + it.Remaining();
      Assoc3(s, [next.value], it.Remaining());
      s := s + [next.value];
    }
  }
}
