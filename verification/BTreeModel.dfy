/**
 The B+ tree's algorithms as functions on immutable trees: what one node's `set`, `delete`, shift, split and merge
 compute. BTreeHeap proves that the in-place methods on shared, mutable nodes compute exactly these functions;
 BTreeRefinement proves that these functions are the operations of a sorted set.
 */
module BTreeModel {
  import opened Wrappers
  import opened SortedSet

  const MAX_NODE_SIZE: nat := 32

  /** In an inner node, keys[i] caches the greatest key below children[i]. */
  datatype Tree<+K> = Leaf(keys: seq<K>) | Inner(keys: seq<K>, children: seq<Tree<K>>)

  function MaxKey<K>(t: Tree<K>): K
    requires t.keys != []
  {
    t.keys[|t.keys| - 1]
  }

  /** All leaves at the same depth, at most 32 entries per node, no empty node below the top, exact key caches. */
  ghost predicate Shape<K>(t: Tree<K>, height: nat)
    decreases height
  {
    && |t.keys| <= MAX_NODE_SIZE
    && if t.Leaf? then height == 0 else
         && height > 0
         && |t.keys| == |t.children|
         && forall i :: 0 <= i < |t.children| ==>
              Shape(t.children[i], height - 1) && t.children[i].keys != [] && t.keys[i] == MaxKey(t.children[i])
  }

  /** The children and cached keys of an inner node, whatever their number. */
  ghost predicate Slots<K>(keys: seq<K>, children: seq<Tree<K>>, height: nat) {
    && |keys| == |children|
    && forall i :: 0 <= i < |children| ==>
         Shape(children[i], height) && children[i].keys != [] && keys[i] == MaxKey(children[i])
  }

  // ----- shifting, splitting, merging

  /** `lhs.takeFromRight(rhs)`: the first entry of `rhs` becomes the last entry of `lhs`. */
  function TakeFromRight<K>(lhs: Tree<K>, rhs: Tree<K>, height: nat): (r: (Tree<K>, Tree<K>))
    requires Shape(lhs, height) && Shape(rhs, height) && |lhs.keys| < MAX_NODE_SIZE && rhs.keys != []
    ensures Shape(r.0, height) && Shape(r.1, height) && r.0.keys != [] && r.1.keys == rhs.keys[1..]
    ensures MaxKey(r.0) == rhs.keys[0]
  {
    if lhs.Leaf? then
      (Leaf(lhs.keys + [rhs.keys[0]]), Leaf(rhs.keys[1..]))
    else
      (Inner(lhs.keys + [rhs.keys[0]], lhs.children + [rhs.children[0]]), Inner(rhs.keys[1..], rhs.children[1..]))
  }

  /** `rhs.takeFromLeft(lhs)`: the last entry of `lhs` becomes the first entry of `rhs`. */
  function TakeFromLeft<K>(lhs: Tree<K>, rhs: Tree<K>, height: nat): (r: (Tree<K>, Tree<K>))
    requires Shape(lhs, height) && Shape(rhs, height) && |rhs.keys| < MAX_NODE_SIZE && lhs.keys != []
    ensures Shape(r.0, height) && Shape(r.1, height) && r.0.keys == lhs.keys[..|lhs.keys| - 1]
    ensures r.1.keys == [MaxKey(lhs)] + rhs.keys
  {
    var n := |lhs.keys| - 1;
    if lhs.Leaf? then
      (Leaf(lhs.keys[..n]), Leaf([lhs.keys[n]] + rhs.keys))
    else
      (Inner(lhs.keys[..n], lhs.children[..n]), Inner([lhs.keys[n]] + rhs.keys, [lhs.children[n]] + rhs.children))
  }

  /** One entry moves from child `i + 1` to child `i`. */
  function ShiftLeft<K>(t: Tree<K>, i: nat, height: nat): (r: Tree<K>)
    requires Shape(t, height) && t.Inner? && i + 1 < |t.children|
    requires |t.children[i].keys| < MAX_NODE_SIZE && |t.children[i + 1].keys| > 1
    ensures Shape(r, height) && r.Inner? && |r.keys| == |t.keys|
  {
    var (a, b) := TakeFromRight(t.children[i], t.children[i + 1], height - 1);
    Inner(t.keys[i := MaxKey(a)], t.children[i := a][i + 1 := b])
  }

  /** One entry moves from child `i` to child `i + 1`. */
  function ShiftRight<K>(t: Tree<K>, i: nat, height: nat): (r: Tree<K>)
    requires Shape(t, height) && t.Inner? && i + 1 < |t.children|
    requires |t.children[i + 1].keys| < MAX_NODE_SIZE && |t.children[i].keys| > 1
    ensures Shape(r, height) && r.Inner? && |r.keys| == |t.keys|
  {
    var (a, b) := TakeFromLeft(t.children[i], t.children[i + 1], height - 1);
    Inner(t.keys[i := MaxKey(a)], t.children[i := a][i + 1 := b])
  }

  /** Before descending into a full child: move one entry to a sibling when the key still belongs to the child. */
  function MakeRoom<K>(cmp: (K, K) -> int, t: Tree<K>, i: nat, key: K, height: nat): (r: Tree<K>)
    requires Shape(t, height) && t.Inner? && i < |t.children|
    ensures Shape(r, height) && r.Inner? && |r.keys| == |t.keys|
  {
    var child := t.children[i];
    if |child.keys| < MAX_NODE_SIZE then
      t
    else if i > 0 && |t.children[i - 1].keys| < MAX_NODE_SIZE && cmp(child.keys[0], key) < 0 then
      ShiftLeft(t, i - 1, height)
    else if i + 1 < |t.children| && |t.children[i + 1].keys| < MAX_NODE_SIZE && cmp(MaxKey(child), key) < 0 then
      ShiftRight(t, i, height)
    else
      t
  }

  /** Where a JavaScript `splice` at index `i` of an array of length `n` takes effect. */
  function SpliceIndex(i: int, n: nat): (r: nat)
    ensures r <= n
  {
    if i < 0 then (if n + i < 0 then 0 else n + i) else if i > n then n else i
  }

  function InsertChild<K>(t: Tree<K>, i: int, child: Tree<K>, height: nat): (r: Tree<K>)
    requires Shape(t, height) && t.Inner? && |t.keys| < MAX_NODE_SIZE
    requires Shape(child, height - 1) && child.keys != []
    ensures Shape(r, height) && r.keys != []
  {
    var at := SpliceIndex(i, |t.keys|);
    Inner(Splice(t.keys, at, 0, [MaxKey(child)]), Splice(t.children, at, 0, [child]))
  }

  /** `splitOffRightSide`: the left half stays, the right half becomes a new node. */
  function Split<K>(t: Tree<K>, height: nat): (r: (Tree<K>, Tree<K>))
    requires Shape(t, height) && |t.keys| == MAX_NODE_SIZE
    ensures Shape(r.0, height) && Shape(r.1, height) && r.0.Leaf? == r.1.Leaf? == t.Leaf?
    ensures r.0.keys == t.keys[..MAX_NODE_SIZE / 2] && r.1.keys == t.keys[MAX_NODE_SIZE / 2..]
  {
    var half := |t.keys| / 2;
    if t.Leaf? then
      (Leaf(t.keys[..half]), Leaf(t.keys[half..]))
    else
      (Inner(t.keys[..half], t.children[..half]), Inner(t.keys[half..], t.children[half..]))
  }

  /** Merges child `i` with its right sibling when both fit into one node. */
  function TryMerge<K>(t: Tree<K>, i: nat, height: nat): (r: Tree<K>)
    requires t.Inner? && height > 0 && Slots(t.keys, t.children, height - 1) && i < |t.keys|
    ensures r.Inner? && Slots(r.keys, r.children, height - 1) && 0 < |r.keys| <= |t.keys|
    ensures MaxKey(r) == MaxKey(t)
    decreases height, 0
  {
    if i + 1 < |t.children| && |t.children[i].keys| + |t.children[i + 1].keys| <= MAX_NODE_SIZE then
      var merged := MergeSibling(t.children[i], t.children[i + 1], height - 1);
      Inner(Splice(t.keys, i, 2, [MaxKey(merged)]), Splice(t.children, i, 2, [merged]))
    else
      t
  }

  /** `lhs.mergeSibling(rhs)`: append, then merge the two children that became neighbours. */
  function MergeSibling<K>(lhs: Tree<K>, rhs: Tree<K>, height: nat): (r: Tree<K>)
    requires Shape(lhs, height) && Shape(rhs, height) && lhs.keys != [] && rhs.keys != []
    requires |lhs.keys| + |rhs.keys| <= MAX_NODE_SIZE
    ensures Shape(r, height) && r.keys != [] && MaxKey(r) == MaxKey(rhs)
    decreases height, 1
  {
    if lhs.Leaf? then
      Leaf(lhs.keys + rhs.keys)
    else
      TryMerge(Inner(lhs.keys + rhs.keys, lhs.children + rhs.children), |lhs.keys| - 1, height)
  }

  // ----- set

  /** What `set` leaves in the node, the new right sibling if the node split, and whether the key is new. */
  datatype SetResult<+K> = SetResult(node: Tree<K>, right: Option<Tree<K>>, added: bool)

  ghost predicate SetShape<K>(r: SetResult<K>, height: nat) {
    && Shape(r.node, height) && r.node.keys != []
    && (r.right.Some? ==> Shape(r.right.value, height) && r.right.value.keys != [])
  }

  function Min(a: nat, b: nat): nat { if a <= b then a else b }

  function SetLeaf<K>(cmp: (K, K) -> int, t: Tree<K>, key: K): (r: SetResult<K>)
    requires Shape(t, 0)
    ensures SetShape(r, 0) && r.node.Leaf?
  {
    var i := LowerBound(cmp, t.keys, key);
    if Found(cmp, t.keys, key) then
      SetResult(Leaf(Splice(t.keys, i, 1, [key])), None, false)
    else if |t.keys| < MAX_NODE_SIZE then
      SetResult(Leaf(Splice(t.keys, i, 0, [key])), None, true)
    else
      var (left, right) := Split(t, 0);
      if i > |left.keys| then
        SetResult(left, Some(Leaf(Splice(right.keys, i - |left.keys|, 0, [key]))), true)
      else
        SetResult(Leaf(Splice(left.keys, i, 0, [key])), Some(right), true)
  }

  /** The child the key belongs to: the first whose greatest key is not below it, or the last one. */
  function ChildIndex<K>(cmp: (K, K) -> int, t: Tree<K>, key: K): (i: nat)
    requires t.keys != []
    ensures i < |t.keys|
  {
    Min(LowerBound(cmp, t.keys, key), |t.keys| - 1)
  }

  function SetNode<K>(cmp: (K, K) -> int, t: Tree<K>, key: K, height: nat): (r: SetResult<K>)
    requires Shape(t, height) && (t.Inner? ==> t.keys != [])
    ensures SetShape(r, height) && (r.right.None? && t.Inner? ==> r.node.Inner? && |t.keys| <= |r.node.keys|)
    ensures t.Leaf? ==> r.node.Leaf?
    decreases height
  {
    if t.Leaf? then
      SetLeaf(cmp, t, key)
    else
      var i := ChildIndex(cmp, t, key);
      var roomy := MakeRoom(cmp, t, i, key, height);
      SetAbove(cmp, roomy, i, SetNode(cmp, roomy.children[i], key, height - 1), height)
  }

  /** Child `i` replaced, with its cached key. */
  function Fill<K>(t: Tree<K>, i: nat, child: Tree<K>, height: nat): (r: Tree<K>)
    requires Shape(t, height) && t.Inner? && i < |t.keys| && Shape(child, height - 1) && child.keys != []
    ensures Shape(r, height) && r.Inner? && |r.keys| == |t.keys|
  {
    Inner(t.keys[i := MaxKey(child)], t.children[i := child])
  }

  /** The rest of `set` in an inner node, once child `i` has been dealt with. */
  function SetAbove<K>(cmp: (K, K) -> int, t: Tree<K>, i: nat, below: SetResult<K>, height: nat): (r: SetResult<K>)
    requires Shape(t, height) && t.Inner? && i < |t.keys| && SetShape(below, height - 1)
    ensures SetShape(r, height) && r.added == below.added
    ensures r.right.None? ==> r.node.Inner? && |t.keys| <= |r.node.keys|
  {
    var grown := Fill(t, i, below.node, height);
    match below.right
    case None => SetResult(grown, None, below.added)
    case Some(right) => AdoptSplit(cmp, grown, i, right, below.added, height)
  }

  /** A child has split: put its new right sibling next to it, splitting this node too when it is full. */
  function AdoptSplit<K>(cmp: (K, K) -> int, t: Tree<K>, i: nat, right: Tree<K>, added: bool, height: nat)
    : (r: SetResult<K>)
    requires Shape(t, height) && t.Inner? && i < |t.keys|
    requires Shape(right, height - 1) && right.keys != []
    ensures SetShape(r, height) && r.added == added
    ensures r.right.None? ==> r.node.Inner? && |t.keys| <= |r.node.keys|
  {
    if |t.keys| < MAX_NODE_SIZE then
      SetResult(InsertChild(t, i + 1, right, height), None, added)
    else
      var (left, sibling) := Split(t, height);
      if cmp(MaxKey(right), MaxKey(left)) > 0 then
        SetResult(left, Some(InsertChild(sibling, i - |left.keys| + 1, right, height)), added)
      else
        SetResult(InsertChild(left, i + 1, right, height), Some(sibling), added)
  }

  // ----- delete

  /** An inner node one of whose children may have become empty. */
  ghost predicate Dented<K>(t: Tree<K>, i: nat, height: nat) {
    && t.Inner? && height > 0 && |t.keys| == |t.children| <= MAX_NODE_SIZE && i < |t.children|
    && Shape(t.children[i], height - 1)
    && (t.children[i].keys != [] ==> t.keys[i] == MaxKey(t.children[i]))
    && forall j :: 0 <= j < |t.children| && j != i ==>
         Shape(t.children[j], height - 1) && t.children[j].keys != [] && t.keys[j] == MaxKey(t.children[j])
  }

  /** One step of the clean-up scan: merge child `i` when it is at most half full, drop it when it is empty. */
  function MergeStep<K>(t: Tree<K>, i: nat, height: nat): (r: Tree<K>)
    requires Dented(t, i, height)
    ensures Shape(r, height) && r.Inner? && |t.keys| - 1 <= |r.keys| <= |t.keys|
    ensures t.children[i].keys != [] ==> r.keys != []
  {
    if |t.children[i].keys| > MAX_NODE_SIZE / 2 then t
    else if t.children[i].keys != [] then TryMerge(t, i, height)
    else Inner(Splice(t.keys, i, 1, []), Splice(t.children, i, 1, []))
  }

  /** The scan over the child that was descended into and its left sibling, right to left. */
  function CleanUp<K>(t: Tree<K>, i: nat, height: nat): (r: Tree<K>)
    requires Dented(t, i, height)
    ensures Shape(r, height) && r.Inner?
  {
    var r := MergeStep(t, i, height);
    if i > 0 then MergeStep(r, i - 1, height) else r
  }

  function DeleteNode<K>(cmp: (K, K) -> int, t: Tree<K>, key: K, height: nat): (r: (Tree<K>, bool))
    requires Shape(t, height)
    ensures Shape(r.0, height) && r.0.Leaf? == t.Leaf?
    decreases height
  {
    var i := LowerBound(cmp, t.keys, key);
    if t.Leaf? then
      if Found(cmp, t.keys, key) then (Leaf(Splice(t.keys, i, 1, [])), true) else (t, false)
    else if i >= |t.keys| then
      (t, false)
    else
      var (child, found) := DeleteNode(cmp, t.children[i], key, height - 1);
      (CleanUp(Dent(t, i, child, height), i, height), found)
  }

  /** Child `i` replaced; the key cache follows unless the child is empty and about to be removed. */
  function Dent<K>(t: Tree<K>, i: nat, child: Tree<K>, height: nat): (r: Tree<K>)
    requires Shape(t, height) && t.Inner? && i < |t.children| && Shape(child, height - 1)
    ensures Dented(r, i, height)
  {
    Inner(if child.keys == [] then t.keys else t.keys[i := MaxKey(child)], t.children[i := child])
  }

  // ----- the tree as a whole

  /** The shape of a whole tree: an inner root has at least two children. */
  ghost predicate RootShape<K>(t: Tree<K>, height: nat) {
    Shape(t, height) && (t.Inner? ==> |t.keys| >= 2)
  }

  /** `add`: the new root, its height, and whether `size` grows. */
  function SetRoot<K>(cmp: (K, K) -> int, root: Tree<K>, key: K, height: nat): (r: (Tree<K>, nat, bool))
    requires RootShape(root, height)
    ensures RootShape(r.0, r.1)
  {
    hide SetNode;
    var s := SetNode(cmp, root, key, height);
    match s.right
    case None => (s.node, height, s.added)
    case Some(right) => (NewRoot(s.node, right, height), height + 1, s.added)
  }

  function NewRoot<K>(left: Tree<K>, right: Tree<K>, height: nat): (r: Tree<K>)
    requires Shape(left, height) && left.keys != [] && Shape(right, height) && right.keys != []
    ensures RootShape(r, height + 1)
  {
    Inner([MaxKey(left), MaxKey(right)], [left, right])
  }

  /** While the root is an inner node with at most one child, the child takes its place. */
  function Collapse<K>(t: Tree<K>, height: nat): (r: (Tree<K>, nat))
    requires Shape(t, height)
    ensures RootShape(r.0, r.1) && r.1 <= height
    decreases height
  {
    if t.Leaf? || |t.keys| > 1 then (t, height)
    else if t.keys == [] then (Leaf([]), 0)
    else Collapse(t.children[0], height - 1)
  }

  function DeleteRoot<K>(cmp: (K, K) -> int, root: Tree<K>, key: K, height: nat): (r: (Tree<K>, nat, bool))
    requires RootShape(root, height)
    ensures RootShape(r.0, r.1)
  {
    var d := DeleteNode(cmp, root, key, height);
    var c := Collapse(d.0, height);
    (c.0, c.1, d.1)
  }

  function Get<K>(cmp: (K, K) -> int, t: Tree<K>, key: K, height: nat): Option<K>
    requires Shape(t, height)
    decreases height
  {
    var i := LowerBound(cmp, t.keys, key);
    if t.Leaf? then
      if Found(cmp, t.keys, key) then Some(t.keys[i]) else None
    else
      if i < |t.children| then Get(cmp, t.children[i], key, height - 1) else None
  }
}
