/**
 The B+ tree as it is stored: nodes whose `keys` and `children` are changed in place, shared between clones of a set
 until they are about to be changed. Every method is proved to compute its function of BTreeModel, to change only
 nodes that its own tree does not share, and to leave every other node's tree as it was.
 */
module BTreeHeap {
  import opened Wrappers
  import opened SortedSet
  import opened BTreeModel
  import opened BTreeRefinement

  datatype Change<K> = Addition(key: K) | Deletion(key: K) | Clearing

  ghost function Changed<K>(cmp: (K, K) -> int, s: seq<K>, change: Change<K>): seq<K> {
    match change
    case Addition(key) => Insert(cmp, s, key)
    case Deletion(key) => Remove(cmp, s, key)
    case Clearing => []
  }

  /** A sorted sequence after some changes. */
  ghost function After<K>(cmp: (K, K) -> int, s: seq<K>, changes: seq<Change<K>>): seq<K> {
    if changes == [] then s else
      var n := |changes| - 1;
      Changed(cmp, After(cmp, s, changes[..n]), changes[n])
  }

  /** The changes made to one of two sets. */
  ghost function Part<K>(steps: seq<(bool, Change<K>)>, who: bool): seq<Change<K>> {
    if steps == [] then [] else
      var n := |steps| - 1;
      Part(steps[..n], who) + if steps[n].0 == who then [steps[n].1] else []
  }

  /** One more step changes one of the two sets. */
  lemma RunStep<K>(cmp: (K, K) -> int, s: seq<K>, steps: seq<(bool, Change<K>)>, i: nat)
    requires i < |steps|
    ensures var (who, change) := steps[i];
      && After(cmp, s, Part(steps[..i + 1], who)) == Changed(cmp, After(cmp, s, Part(steps[..i], who)), change)
      && After(cmp, s, Part(steps[..i + 1], !who)) == After(cmp, s, Part(steps[..i], !who))
  {
    hide Changed;
    var (who, change) := steps[i];
    var was := Part(steps[..i], who);
    assert steps[..i + 1][..i] == steps[..i];
    assert Part(steps[..i + 1], who) == was + [change];
    assert (was + [change])[..|was|] == was;
    assert Part(steps[..i + 1], !who) == Part(steps[..i], !who);
  }

  lemma RunStart<K>(cmp: (K, K) -> int, s: seq<K>)
    ensures After(cmp, s, Part([], true)) == After(cmp, s, Part([], false)) == s
  {
  }

  /** What all sets of one element type have in common: the empty leaf, and all nodes that nobody may change any more. */
  class Forest<K(!new)> {
    const emptyLeaf: Node<K>
    ghost var frozen: set<Node<K>>
    ghost var trees: set<BTreeSet<K>>

    constructor ()
      ensures Valid() && trees == {} && fresh(emptyLeaf) && frozen == {emptyLeaf}
    {
      var leaf := new Node.Leaf([]);
      leaf.isShared := true;
      emptyLeaf, frozen, trees := leaf, {leaf}, {};
    }

    ghost predicate Valid()
      reads this, frozen, trees, set t | t in trees :: t.root, set t, n | t in trees && n in t.root.own :: n
    {
      && Frozen(frozen) && emptyLeaf in frozen && emptyLeaf.isShared
      && emptyLeaf.view == Tree.Leaf([]) && emptyLeaf.height == 0
      && (forall t :: t in trees ==> t.forest == this && t.Holds(frozen))
      && (forall t, u :: t in trees && u in trees && t != u ==> OwnOf(t.root) !! OwnOf(u.root))
    }

    lemma Apart(t: BTreeSet<K>)
      requires Valid() && t in trees
      ensures t.Holds(frozen) && Frozen(frozen) && t.EmptyLeafIn(frozen) && t.root in frozen + OwnOf(t.root)
      ensures forall u :: u in trees ==> OwnOf(u.root) !! frozen && (u != t ==> OwnOf(u.root) !! OwnOf(t.root))
    {
      hide Ordered, Contents, Shape;
    }

    /** Mark the root of `t`: what `t` owned is frozen from now on. */
    method Share(t: BTreeSet<K>)
      requires Valid() && t in trees
      modifies t.root`isShared, this`frozen
      ensures Valid() && t.root.isShared && frozen == old(frozen + OwnOf(t.root))
      ensures forall u :: u in trees ==> u.Elements() == old(u.Elements())
      ensures forall u :: u in trees && u != t ==> OwnOf(u.root) == old(OwnOf(u.root))
    {
      hide Ordered, Contents, Node.Valid, Frozen;
      Apart(t);
      ghost var base' := frozen + OwnOf(t.root);
      forall u | u in trees && u != t ensures u.Holds(base') {
        if !u.root.isShared { ValidMore(u.root, frozen, OwnOf(t.root)); }
      }
      FreezeAll(t.root, frozen);
      if !t.root.isShared { t.root.Opened(frozen); }
      t.root.Mark(base');
      frozen := base';
      forall u | u in trees && u != t
        ensures u.Holds(base') && OwnOf(u.root) == old(OwnOf(u.root)) && u.Elements() == old(u.Elements())
      {
        SteadyTree(u, base');
      }
    }

    /** Every set but `t` has the elements and the size it had before. */
    twostate predicate OthersKept(t: BTreeSet<K>)
      reads this, trees, set u | u in trees :: u.root
    {
      forall u :: u in old(trees) && u != t ==>
        u in trees && u.Elements() == old(u.Elements()) && u.size == old(u.size) && OwnOf(u.root) == old(OwnOf(u.root))
    }

    /** A set whose fields and owned nodes were left alone is as it was. */
    twostate lemma SteadyTree(new t: BTreeSet<K>, new base: set<Node<K>>)
      requires old(allocated(t)) && old(allocated(base))
      requires old(t.Holds(base)) && unchanged(t) && Intact(old(OwnOf(t.root))) && Grown(base) && Kept(base)
      ensures t.Holds(base) && OwnOf(t.root) == old(OwnOf(t.root)) && t.Elements() == old(t.Elements())
    {
      if !old(t.root.isShared) { SteadyNode(t.root, base); }
    }

    /** Work on one set leaves the others alone, although they share nodes with it. */
    twostate lemma StillValid(new t: BTreeSet<K>)
      requires old(allocated(this)) && old(allocated(t)) && old(Valid()) && t in trees && unchanged(this)
      requires t.Holds(frozen) && Frozen(frozen) && Grown(frozen) && Kept(frozen)
      requires forall m :: m in OwnOf(t.root) ==> m in old(OwnOf(t.root)) || !old(allocated(m))
      requires forall u :: u in trees && u != t ==> unchanged(u) && Intact(old(OwnOf(u.root)))
      ensures Valid() && OthersKept(t)
    {
      hide Frozen, Ordered, Contents, Node.Valid;
      forall u | u in trees && u != t
        ensures u.Holds(frozen) && OwnOf(u.root) == old(OwnOf(u.root)) && u.Elements() == old(u.Elements())
      {
        SteadyTree(u, frozen);
      }
    }
  }

  class BTreeSet<K(!new)> {
    var root: Node<K>
    var size: int
    const comparator: (K, K) -> int
    const forest: Forest<K>

    /** The elements, in order. */
    ghost function Elements(): seq<K>
      reads this, root
    {
      Contents(root.view)
    }

    /** The root is shared and frozen, or owned; the tree is balanced and ordered, and `size` is the number of elements. */
    ghost predicate Holds(base: set<Node<K>>)
      reads this, root, root.own, base
    {
      && TotalOrder(comparator)
      && (if root.isShared then root in base else root.Valid(base))
      && Ordered(comparator, root.view, root.height)
      && size == |Contents(root.view)|
    }

    constructor (comparator: (K, K) -> int, forest: Forest<K>)
      requires TotalOrder(comparator) && forest.Valid()
      modifies forest`trees
      ensures this.comparator == comparator && this.forest == forest && fresh(this)
      ensures forest.Valid() && forest.trees == old(forest.trees) + {this} && Elements() == []
    {
      hide Node.Valid, Frozen;
      this.comparator, this.forest, root, size := comparator, forest, forest.emptyLeaf, 0;
      new;
      forest.trees := forest.trees + {this};
    }

    /** `add`: insertion into this set; every other set, whether or not it shares nodes with this one, stays as it is. */
    method Add(key: K)
      requires forest.Valid() && this in forest.trees
      modifies this`root, this`size, OwnOf(root), forest.frozen`isShared
      ensures forest.Valid() && Elements() == Insert(comparator, old(Elements()), key)
      ensures forest.OthersKept(this) && fresh(OwnOf(root) - old(OwnOf(root)))
    {
      hide Frozen, Ordered, Contents, Insert, Node.Valid;
      forest.Apart(this);
      Put(key, forest.frozen);
      forest.StillValid(this);
    }

    /** `delete`: removal from this set alone. */
    method Delete(key: K) returns (found: bool)
      requires forest.Valid() && this in forest.trees
      modifies this`root, this`size, OwnOf(root), forest.frozen`isShared
      ensures forest.Valid() && Elements() == Remove(comparator, old(Elements()), key)
      ensures found == Found(comparator, old(Elements()), key)
      ensures forest.OthersKept(this) && fresh(OwnOf(root) - old(OwnOf(root)))
    {
      hide Frozen, Ordered, Contents, Remove, Node.Valid;
      forest.Apart(this);
      found := Take(key, forest.frozen);
      forest.StillValid(this);
    }

    /** `clear` */
    method Clear()
      requires forest.Valid() && this in forest.trees
      modifies this`root, this`size
      ensures forest.Valid() && Elements() == [] && size == 0 && OwnOf(root) == {} && forest.OthersKept(this)
    {
      hide Node.Valid;
      forest.Apart(this);
      root, size := forest.emptyLeaf, 0;
      forest.StillValid(this);
    }

    /** `clone`, in constant time: the two sets share all nodes from now on, and neither owns any of them. */
    method Clone() returns (r: BTreeSet<K>)
      requires forest.Valid() && this in forest.trees
      modifies root`isShared, forest
      ensures forest.Valid() && fresh(r) && forest.trees == old(forest.trees) + {r}
      ensures r.comparator == comparator && r.forest == forest
      ensures r.Elements() == old(Elements()) && r.size == size
      ensures OwnOf(root) == OwnOf(r.root) == {} && forest.frozen == old(forest.frozen + OwnOf(root))
      ensures Elements() == old(Elements()) && forest.OthersKept(this)
    {
      hide Node.Valid, Frozen, Ordered, Contents;
      forest.Share(this);
      r := new BTreeSet(comparator, forest);
      r.root, r.size := root, size;
    }

    /** `get` finds the element that compares as equal to the key. */
    method Get(key: K) returns (r: Option<K>)
      requires forest.Valid() && this in forest.trees
      ensures var s := Elements();
        r == if Found(comparator, s, key) then Some(s[LowerBound(comparator, s, key)]) else None
      ensures r.Some? <==> exists x :: x in Elements() && comparator(x, key) == 0
      ensures r.Some? ==> r.value in Elements() && comparator(r.value, key) == 0
    {
      hide Frozen, Contents, Node.Valid, LowerBound;
      forest.Apart(this);
      FoundMeansPresent(comparator, Elements(), key);
      r := root.Get(key, this, forest.frozen);
      GetRefines(comparator, root.view, key, root.height);
    }

    method Has(key: K) returns (r: bool)
      requires forest.Valid() && this in forest.trees
      ensures r <==> exists x :: x in Elements() && comparator(x, key) == 0
    {
      hide Frozen, Contents, Node.Valid, LowerBound;
      forest.Apart(this);
      FoundMeansPresent(comparator, Elements(), key);
      r := root.Has(key, this, forest.frozen);
      GetRefines(comparator, root.view, key, root.height);
    }

    method Apply(change: Change<K>)
      requires forest.Valid() && this in forest.trees
      modifies this`root, this`size, OwnOf(root), forest.frozen`isShared
      ensures forest.Valid() && Elements() == Changed(comparator, old(Elements()), change)
      ensures forest.OthersKept(this) && fresh(OwnOf(root) - old(OwnOf(root)))
    {
      match change {
        case Addition(key) => Add(key);
        case Deletion(key) => var _ := Delete(key);
        case Clearing => Clear();
      }
    }

    /**
     Isolation of clones over whole runs: after `clone`, the two sets are changed in any order, any number of times. Each
     ends up with the common elements changed by its own changes only, and every third set is as it was.
     */
    method CloneThenRun(steps: seq<(bool, Change<K>)>) returns (r: BTreeSet<K>)
      requires forest.Valid() && this in forest.trees
      modifies this`root, this`size, forest, (forest.frozen + OwnOf(root))`isShared
      ensures forest.Valid() && fresh(r) && forest.trees == old(forest.trees) + {r} && r.comparator == comparator
      ensures Elements() == After(comparator, old(Elements()), Part(steps, true))
      ensures r.Elements() == After(comparator, old(Elements()), Part(steps, false))
      ensures forest.OthersKept(this)
    {
      hide Frozen, Contents, Node.Valid, Forest.Valid, Changed, After, Part;
      RunStart(comparator, Elements());
      forest.Apart(this);
      r := Clone();
      var i := 0;
      assert steps[..0] == [];
      while i < |steps|
        invariant i <= |steps| && forest.Valid() && forest.trees == old(forest.trees) + {r} && forest.OthersKept(this)
        invariant fresh(OwnOf(root) + OwnOf(r.root)) && forest.frozen == old(forest.frozen + OwnOf(root))
        invariant Elements() == After(comparator, old(Elements()), Part(steps[..i], true))
        invariant r.Elements() == After(comparator, old(Elements()), Part(steps[..i], false))
      {
        RunStep(comparator, old(Elements()), steps, i);
        if steps[i].0 {
          Apply(steps[i].1);
        } else {
          r.Apply(steps[i].1);
        }
        i := i + 1;
      }
      assert steps[..i] == steps;
    }

    /** `if (root.isShared) root = root.clone()` */
    method PrivateRoot(ghost base: set<Node<K>>)
      requires Holds(base) && Frozen(base)
      modifies this`root, base`isShared
      ensures Holds(base) && Frozen(base) && Grown(base) && !root.isShared
      ensures root.view == old(root.view) && root.height == old(root.height)
      ensures forall m :: m in root.own ==> m in old(OwnOf(root)) || !old(allocated(m))
    {
      if root.isShared {
        root := root.Clone(base);
      }
    }

    /** The root has split: a new root on top of the two halves. */
    method NewTop(right: Node<K>, ghost base: set<Node<K>>)
      requires !root.isShared && root.Valid(base) && right.Valid(base) && root.own !! right.own
      requires right.height == root.height && root.view.keys != [] && right.view.keys != []
      requires Shape(root.view, root.height) && Shape(right.view, root.height)
      modifies this`root
      ensures !root.isShared && root.Valid(base) && fresh(root) && root.own == {root} + old(root.own) + right.own
      ensures root.view == NewRoot(old(root.view), right.view, old(root.height)) && root.height == old(root.height) + 1
    {
      hide Family, Below, Shows, Shape;
      FamilyOne(root, root.height, base);
      FamilyOne(right, root.height, base);
      FamilyJoin([root], [root.view], [right], [right.view], root.height, base);
      assert [root, right] == [root] + [right] && [root.view, right.view] == [root.view] + [right.view];
      var top := new Node.Internal([root, right], [root.MaxKey(), right.MaxKey()], root.height + 1, [root.view, right.view]);
      root.Opened(base);
      right.Opened(base);
      top.Sealed(base);
      root := top;
    }

    /** `add`, on the nodes of this tree alone. */
    method Put(key: K, ghost base: set<Node<K>>)
      requires Holds(base) && Frozen(base)
      modifies this`root, this`size, OwnOf(root), base`isShared
      ensures Holds(base) && Frozen(base) && Grown(base)
      ensures Elements() == Insert(comparator, old(Elements()), key)
      ensures forall m :: m in OwnOf(root) ==> m in old(OwnOf(root)) || !old(allocated(m))
    {
      hide Family, Below, Shows, Contents, Shape, SetNode, Frozen, Insert;
      ghost var view, height := root.view, root.height;
      AddRefines(comparator, view, key, height);
      InsertIsInsertion(comparator, Contents(view), key);
      PrivateRoot(base);
      PutPrivate(key, base);
    }

    method PutPrivate(key: K, ghost base: set<Node<K>>)
      requires root.Valid(base) && Frozen(base) && TotalOrder(comparator) && Ordered(comparator, root.view, root.height)
      modifies this`root, this`size, root.own, base`isShared
      ensures root.Valid(base) && Frozen(base) && Grown(base)
      ensures var r := SetRoot(comparator, old(root.view), key, old(root.height));
        && root.view == r.0 && root.height == r.1 && size == old(size) + (if r.2 then 1 else 0)
      ensures forall m :: m in root.own ==> m in old(root.own) || !old(allocated(m))
    {
      hide Family, Below, Shows, Contents, SetNode, Frozen;
      RootKeys(base);
      var result := root.Set(key, this, base);
      if result != null {
        NewTop(result, base);
      }
    }

    lemma RootKeys(base: set<Node<K>>)
      requires root.Valid(base) && RootShape(root.view, root.height)
      ensures root.internal ==> root.keys != []
    {
    }

    /** `delete`, on the nodes of this tree alone. */
    method Take(key: K, ghost base: set<Node<K>>) returns (found: bool)
      requires Holds(base) && Frozen(base) && EmptyLeafIn(base)
      modifies this`root, this`size, OwnOf(root), base`isShared
      ensures Holds(base) && Frozen(base) && Grown(base)
      ensures Elements() == Remove(comparator, old(Elements()), key) && found == Found(comparator, old(Elements()), key)
      ensures forall m :: m in OwnOf(root) ==> m in old(OwnOf(root)) || !old(allocated(m))
    {
      hide Family, Below, Shows, Contents, Shape, DeleteNode, Frozen, Remove, Found;
      ghost var view, height := root.view, root.height;
      DeleteRefines(comparator, view, key, height);
      RemoveIsRemoval(comparator, Contents(view), key);
      PrivateRoot(base);
      found := TakePrivate(key, base);
    }

    method TakePrivate(key: K, ghost base: set<Node<K>>) returns (found: bool)
      requires !root.isShared && root.Valid(base) && Frozen(base) && EmptyLeafIn(base)
      requires TotalOrder(comparator) && Ordered(comparator, root.view, root.height)
      modifies this`root, this`size, root.own, base`isShared
      ensures Frozen(base) && Grown(base) && (if root.isShared then root in base else root.Valid(base))
      ensures var r := DeleteRoot(comparator, old(root.view), key, old(root.height));
        && root.view == r.0 && root.height == r.1 && size == old(size) - (if r.2 then 1 else 0) && found == r.2
      ensures forall m :: m in OwnOf(root) ==> m in old(root.own) || !old(allocated(m))
    {
      hide Family, Below, Shows, Contents, DeleteNode, Frozen, Collapse;
      found := root.Delete(key, this, base);
      CollapseRoot(base);
    }

    ghost predicate EmptyLeafIn(base: set<Node<K>>)
      reads forest.emptyLeaf
    {
      var e := forest.emptyLeaf;
      e in base && e.isShared && e.view == Tree.Leaf([]) && e.height == 0
    }

    /** While the root is an internal node with at most one child, move down; keep track of sharing on the way. */
    method CollapseRoot(ghost base: set<Node<K>>)
      requires !root.isShared && root.Valid(base) && Frozen(base) && EmptyLeafIn(base) && Shape(root.view, root.height)
      modifies this`root, base`isShared
      ensures Frozen(base) && Grown(base) && (if root.isShared then root in base else root.Valid(base))
      ensures (root.view, root.height) == Collapse(old(root.view), old(root.height))
      ensures OwnOf(root) <= old(root.own)
    {
      hide Family, Below, Shows, Shape, Collapse, Frozen, Node.Valid;
      var isShared := false;
      while |root.keys| <= 1 && root.internal
        modifies this`root
        invariant Frozen(base) && Shape(root.view, root.height)
        invariant Collapse(root.view, root.height) == Collapse(old(root.view), old(root.height))
        invariant if isShared || root.isShared then root in base else root.Valid(base) && root.own <= old(root.own)
        decreases root.height
      {
        CollapseStep(root, isShared || root.isShared, base);
        isShared := isShared || root.isShared;
        root := if root.keys == [] then forest.emptyLeaf else root.children[0];
      }
      CollapseDone(root, isShared || root.isShared, base);
      if isShared {
        root.Mark(base);
      }
    }

    lemma CollapseDone(n: Node<K>, shared: bool, base: set<Node<K>>)
      requires Frozen(base) && (if shared then n in base else n.Valid(base))
      requires !n.internal || |n.keys| > 1
      requires Shape(n.view, n.height)
      ensures Collapse(n.view, n.height) == (n.view, n.height)
    {
    }

    lemma CollapseStep(n: Node<K>, shared: bool, base: set<Node<K>>)
      requires Frozen(base) && Shape(n.view, n.height) && n.internal
      requires if shared then n in base else n.Valid(base)
      requires |n.keys| <= 1
      ensures n.height > 0 && |n.keys| == |n.children|
      ensures n.keys == [] ==> Collapse(n.view, n.height) == Collapse(Tree.Leaf([]), 0) && Shape<K>(Tree.Leaf([]), 0)
      ensures n.keys != [] ==>
        var c := n.children[0];
        && c.height == n.height - 1 && Shape(c.view, c.height) && Collapse(n.view, n.height) == Collapse(c.view, c.height)
        && (if shared || c.isShared then c in base else c.Valid(base) && c.own <= n.own)
    {
    }
  }

  /**
   `indexOf`: binary search. Without a match the result is the insertion index when `failXor` is 0 and its complement
   when `failXor` is -1.
   */
  method IndexOf<K(!new)>(key: K, keys: seq<K>, failXor: int, cmp: (K, K) -> int) returns (r: int)
    requires TotalOrder(cmp) && Sorted(cmp, keys)
    requires failXor == 0 || failXor == -1
    ensures Found(cmp, keys, key) || failXor == 0 ==> r == LowerBound(cmp, keys, key)
    ensures !Found(cmp, keys, key) && failXor == -1 ==> r == -1 - LowerBound(cmp, keys, key)
  {
    hide LowerBound;
    var lo, hi := 0, |keys|;
    var mid := hi / 2;
    while lo < hi
      invariant 0 <= lo <= hi <= |keys| && mid == (lo + hi) / 2
      invariant lo > 0 ==> cmp(keys[lo - 1], key) < 0
      invariant hi < |keys| ==> cmp(keys[hi], key) > 0
    {
      var c := cmp(keys[mid], key);
      if c < 0 {
        lo := mid + 1;
      } else if c > 0 {
        hi := mid;
      } else {
        if mid > 0 {
          assert Rises(cmp, keys, mid - 1, mid);
          Transitive(cmp, keys[mid - 1], keys[mid], key);
        }
        LowerBoundUnique(cmp, keys, key, mid);
        return mid;
      }
      mid := (lo + hi) / 2;
    }
    LowerBoundUnique(cmp, keys, key, mid);
    return if failXor == 0 then mid else -1 - mid;
  }

  class Node<K(!new)> {
    var keys: seq<K>
    var children: seq<Node<K>>
    var isShared: bool
    const internal: bool

    /** Distance to the leaves; it never changes. */
    ghost const height: nat
    /** The immutable tree that this node stands for. */
    ghost var view: Tree<K>
    /** If this node is exclusively owned by one tree: itself and all exclusively owned nodes below it. */
    ghost var own: set<Node<K>>

    constructor Leaf(keys: seq<K>)
      ensures !internal && height == 0 && this.keys == keys && children == [] && !isShared
      ensures view == Tree.Leaf(keys) && own == {this} && Below(children) == {}
    {
      this.keys, children, isShared, internal := keys, [], false, false;
      height, view, own := 0, Tree.Leaf(keys), {this};
    }

    constructor Internal(children: seq<Node<K>>, keys: seq<K>, ghost height: nat, ghost views: seq<Tree<K>>)
      ensures internal && this.height == height && this.keys == keys && this.children == children && !isShared
      ensures view == Inner(keys, views) && own == {this} + Below(children)
    {
      this.keys, this.children, isShared, internal := keys, children, false, true;
      this.height, view := height, Inner(keys, views);
      own := {this} + Below(children);
    }

    /** The fields of this node agree with its view, given that its children agree with theirs. */
    ghost predicate Mirrors()
      reads this, children
    {
      && view.keys == keys
      && view.Inner? == internal
      && (if internal then height > 0 && Shows(children, view.children, height - 1)
          else height == 0 && children == [])
    }

    /** This node is exclusively owned; whatever it does not own below itself is marked shared and lies in `base`. */
    ghost predicate Valid(base: set<Node<K>>)
      reads this, own, base
      decreases height, 0
    {
      && this in own && own !! base && !isShared
      && (forall i :: 0 <= i < |children| ==> children[i] in own + base)
      && own == {this} + Below(children) && this !in Below(children)
      && view.keys == keys && view.Inner? == internal
      && (if internal then
            height > 0 && |children| == |view.children| && Family(children, view.children, height - 1, base)
          else height == 0 && children == [])
    }

    method Mark(ghost base: set<Node<K>>)
      requires this in base && Frozen(base)
      modifies this`isShared
      ensures Frozen(base) && Grown(base) && isShared
    {
      isShared := true;
    }

    /** A shared node's children are about to be reached from a second place: mark them. */
    method MarkChildren(ghost base: set<Node<K>>)
      requires this in base && Frozen(base)
      modifies base`isShared
      ensures Frozen(base) && Grown(base) && Kept(base)
      ensures forall i :: 0 <= i < |children| ==> children[i].isShared && children[i] in base
    {
      var i := 0;
      while i < |children|
        invariant 0 <= i <= |children|
        invariant forall j :: 0 <= j < i ==> children[j].isShared
        invariant Grown(base)
      {
        children[i].isShared := true;
        i := i + 1;
      }
    }

    /** `clone`: a private copy of a shared node. */
    method Clone(ghost base: set<Node<K>>) returns (r: Node<K>)
      requires this in base && Frozen(base)
      modifies base`isShared
      ensures Frozen(base) && Grown(base)
      ensures fresh(r) && r.Valid(base) && r.own == {r} && r.view == view && r.height == height
    {
      hide Family, Below;
      MarkChildren(base);
      if internal {
        AllShared(children, view.children, height - 1, base);
        r := new Node.Internal(children, keys, height, view.children);
      } else {
        r := new Node.Leaf(keys);
      }
    }

    /** `takeFromRight` */
    method TakeFromRight(rhs: Node<K>, ghost base: set<Node<K>>)
      requires Valid(base) && rhs.Valid(base) && own !! rhs.own && height == rhs.height
      requires Shape(view, height) && Shape(rhs.view, height) && |keys| < MAX_NODE_SIZE && rhs.keys != []
      modifies this, rhs
      ensures Valid(base) && rhs.Valid(base) && own !! rhs.own && own + rhs.own == old(own + rhs.own)
      ensures (view, rhs.view) == BTreeModel.TakeFromRight(old(view), old(rhs.view), height)
    {
      hide Family, Below, Shows, BTreeModel.TakeFromRight;
      if internal {
        TakeChildFromRight(rhs, base);
      } else {
        TakeKeyFromRight(rhs, base);
      }
    }

    /** `takeFromRight` of a leaf */
    method TakeKeyFromRight(rhs: Node<K>, ghost base: set<Node<K>>)
      requires Valid(base) && rhs.Valid(base) && own !! rhs.own && height == rhs.height && !internal
      requires Shape(view, height) && Shape(rhs.view, height) && |keys| < MAX_NODE_SIZE && rhs.keys != []
      modifies this, rhs
      ensures Valid(base) && rhs.Valid(base) && own !! rhs.own && own + rhs.own == old(own + rhs.own)
      ensures (view, rhs.view) == BTreeModel.TakeFromRight(old(view), old(rhs.view), height)
    {
      hide Family, Shows;
      keys, rhs.keys := keys + [rhs.keys[0]], rhs.keys[1..];
      view, rhs.view := Tree.Leaf(keys), Tree.Leaf(rhs.keys);
    }

    /** `takeFromRight` of an internal node */
    method TakeChildFromRight(rhs: Node<K>, ghost base: set<Node<K>>)
      requires Valid(base) && rhs.Valid(base) && own !! rhs.own && height == rhs.height && internal
      requires Shape(view, height) && Shape(rhs.view, height) && |keys| < MAX_NODE_SIZE && rhs.keys != []
      modifies this, rhs
      ensures Valid(base) && rhs.Valid(base) && own !! rhs.own && own + rhs.own == old(own + rhs.own)
      ensures (view, rhs.view) == BTreeModel.TakeFromRight(old(view), old(rhs.view), height)
    {
      hide Family, Below, Shows;
      ghost var v, w := view, rhs.view;
      FirstMoves(children, v.children, rhs.children, w.children, height - 1, base);
      keys, rhs.keys := keys + [rhs.keys[0]], rhs.keys[1..];
      children, rhs.children := children + [rhs.children[0]], rhs.children[1..];
      own, rhs.own := {this} + Below(children), {rhs} + Below(rhs.children);
      view := BTreeModel.TakeFromRight(v, w, height).0;
      rhs.view := BTreeModel.TakeFromRight(v, w, height).1;
    }

    /** `takeFromLeft` */
    method TakeFromLeft(lhs: Node<K>, ghost base: set<Node<K>>)
      requires Valid(base) && lhs.Valid(base) && own !! lhs.own && height == lhs.height
      requires Shape(view, height) && Shape(lhs.view, height) && |keys| < MAX_NODE_SIZE && lhs.keys != []
      modifies this, lhs
      ensures Valid(base) && lhs.Valid(base) && own !! lhs.own && own + lhs.own == old(own + lhs.own)
      ensures (lhs.view, view) == BTreeModel.TakeFromLeft(old(lhs.view), old(view), height)
    {
      hide Family, Below, Shows, BTreeModel.TakeFromLeft;
      if internal {
        TakeChildFromLeft(lhs, base);
      } else {
        TakeKeyFromLeft(lhs, base);
      }
    }

    /** `takeFromLeft` of a leaf */
    method TakeKeyFromLeft(lhs: Node<K>, ghost base: set<Node<K>>)
      requires Valid(base) && lhs.Valid(base) && own !! lhs.own && height == lhs.height && !internal
      requires Shape(view, height) && Shape(lhs.view, height) && |keys| < MAX_NODE_SIZE && lhs.keys != []
      modifies this, lhs
      ensures Valid(base) && lhs.Valid(base) && own !! lhs.own && own + lhs.own == old(own + lhs.own)
      ensures (lhs.view, view) == BTreeModel.TakeFromLeft(old(lhs.view), old(view), height)
    {
      hide Family, Shows;
      var n := |lhs.keys| - 1;
      keys, lhs.keys := [lhs.keys[n]] + keys, lhs.keys[..n];
      view, lhs.view := Tree.Leaf(keys), Tree.Leaf(lhs.keys);
    }

    /** `takeFromLeft` of an internal node */
    method TakeChildFromLeft(lhs: Node<K>, ghost base: set<Node<K>>)
      requires Valid(base) && lhs.Valid(base) && own !! lhs.own && height == lhs.height && internal
      requires Shape(view, height) && Shape(lhs.view, height) && |keys| < MAX_NODE_SIZE && lhs.keys != []
      modifies this, lhs
      ensures Valid(base) && lhs.Valid(base) && own !! lhs.own && own + lhs.own == old(own + lhs.own)
      ensures (lhs.view, view) == BTreeModel.TakeFromLeft(old(lhs.view), old(view), height)
    {
      hide Family, Below, Shows;
      ghost var v, w := lhs.view, view;
      var n := |lhs.keys| - 1;
      LastMoves(lhs.children, v.children, n, children, w.children, height - 1, base);
      keys, lhs.keys := [lhs.keys[n]] + keys, lhs.keys[..n];
      children, lhs.children := [lhs.children[n]] + children, lhs.children[..n];
      own, lhs.own := {this} + Below(children), {lhs} + Below(lhs.children);
      lhs.view := BTreeModel.TakeFromLeft(v, w, height).0;
      view := BTreeModel.TakeFromLeft(v, w, height).1;
    }

    /** `insert`: a new child at index `i`. */
    method Insert(i: int, child: Node<K>, ghost base: set<Node<K>>)
      requires Valid(base) && internal && child.Valid(base) && own !! child.own && child.height == height - 1
      requires Shape(view, height) && |keys| < MAX_NODE_SIZE && Shape(child.view, height - 1) && child.keys != []
      modifies this
      ensures Valid(base) && own == old(own) + child.own
      ensures view == InsertChild(old(view), i, child.view, height)
    {
      hide Family, Below, Shows;
      var at := SpliceIndex(i, |keys|);
      FamilyTake(children, view.children, at, 0, height - 1, base);
      FamilyOne(child, height - 1, base);
      FamilyPut(children, view.children, at, 0, [child], [child.view], height - 1, base);
      view := InsertChild(view, i, child.view, height);
      children := Splice(children, at, 0, [child]);
      keys := Splice(keys, at, 0, [child.MaxKey()]);
      own := {this} + Below(children);
    }

    /** `splitOffRightSide` */
    method SplitOffRightSide(ghost base: set<Node<K>>) returns (r: Node<K>)
      requires Valid(base) && Shape(view, height) && |keys| == MAX_NODE_SIZE
      modifies this
      ensures Valid(base) && fresh(r) && r.Valid(base) && own !! r.own && own + r.own == old(own) + {r}
      ensures r.height == height && (view, r.view) == Split(old(view), height)
    {
      hide Family, Below, Shows;
      var half := |keys| / 2;
      ghost var v := view;
      if internal {
        FamilySplit(children, v.children, half, height - 1, base);
        FamilyMembers(children[..half], v.children[..half], height - 1, base);
        FamilyMembers(children[half..], v.children[half..], height - 1, base);
        r := new Node.Internal(children[half..], keys[half..], height, v.children[half..]);
        children := children[..half];
        own := {this} + Below(children);
      } else {
        r := new Node.Leaf(keys[half..]);
      }
      keys := keys[..half];
      view := Split(v, height).0;
    }

    /** The converse of `Opened`. */
    lemma Sealed(base: set<Node<K>>)
      requires this !in base && !isShared && own == {this} + Below(children)
      requires this !in Below(children) && base !! Below(children)
      requires view.keys == keys && view.Inner? == internal && (!internal ==> height == 0 && children == [])
      requires internal ==>
        height > 0 && |children| == |view.children| && Family(children, view.children, height - 1, base)
      ensures Valid(base)
    {
      if internal { FamilyMembers(children, view.children, height - 1, base); }
    }

    /** What validity says about a node's own fields. */
    lemma Opened(base: set<Node<K>>)
      requires Valid(base)
      ensures this in own && own !! base && !isShared && own == {this} + Below(children) && this !in Below(children)
      ensures view.keys == keys && view.Inner? == internal && (!internal ==> height == 0 && children == [])
      ensures internal ==>
        height > 0 && |children| == |view.children| && Family(children, view.children, height - 1, base)
    {
    }

    lemma ChildKeys(base: set<Node<K>>)
      requires Valid(base) && Frozen(base) && internal
      ensures |children| == |view.children|
      ensures forall i :: 0 <= i < |children| ==>
        children[i].keys == view.children[i].keys && children[i].internal == view.children[i].Inner?
    {
      forall i | 0 <= i < |children|
        ensures children[i].keys == view.children[i].keys && children[i].internal == view.children[i].Inner?
      {
        OpenAt(i, i, base);
      }
    }

    /**
     This node with its children `i` and `j` set aside: the other children are in order, and `part`, the owned nodes of
     the two, is apart from them, from this node and from the frozen nodes.
     */
    ghost predicate Open(kids: seq<Node<K>>, views: seq<Tree<K>>, i: nat, j: nat, part: set<Node<K>>, base: set<Node<K>>)
      reads this, kids, base, BelowBut(kids, i, j)
    {
      && internal && height > 0 && !isShared && i < |kids| && j < |kids|
      && FamilyBut(kids, views, i, j, height - 1, base)
      && BelowBut(kids, i, j) !! part && base !! part + BelowBut(kids, i, j)
      && this !in base + part + BelowBut(kids, i, j)
    }

    /** Set two children aside. */
    lemma OpenAt(i: nat, j: nat, base: set<Node<K>>)
      requires Valid(base) && internal && i < |children| && j < |children|
      ensures |children| == |view.children|
      ensures Open(children, view.children, i, j, OwnOf(children[i]) + OwnOf(children[j]), base)
      ensures children[i].view == view.children[i] && children[i].height == height - 1
      ensures children[j].view == view.children[j] && children[j].height == height - 1
      ensures if children[i].isShared then children[i] in base else children[i].Valid(base)
      ensures if children[j].isShared then children[j] in base else children[j].Valid(base)
      ensures own == {this} + BelowBut(children, i, j) + (OwnOf(children[i]) + OwnOf(children[j]))
      ensures i != j ==> OwnOf(children[i]) !! OwnOf(children[j])
      ensures var part := OwnOf(children[i]) + OwnOf(children[j]); var rest := BelowBut(children, i, j);
        rest !! part && base !! rest && this !in part + rest + base
    {
      hide Family, FamilyBut, Below, BelowBut, Shows;
      Aside(children, view.children, i, j, height - 1, base);
    }

    /**
     Writes this node's arrays; the node is valid again and its footprint is recomputed. (`spare` is a valid node that is
     not in this tree.)
     */
    method Settle(newKeys: seq<K>, newChildren: seq<Node<K>>, ghost views: seq<Tree<K>>, ghost spare: Node?<K>,
                  ghost base: set<Node<K>>)
      requires internal && height > 0 && !isShared && |newChildren| == |views|
      requires Family(newChildren, views, height - 1, base)
      requires this !in Below(newChildren) + base && base !! Below(newChildren)
      requires spare != null ==> spare.Valid(base) && spare.own !! {this} + Below(newChildren)
      requires Frozen(base)
      modifies this`keys, this`children, this`view, this`own
      ensures Valid(base) && keys == newKeys && children == newChildren && view == Inner(newKeys, views)
      ensures own == {this} + old(Below(newChildren)) && Frozen(base)
      ensures spare != null ==> spare.Valid(base) && spare.own == old(spare.own) && own !! spare.own
    {
      hide Family, Below, Shows;
      FamilyMembers(newChildren, views, height - 1, base);
      keys, children, view, own := newKeys, newChildren, Inner(newKeys, views), {this} + Below(newChildren);
    }

    /** As `Settle`, when the children `i` and `j` have been worked on. */
    method Store(newKeys: seq<K>, newChildren: seq<Node<K>>, ghost views: seq<Tree<K>>, ghost i: nat, ghost j: nat,
                 ghost spare: Node?<K>, ghost base: set<Node<K>>)
      requires i < |newChildren| && j < |newChildren| && |views| == |newChildren|
      requires var a, b := newChildren[i], newChildren[j];
        && a.height == height - 1 && a.view == views[i] && a.Valid(base)
        && b.height == height - 1 && b.view == views[j] && b.Valid(base) && (i != j ==> a.own !! b.own)
        && Open(newChildren, views, i, j, a.own + b.own, base)
        && (spare != null ==> spare.Valid(base) && spare.own !! {this} + BelowBut(newChildren, i, j) + (a.own + b.own))
      requires Frozen(base)
      modifies this`keys, this`children, this`view, this`own
      ensures Valid(base) && keys == newKeys && children == newChildren && view == Inner(newKeys, views)
      ensures own == {this} + old(BelowBut(newChildren, i, j)) + old(newChildren[i].own + newChildren[j].own)
      ensures Frozen(base)
      ensures spare != null ==> spare.Valid(base) && spare.own == old(spare.own) && own !! spare.own
    {
      hide Family, FamilyBut, Below, BelowBut, Shows, Valid;
      Back(newChildren, views, i, j, height - 1, base);
      Settle(newKeys, newChildren, views, spare, base);
    }

    /** As `Settle`, when the children `i` and `i + 1` have been merged into the former. */
    method StoreMerged(newKeys: seq<K>, i: nat, ghost was: seq<Tree<K>>, ghost base: set<Node<K>>)
      requires i + 1 < |children| == |was|
      requires var c := children[i];
        && c.height == height - 1 && c.Valid(base) && Open(children, was, i, i + 1, c.own, base)
      requires Frozen(base)
      modifies this`keys, this`children, this`view, this`own
      ensures Valid(base) && Frozen(base)
      ensures view == Inner(newKeys, Splice(was, i, 2, [old(children[i].view)]))
      ensures own == {this} + old(BelowBut(children, i, i + 1) + children[i].own)
    {
      hide Family, FamilyBut, Below, BelowBut, Shows, Splice, Valid;
      Squeezed(children, was, i, height - 1, base);
      Settle(newKeys, Splice(children, i, 2, [children[i]]), Splice(was, i, 2, [children[i].view]), null, base);
    }

    /** As `Settle`, when the child `i` has become empty and is dropped. */
    method StoreDropped(newKeys: seq<K>, i: nat, ghost base: set<Node<K>>)
      requires Valid(base) && internal && i < |children| && Frozen(base)
      modifies this`keys, this`children, this`view, this`own
      ensures Valid(base) && Frozen(base) && own <= old(own)
      ensures view == Inner(newKeys, Splice(old(view).children, i, 1, []))
    {
      hide Family, FamilyBut, Below, BelowBut, Shows, Splice, Valid;
      Opened(base);
      OpenAt(i, i, base);
      Dropped(children, view.children, i, height - 1, base);
      Settle(newKeys, Splice(children, i, 1, []), Splice(view.children, i, 1, []), null, base);
    }

    /** `if (child.isShared) c[i] = child = child.clone()` */
    method PrivateChild(i: nat, ghost base: set<Node<K>>)
      requires Valid(base) && Frozen(base) && internal && i < |children|
      modifies this, base`isShared
      ensures Valid(base) && Frozen(base) && Grown(base)
      ensures view == old(view) && keys == old(keys) && |children| == |old(children)|
      ensures !children[i].isShared
      ensures forall j :: 0 <= j < |children| && j != i ==> children[j] == old(children[j])
      ensures !old(children[i].isShared) ==> children[i] == old(children[i])
      ensures old(own) <= own && fresh(own - old(own))
    {
      hide Family, Below, Shows, Frozen;
      if children[i].isShared {
        Privatise(i, base);
      }
    }

    method Privatise(i: nat, ghost base: set<Node<K>>)
      requires Valid(base) && Frozen(base) && internal && i < |children| && children[i].isShared
      modifies this, base`isShared
      ensures Valid(base) && Frozen(base) && Grown(base)
      ensures view == old(view) && keys == old(keys)
      ensures fresh(children[i]) && !children[i].isShared && children == old(children)[i := children[i]]
      ensures own == old(own) + {children[i]}
    {
      hide Family, FamilyBut, Below, BelowBut, Shows, Frozen;
      OpenAt(i, i, base);
      ghost var h, views := height - 1, view.children;
      var child := children[i].Clone(base);
      StillOpen(this, children, views, views, i, i, {}, child.own + child.own, {}, base);
      Others(children, views, children[i := child], views, i, i, h, base);
      Store(keys, children[i := child], views, i, i, null, base);
    }

    /** Move one entry from the full child `i` to a sibling with room, when the key still belongs to that child. */
    method ShiftFromFull(i: nat, key: K, cmp: (K, K) -> int, ghost base: set<Node<K>>)
      requires Valid(base) && Frozen(base) && Shape(view, height) && internal && i < |children| && !children[i].isShared
      modifies own, base`isShared
      ensures Valid(base) && Frozen(base) && Grown(base)
      ensures old(own) <= own && fresh(own - old(own))
      ensures view == MakeRoom(cmp, old(view), i, key, height) && !children[i].isShared
    {
      hide Family, Below, Shows, ShiftLeft, ShiftRight, Frozen, Shape;
      ShapeBelow(view, i, height);
      ChildKeys(base);
      var child := children[i];
      if |child.keys| >= MAX_NODE_SIZE {
        if i > 0 && |children[i - 1].keys| < MAX_NODE_SIZE && cmp(child.keys[0], key) < 0 {
          ShiftToPrevious(i, base);
        } else if i + 1 < |children| && |children[i + 1].keys| < MAX_NODE_SIZE && cmp(child.MaxKey(), key) < 0 {
          ShiftToNext(i, base);
        }
      }
    }

    method ShiftToPrevious(i: nat, ghost base: set<Node<K>>)
      requires Valid(base) && Frozen(base) && Shape(view, height) && internal
      requires 0 < i < |children| == |view.children| && !children[i].isShared
      requires |view.children[i - 1].keys| < MAX_NODE_SIZE && |view.children[i].keys| == MAX_NODE_SIZE
      modifies own, base`isShared
      ensures Valid(base) && Frozen(base) && Grown(base)
      ensures old(own) <= own && fresh(own - old(own)) && |children| == old(|children|)
      ensures view == ShiftLeft(old(view), i - 1, height) && !children[i].isShared
    {
      hide Family, Below, Shows, ShiftLeft, Shape, Frozen;
      OpenAt(i, i, base);
      PrivateChild(i - 1, base);
      ShiftToLeft(i - 1, base);
    }

    method ShiftToNext(i: nat, ghost base: set<Node<K>>)
      requires Valid(base) && Frozen(base) && Shape(view, height) && internal
      requires i + 1 < |children| == |view.children| && !children[i].isShared
      requires |view.children[i + 1].keys| < MAX_NODE_SIZE && |view.children[i].keys| == MAX_NODE_SIZE
      modifies own, base`isShared
      ensures Valid(base) && Frozen(base) && Grown(base)
      ensures old(own) <= own && fresh(own - old(own)) && |children| == old(|children|)
      ensures view == ShiftRight(old(view), i, height) && !children[i].isShared
    {
      hide Family, Below, Shows, ShiftRight, Shape, Frozen;
      OpenAt(i, i, base);
      PrivateChild(i + 1, base);
      ShiftToRight(i, base);
    }

    method ShiftToLeft(i: nat, ghost base: set<Node<K>>)
      requires Valid(base) && Frozen(base) && Shape(view, height) && internal && i + 1 < |children| == |view.children|
      requires !children[i].isShared && !children[i + 1].isShared
      requires |view.children[i].keys| < MAX_NODE_SIZE && |view.children[i + 1].keys| > 1
      modifies own
      ensures Valid(base) && Frozen(base) && own == old(own) && children == old(children)
      ensures !children[i].isShared && !children[i + 1].isShared
      ensures view == ShiftLeft(old(view), i, height)
    {
      hide Family, FamilyBut, Below, BelowBut, Shows, BTreeModel.TakeFromRight, Frozen, Shape;
      ShapeBelow(view, i, height);
      ShapeBelow(view, i + 1, height);
      OpenAt(i, i + 1, base);
      ghost var was := view.children;
      var other, child := children[i], children[i + 1];
      ghost var part := other.own + child.own;
      other.TakeFromRight(child, base);
      ghost var views := was[i := other.view][i + 1 := child.view];
      StillOpen(this, children, was, views, i, i + 1, part, other.own + child.own, {}, base);
      Store(keys[i := other.MaxKey()], children, views, i, i + 1, null, base);
    }

    method ShiftToRight(i: nat, ghost base: set<Node<K>>)
      requires Valid(base) && Frozen(base) && Shape(view, height) && internal && i + 1 < |children| == |view.children|
      requires !children[i].isShared && !children[i + 1].isShared
      requires |view.children[i + 1].keys| < MAX_NODE_SIZE && |view.children[i].keys| > 1
      modifies own
      ensures Valid(base) && Frozen(base) && own == old(own) && children == old(children)
      ensures !children[i].isShared && !children[i + 1].isShared
      ensures view == ShiftRight(old(view), i, height)
    {
      hide Family, FamilyBut, Below, BelowBut, Shows, BTreeModel.TakeFromLeft, Frozen, Shape;
      ShapeBelow(view, i, height);
      ShapeBelow(view, i + 1, height);
      OpenAt(i, i + 1, base);
      ghost var was := view.children;
      var child, other := children[i], children[i + 1];
      ghost var part := child.own + other.own;
      other.TakeFromLeft(child, base);
      ghost var views := was[i := child.view][i + 1 := other.view];
      StillOpen(this, children, was, views, i, i + 1, part, child.own + other.own, {}, base);
      Store(keys[i := child.MaxKey()], children, views, i, i + 1, null, base);
    }

    // ----- get

    /** What reading needs to know of this node. */
    lemma Readable(cmp: (K, K) -> int, base: set<Node<K>>)
      requires Frozen(base) && (this in base || Valid(base)) && Shape(view, height) && Sorted(cmp, Contents(view))
      ensures view.keys == keys && view.Inner? == internal && Sorted(cmp, keys)
      ensures if internal then height > 0 && |keys| == |children| == |view.children| else height == 0
    {
      hide Contents;
      KeysSorted(cmp, view, height);
    }

    lemma ReadableChild(i: nat, cmp: (K, K) -> int, base: set<Node<K>>)
      requires Frozen(base) && (this in base || Valid(base)) && Shape(view, height) && Sorted(cmp, Contents(view))
      requires internal && i < |children| == |view.children|
      ensures var c := children[i];
        && (c in base || c.Valid(base)) && c.view == view.children[i] && c.height == height - 1
        && Shape(c.view, c.height) && Sorted(cmp, Contents(c.view))
    {
      hide Contents;
      ChildSorted(cmp, view, i, height);
    }

    /** `get` */
    method Get(key: K, tree: BTreeSet<K>, ghost base: set<Node<K>>) returns (r: Option<K>)
      requires Frozen(base) && (this in base || Valid(base)) && Shape(view, height)
      requires TotalOrder(tree.comparator) && Sorted(tree.comparator, Contents(view))
      ensures r == BTreeModel.Get(tree.comparator, view, key, height)
      decreases height
    {
      hide Contents, LowerBound, Frozen, Node.Valid, Shape;
      Readable(tree.comparator, base);
      if internal {
        var i := IndexOf(key, keys, 0, tree.comparator);
        if i >= |children| {
          return None;
        }
        ReadableChild(i, tree.comparator, base);
        r := children[i].Get(key, tree, base);
      } else {
        var i := IndexOf(key, keys, -1, tree.comparator);
        return if i < 0 then None else Some(keys[i]);
      }
    }

    /** `has` */
    method Has(key: K, tree: BTreeSet<K>, ghost base: set<Node<K>>) returns (r: bool)
      requires Frozen(base) && (this in base || Valid(base)) && Shape(view, height)
      requires TotalOrder(tree.comparator) && Sorted(tree.comparator, Contents(view))
      ensures r == BTreeModel.Get(tree.comparator, view, key, height).Some?
      decreases height
    {
      hide Contents, LowerBound, Frozen, Node.Valid, Shape;
      Readable(tree.comparator, base);
      if internal {
        var i := IndexOf(key, keys, 0, tree.comparator);
        if i >= |children| {
          return false;
        }
        ReadableChild(i, tree.comparator, base);
        r := children[i].Has(key, tree, base);
      } else {
        var i := IndexOf(key, keys, -1, tree.comparator);
        return 0 <= i < |keys|;
      }
    }

    // ----- set

    /** What the methods of `set` promise: the function of BTreeModel, on private nodes only. */
    twostate predicate DidSet(r: SetResult<K>, new result: Node?<K>, level: nat, tree: BTreeSet<K>, base: set<Node<K>>)
      reads this, own, base, tree, result, if result == null then {} else result.own
    {
      && Valid(base) && Frozen(base) && Grown(base)
      && (forall m :: m in own ==> m in old(own) || !old(allocated(m)))
      && view == r.node
      && tree.size == old(tree.size) + (if r.added then 1 else 0)
      && (result == null <==> r.right.None?)
      && (result != null ==>
            && result.Valid(base) && result.height == level && result.view == r.right.value && own !! result.own
            && (forall m :: m in result.own ==> m in old(own) || !old(allocated(m))))
    }

    method SetLeaf(key: K, tree: BTreeSet<K>, ghost base: set<Node<K>>) returns (result: Node?<K>)
      requires Valid(base) && Frozen(base) && !internal && Shape(view, 0)
      requires TotalOrder(tree.comparator) && Sorted(tree.comparator, keys)
      modifies this, tree`size
      ensures DidSet(BTreeModel.SetLeaf(tree.comparator, old(view), key), result, height, tree, base)
    {
      hide LowerBound, Splice, Split, Sorted, TotalOrder, Frozen;
      result := null;
      var i := IndexOf(key, keys, -1, tree.comparator);
      if i < 0 {
        i := -1 - i;
        tree.size := tree.size + 1;
        if |keys| < MAX_NODE_SIZE {
          keys := Splice(keys, i, 0, [key]);
          view := Tree.Leaf(keys);
        } else {
          result := SplitLeaf(i, key, base);
        }
      } else {
        keys := Splice(keys, i, 1, [key]);
        view := Tree.Leaf(keys);
      }
    }

    /** The key's position is `i` in this full leaf. */
    method SplitLeaf(i: nat, key: K, ghost base: set<Node<K>>) returns (right: Node<K>)
      requires Valid(base) && !internal && Shape(view, 0) && |keys| == MAX_NODE_SIZE && i <= |keys|
      modifies this
      ensures Valid(base) && own == old(own) && fresh(right) && right.Valid(base) && right.own == {right}
      ensures right.height == height
      ensures var (l, r) := Split(old(view), 0);
        && view == (if i > |l.keys| then l else Tree.Leaf(Splice(l.keys, i, 0, [key])))
        && right.view == (if i > |l.keys| then Tree.Leaf(Splice(r.keys, i - |l.keys|, 0, [key])) else r)
    {
      hide Splice, Family, Shows;
      right := SplitOffRightSide(base);
      if i > |keys| {
        right.keys := Splice(right.keys, i - |keys|, 0, [key]);
        right.view := Tree.Leaf(right.keys);
      } else {
        keys := Splice(keys, i, 0, [key]);
        view := Tree.Leaf(keys);
      }
    }

    /** The child `i` has split: take in its new right sibling. */
    method AdoptRight(i: nat, right: Node<K>, cmp: (K, K) -> int, ghost added: bool, ghost base: set<Node<K>>)
      returns (result: Node?<K>)
      requires Valid(base) && Shape(view, height) && internal && i < |keys|
      requires right.Valid(base) && right.height == height - 1 && own !! right.own
      requires Shape(right.view, height - 1) && right.view.keys != []
      modifies this
      ensures Valid(base)
      ensures forall m :: m in own ==> m in old(own + right.own) || !old(allocated(m))
      ensures var r := AdoptSplit(cmp, old(view), i, old(right.view), added, height);
        && view == r.node && (result == null <==> r.right.None?)
        && (result != null ==>
              && fresh(result) && result.Valid(base) && result.height == height
              && result.view == r.right.value && own !! result.own
              && forall m :: m in result.own ==> m in old(own + right.own) || !old(allocated(m)))
    {
      hide Family, Below, Shows, InsertChild, Splice, Split;
      result := null;
      if |keys| < MAX_NODE_SIZE {
        Insert(i + 1, right, base);
      } else {
        result := SplitAndAdopt(i, right, cmp, view, right.view, added, base);
      }
    }

    method SplitAndAdopt(i: nat, right: Node<K>, cmp: (K, K) -> int, ghost t: Tree<K>, ghost r: Tree<K>, ghost added: bool,
                         ghost base: set<Node<K>>)
      returns (sibling: Node<K>)
      requires Shape(t, height) && t.Inner? && i < |t.keys| == MAX_NODE_SIZE && Shape(r, height - 1) && r.keys != []
      requires Valid(base) && view == t && internal && |keys| == |t.keys|
      requires right.Valid(base) && right.height == height - 1 && own !! right.own && right.view == r
      modifies this
      ensures AdoptSplit(cmp, t, i, r, added, height) == SetResult(view, Some(sibling.view), added)
      ensures Valid(base) && fresh(sibling) && sibling.Valid(base) && sibling.height == height && own !! sibling.own
      ensures forall m :: m in own + sibling.own ==> m in old(own + right.own) || !old(allocated(m))
    {
      hide Family, Below, Shows, InsertChild, Splice, Split;
      sibling := SplitOffRightSide(base);
      if cmp(right.MaxKey(), MaxKey()) > 0 {
        sibling.Insert(i - |keys| + 1, right, base);
      } else {
        Insert(i + 1, right, base);
      }
    }

    /** The recursive call of `set` on child `i`: the other children are left alone. */
    method SetChild(i: nat, key: K, tree: BTreeSet<K>, ghost rest: set<Node<K>>, ghost base: set<Node<K>>)
      returns (right: Node?<K>)
      requires i < |children| && children[i].Valid(base) && Frozen(base) && this !in children[i].own + base
      requires Shape(children[i].view, children[i].height) && children[i].view.keys != [] && rest !! children[i].own + base
      requires TotalOrder(tree.comparator) && Sorted(tree.comparator, Contents(children[i].view))
      modifies children[i].own, base`isShared, tree`size
      ensures unchanged(this) && Intact(rest) && children[i].view.keys != []
      ensures children[i].DidSet(SetNode(tree.comparator, old(children[i].view), key, children[i].height), right,
                                 children[i].height, tree, base)
      decreases children[i].height, 5
    {
      hide SetNode, Contents, Shape, Frozen, Valid;
      assert children[i].view.keys == children[i].keys by { children[i].Opened(base); }
      right := children[i].Set(key, tree, base);
    }

    /** The recursive call of `set` on child `i`. */
    method SetBelow(i: nat, key: K, tree: BTreeSet<K>, ghost base: set<Node<K>>) returns (right: Node?<K>)
      requires Ready(i, tree.comparator, base) && TotalOrder(tree.comparator)
      modifies own, base`isShared, tree`size
      ensures unchanged(this) && children[i].view.keys != []
      ensures children[i].height == height - 1 && old(children[i].own) <= old(own)
      ensures children[i].DidSet(SetNode(tree.comparator, old(view).children[i], key, height - 1), right, height - 1, tree, base)
      ensures var c, bb := children[i], BelowBut(children, i, i);
        && bb == old(BelowBut(children, i, i)) && bb <= old(own)
        && Open(children, view.children[i := c.view], i, i, c.own + c.own, base)
        && (right != null ==> right.own !! {this} + bb + (c.own + c.own))
      decreases height, 0
    {
      hide Family, FamilyBut, Below, BelowBut, Shows, SetNode, Contents, Shape, Frozen, Ready;
      Unready(i, tree.comparator, base);
      ShapeBelow(view, i, height);
      OpenAt(i, i, base);
      var child := children[i];
      ghost var was, part := view.children, child.own;
      right := SetChild(i, key, tree, BelowBut(children, i, i), base);
      StillOpen(this, children, was, was[i := child.view], i, i, part, child.own + child.own,
                if right == null then {} else right.own, base);
    }

    /** The recursive call of `set` on child `i`, and the new key cache. */
    method SetInChild(i: nat, key: K, tree: BTreeSet<K>, ghost base: set<Node<K>>) returns (right: Node?<K>)
      requires Ready(i, tree.comparator, base) && TotalOrder(tree.comparator)
      modifies own, base`isShared, tree`size
      ensures DidSet(FilledAt(tree.comparator, old(view), i, key, height), right, height - 1, tree, base)
      decreases height, 1
    {
      hide Family, FamilyBut, Below, BelowBut, Shows, SetNode, Contents, Shape, Open, Frozen;
      right := SetBelow(i, key, tree, base);
      var newKeys := keys[i := children[i].MaxKey()];
      Store(newKeys, children, view.children[i := children[i].view], i, i, right, base);
    }

    /** Child `i` is private and it is its turn. */
    ghost predicate Ready(i: nat, cmp: (K, K) -> int, base: set<Node<K>>)
      reads this, own, base
    {
      && Valid(base) && Frozen(base) && Shape(view, height) && internal
      && i < |children| == |view.children| == |keys| && children[i] in own && !children[i].isShared
      && Sorted(cmp, Contents(view.children[i]))
    }

    lemma Unready(i: nat, cmp: (K, K) -> int, base: set<Node<K>>)
      requires Ready(i, cmp, base)
      ensures Valid(base) && Frozen(base) && Shape(view, height) && internal
      ensures i < |children| == |view.children| == |keys| && !children[i].isShared
      ensures Sorted(cmp, Contents(view.children[i]))
    {
    }

    /** Make child `i` private and, when it is full, try to make room in it. */
    method EnterChild(i: nat, key: K, cmp: (K, K) -> int, ghost base: set<Node<K>>)
      requires Valid(base) && Frozen(base) && Shape(view, height) && internal && i < |children|
      requires Sorted(cmp, Contents(view))
      modifies own, base`isShared
      ensures Ready(i, cmp, base) && Grown(base)
      ensures old(own) <= own && fresh(own - old(own))
      ensures i < |old(view).children| == |view.children|
      ensures view == MakeRoom(cmp, old(view), i, key, height) && Shape(view, height)
    {
      hide Family, Below, Shows, Shape, Contents, MakeRoom;
      ShapeBelow(view, i, height);
      PrivateChild(i, base);
      ShiftFromFull(i, key, cmp, base);
      MakeRoomContents(cmp, old(view), i, key, height);
      ShapeBelow(view, i, height);
      ChildSorted(cmp, view, i, height);
      OpenAt(i, i, base);
    }

    /** `set` */
    method Set(key: K, tree: BTreeSet<K>, ghost base: set<Node<K>>) returns (result: Node?<K>)
      requires Valid(base) && Frozen(base) && Shape(view, height) && (internal ==> keys != [])
      requires TotalOrder(tree.comparator) && Sorted(tree.comparator, Contents(view))
      modifies own, base`isShared, tree`size
      ensures DidSet(SetNode(tree.comparator, old(view), key, height), result, height, tree, base)
      decreases height, 4
    {
      KeysSorted(tree.comparator, view, height);
      if !internal {
        result := SetLeaf(key, tree, base);
      } else {
        result := SetInternal(key, tree, base);
      }
    }

    /** Recurse into child `i`, then deal with its split. */
    method SetFrom(i: nat, key: K, tree: BTreeSet<K>, ghost base: set<Node<K>>) returns (result: Node?<K>)
      requires Ready(i, tree.comparator, base) && TotalOrder(tree.comparator)
      modifies own, base`isShared, tree`size
      ensures DidSet(SetAt(tree.comparator, old(view), i, key, height), result, height, tree, base)
      decreases height, 2
    {
      hide Family, Below, Shows, Contents, AdoptSplit, SetNode, Frozen;
      ghost var r := SetNode(tree.comparator, view.children[i], key, height - 1);
      result := SetInChild(i, key, tree, base);
      if result != null {
        result := AdoptRight(i, result, tree.comparator, r.added, base);
      }
    }

    /** Choose the child for the key, and prepare it. */
    method Descend(key: K, cmp: (K, K) -> int, ghost base: set<Node<K>>) returns (i: nat)
      requires Valid(base) && Frozen(base) && Shape(view, height) && internal && keys != []
      requires TotalOrder(cmp) && Sorted(cmp, Contents(view)) && Sorted(cmp, keys)
      modifies own, base`isShared
      ensures Ready(i, cmp, base) && Grown(base) && fresh(own - old(own))
      ensures SetNode(cmp, old(view), key, height) == SetAt(cmp, view, i, key, height)
    {
      hide Family, Below, Shows, Shape, Contents, MakeRoom, SetAt, SetNode, Frozen;
      SetNodeStep(cmp, view, key, height);
      i := ChooseChild(key, cmp, base);
      EnterChild(i, key, cmp, base);
    }

    method ChooseChild(key: K, cmp: (K, K) -> int, ghost base: set<Node<K>>) returns (i: nat)
      requires Valid(base) && Shape(view, height) && internal && keys != [] && TotalOrder(cmp) && Sorted(cmp, keys)
      ensures i < |children| && i == ChildIndex(cmp, view, key)
    {
      hide Family, Below, Shows, Shape;
      ShapeBelow(view, 0, height);
      i := IndexOf(key, keys, 0, cmp);
      i := if i < |children| - 1 then i else |children| - 1;
    }

    method SetInternal(key: K, tree: BTreeSet<K>, ghost base: set<Node<K>>) returns (result: Node?<K>)
      requires Valid(base) && Frozen(base) && Shape(view, height) && internal && keys != []
      requires TotalOrder(tree.comparator) && Sorted(tree.comparator, Contents(view)) && Sorted(tree.comparator, keys)
      modifies own, base`isShared, tree`size
      ensures DidSet(SetNode(tree.comparator, old(view), key, height), result, height, tree, base)
      decreases height, 3
    {
      hide Family, Below, Shows, Shape, Contents, SetAt, SetNode, Frozen, Ready;
      var i := Descend(key, tree.comparator, base);
      result := SetFrom(i, key, tree, base);
    }

    // ----- merging

    /** The children of the shared node `rhs` are about to be reached from this node too. */
    method MarkBelow(rhs: Node<K>, ghost base: set<Node<K>>)
      requires Valid(base) && Frozen(base) && internal && rhs in base && rhs.internal && rhs.height == height
      modifies base`isShared
      ensures Valid(base) && Frozen(base) && Grown(base)
      ensures rhs.view.Inner? && Family(rhs.children, rhs.view.children, height - 1, base) && Below(rhs.children) == {}
    {
      hide Family, Below, Shows;
      rhs.MarkChildren(base);
      hide Frozen;
      SteadyNode(this, base);
      AllShared(rhs.children, rhs.view.children, height - 1, base);
    }

    /** Move the entries of `rhs` into this node. */
    method Append(rhs: Node<K>, ghost base: set<Node<K>>)
      requires Valid(base) && Frozen(base) && internal && height == rhs.height && rhs.internal
      requires rhs.keys == rhs.view.keys && rhs.view.Inner? && |rhs.children| == |rhs.view.children|
      requires if rhs.isShared then rhs in base else rhs.Valid(base) && own !! rhs.own
      modifies this, base`isShared
      ensures Valid(base) && Frozen(base) && Grown(base)
      ensures own <= old(own) + old(OwnOf(rhs))
      ensures view == Inner(old(keys) + old(rhs.keys), old(view).children + old(rhs.view).children)
    {
      hide Family, Below, Shows, Frozen;
      if rhs.isShared {
        MarkBelow(rhs, base);
      }
      FamilyMembers(children, view.children, height - 1, base);
      FamilyJoin(children, view.children, rhs.children, rhs.view.children, height - 1, base);
      Settle(keys + rhs.keys, children + rhs.children, view.children + rhs.view.children, null, base);
    }

    /** `mergeSibling` */
    method MergeSibling(rhs: Node<K>, ghost base: set<Node<K>>)
      requires Valid(base) && Frozen(base) && height == rhs.height
      requires Shape(view, height) && Shape(rhs.view, height) && view.keys != [] && rhs.view.keys != []
      requires |view.keys| + |rhs.view.keys| <= MAX_NODE_SIZE
      requires if rhs.isShared then rhs in base else rhs.Valid(base) && own !! rhs.own
      modifies own, OwnOf(rhs), base`isShared
      ensures Valid(base) && Frozen(base) && Grown(base)
      ensures forall m :: m in own ==> m in old(own) + old(OwnOf(rhs)) || !old(allocated(m))
      ensures view == BTreeModel.MergeSibling(old(view), old(rhs.view), height)
      decreases height, 4
    {
      assert rhs.view.keys == rhs.keys && rhs.view.Inner? == rhs.internal;
      assert rhs.internal ==> |rhs.children| == |rhs.view.children|;
      if internal {
        MergeInternal(rhs, base);
      } else {
        keys := keys + rhs.keys;
        view := Tree.Leaf(keys);
      }
    }

    method MergeInternal(rhs: Node<K>, ghost base: set<Node<K>>)
      requires Valid(base) && Frozen(base) && internal && height == rhs.height && rhs.internal
      requires Shape(view, height) && Shape(rhs.view, height) && view.keys != [] && rhs.view.keys != []
      requires |view.keys| + |rhs.view.keys| <= MAX_NODE_SIZE
      requires rhs.keys == rhs.view.keys && rhs.view.Inner? && |rhs.children| == |rhs.view.children|
      requires if rhs.isShared then rhs in base else rhs.Valid(base) && own !! rhs.own
      modifies own, OwnOf(rhs), base`isShared
      ensures Valid(base) && Frozen(base) && Grown(base)
      ensures forall m :: m in own ==> m in old(own) + old(OwnOf(rhs)) || !old(allocated(m))
      ensures view == BTreeModel.MergeSibling(old(view), old(rhs.view), height)
      decreases height, 3
    {
      hide Family, Below, Shows, Frozen, BTreeModel.TryMerge;
      var oldLength := |keys|;
      Append(rhs, base);
      TryMerge(oldLength - 1, base);
    }

    /** Child `i` takes in its right sibling. */
    method MergeInto(i: nat, ghost base: set<Node<K>>)
      requires Valid(base) && Frozen(base) && internal && i + 1 < |children| == |view.children|
      requires Slots(view.keys, view.children, height - 1) && !children[i].isShared
      requires |view.children[i].keys| + |view.children[i + 1].keys| <= MAX_NODE_SIZE
      modifies own, base`isShared
      ensures unchanged(this) && Frozen(base) && Grown(base)
      ensures var c := children[i];
        && c.height == height - 1 && c.Valid(base) && Open(children, view.children, i, i + 1, c.own, base)
        && c.view == BTreeModel.MergeSibling(old(view).children[i], old(view).children[i + 1], height - 1)
      ensures forall m :: m in children[i].own + BelowBut(children, i, i + 1) ==> m in old(own) || !old(allocated(m))
      decreases height, 1
    {
      hide Family, FamilyBut, Below, BelowBut, Shows, BTreeModel.MergeSibling;
      OpenAt(i, i + 1, base);
      var child, rhs := children[i], children[i + 1];
      ghost var part := OwnOf(child) + OwnOf(rhs);
      child.MergeSibling(rhs, base);
      StillOpen(this, children, view.children, view.children, i, i + 1, part, child.own, {}, base);
    }

    /** `tryMerge` */
    method TryMerge(i: nat, ghost base: set<Node<K>>)
      requires Valid(base) && Frozen(base) && internal && Slots(view.keys, view.children, height - 1) && i < |keys|
      modifies own, base`isShared
      ensures Valid(base) && Frozen(base) && Grown(base) && fresh(own - old(own))
      ensures view == BTreeModel.TryMerge(old(view), i, height)
      decreases height, 2
    {
      hide Family, FamilyBut, Below, BelowBut, Shows, BTreeModel.MergeSibling;
      ChildKeys(base);
      if i + 1 < |children| && |children[i].keys| + |children[i + 1].keys| <= MAX_NODE_SIZE {
        PrivateChild(i, base);
        MergeInto(i, base);
        StoreMerged(Splice(keys, i, 2, [children[i].MaxKey()]), i, view.children, base);
      }
    }

    // ----- delete

    /** What the methods of `delete` promise: the function of BTreeModel, on private nodes only. */
    twostate predicate DidDelete(r: (Tree<K>, bool), found: bool, tree: BTreeSet<K>, base: set<Node<K>>)
      reads this, own, base, tree
    {
      && Valid(base) && Frozen(base) && Grown(base)
      && (forall m :: m in own ==> m in old(own) || !old(allocated(m)))
      && view == r.0 && found == r.1
      && tree.size == old(tree.size) - (if r.1 then 1 else 0)
    }

    method DeleteLeaf(key: K, tree: BTreeSet<K>, ghost base: set<Node<K>>) returns (found: bool)
      requires Valid(base) && Frozen(base) && !internal && Shape(view, 0)
      requires TotalOrder(tree.comparator) && Sorted(tree.comparator, keys)
      modifies this, tree`size
      ensures DidDelete(DeleteNode(tree.comparator, old(view), key, 0), found, tree, base)
    {
      hide LowerBound, Splice, BTreeModel.CleanUp, Dent;
      var i := IndexOf(key, keys, -1, tree.comparator);
      if i < 0 {
        return false;
      }
      keys := Splice(keys, i, 1, []);
      view := Tree.Leaf(keys);
      tree.size := tree.size - 1;
      return true;
    }

    /** The recursive call of `delete` on child `i`: the other children are left alone. */
    method DeleteChild(i: nat, key: K, tree: BTreeSet<K>, ghost rest: set<Node<K>>, ghost base: set<Node<K>>)
      returns (found: bool)
      requires i < |children| && children[i].Valid(base) && Frozen(base) && this !in children[i].own + base
      requires Shape(children[i].view, children[i].height) && rest !! children[i].own + base
      requires TotalOrder(tree.comparator) && Sorted(tree.comparator, Contents(children[i].view))
      modifies children[i].own, base`isShared, tree`size
      ensures unchanged(this) && Intact(rest)
      ensures children[i].DidDelete(DeleteNode(tree.comparator, old(children[i].view), key, children[i].height), found, tree,
                                    base)
      decreases children[i].height, 6
    {
      hide DeleteNode, Contents, Shape, Frozen, Valid;
      found := children[i].Delete(key, tree, base);
    }

    /** The recursive call of `delete` on child `i`. */
    method DeleteBelow(i: nat, key: K, tree: BTreeSet<K>, ghost base: set<Node<K>>) returns (found: bool)
      requires Ready(i, tree.comparator, base) && TotalOrder(tree.comparator)
      modifies own, base`isShared, tree`size
      ensures unchanged(this)
      ensures children[i].height == height - 1 && old(children[i].own) <= old(own)
      ensures children[i].DidDelete(DeleteNode(tree.comparator, old(view).children[i], key, height - 1), found, tree, base)
      ensures var c, bb := children[i], BelowBut(children, i, i);
        && bb == old(BelowBut(children, i, i)) && bb <= old(own)
        && Open(children, view.children[i := c.view], i, i, c.own + c.own, base)
      decreases height, 0
    {
      hide Family, FamilyBut, Below, BelowBut, Shows, DeleteNode, Contents, Shape, Frozen, Ready;
      Unready(i, tree.comparator, base);
      ShapeBelow(view, i, height);
      OpenAt(i, i, base);
      var child := children[i];
      ghost var was, part := view.children, child.own;
      found := DeleteChild(i, key, tree, BelowBut(children, i, i), base);
      StillOpen(this, children, was, was[i := child.view], i, i, part, child.own + child.own, {}, base);
    }

    /** The recursive call of `delete` on child `i`, and the new key cache. */
    method DeleteInChild(i: nat, key: K, tree: BTreeSet<K>, ghost base: set<Node<K>>) returns (found: bool)
      requires Ready(i, tree.comparator, base) && TotalOrder(tree.comparator)
      modifies own, base`isShared, tree`size
      ensures DidDelete(DentedAt(tree.comparator, old(view), i, key, height), found, tree, base)
      decreases height, 1
    {
      hide Family, FamilyBut, Below, BelowBut, Shows, DeleteNode, Contents, Shape, Open;
      found := DeleteBelow(i, key, tree, base);
      // An empty child has no greatest key; its slot is removed by the clean-up that follows.
      var newKeys := if children[i].keys == [] then keys else keys[i := children[i].MaxKey()];
      Store(newKeys, children, view.children[i := children[i].view], i, i, null, base);
    }

    /** One step of the scan for children to merge or drop. */
    method MergeStep(i: nat, ghost base: set<Node<K>>)
      requires Valid(base) && Frozen(base) && Dented(view, i, height) && i < |children|
      modifies own, base`isShared
      ensures Valid(base) && Frozen(base) && Grown(base) && fresh(own - old(own))
      ensures view == BTreeModel.MergeStep(old(view), i, height)
    {
      hide Family, Below, Shows, Splice, BTreeModel.TryMerge;
      ChildKeys(base);
      if |children[i].keys| <= MAX_NODE_SIZE / 2 {
        if |children[i].keys| != 0 {
          TryMerge(i, base);
        } else {
          StoreDropped(Splice(keys, i, 1, []), i, base);
        }
      }
    }

    method CleanUp(i: nat, ghost base: set<Node<K>>)
      requires Valid(base) && Frozen(base) && Dented(view, i, height)
      modifies own, base`isShared
      ensures Valid(base) && Frozen(base) && Grown(base) && fresh(own - old(own))
      ensures view == BTreeModel.CleanUp(old(view), i, height)
    {
      hide Family, Below, Shows, BTreeModel.MergeStep, Frozen;
      MergeStep(i, base);
      if i > 0 {
        MergeStep(i - 1, base);
      }
    }

    /** Recurse into child `i`, then clean up. */
    method DeleteFrom(i: nat, key: K, tree: BTreeSet<K>, ghost base: set<Node<K>>) returns (found: bool)
      requires Ready(i, tree.comparator, base) && TotalOrder(tree.comparator)
      modifies own, base`isShared, tree`size
      ensures DidDelete(DeletedAt(tree.comparator, old(view), i, key, height), found, tree, base)
      decreases height, 2
    {
      hide Family, Below, Shows, Contents, DentedAt, BTreeModel.CleanUp, Frozen, Valid;
      found := DeleteInChild(i, key, tree, base);
      CleanUp(i, base);
    }

    /** Make the key's child private. */
    method Approach(i: nat, key: K, cmp: (K, K) -> int, ghost base: set<Node<K>>)
      requires Valid(base) && Frozen(base) && Shape(view, height) && internal && i < |keys|
      requires i == LowerBound(cmp, keys, key) && Sorted(cmp, Contents(view))
      modifies this, base`isShared
      ensures Ready(i, cmp, base) && Grown(base) && fresh(own - old(own)) && view == old(view)
    {
      hide Family, Below, Shows, Shape, Contents;
      ShapeBelow(view, i, height);
      ChildSorted(cmp, view, i, height);
      PrivateChild(i, base);
      OpenAt(i, i, base);
    }

    method DeleteAt(i: nat, key: K, tree: BTreeSet<K>, ghost base: set<Node<K>>) returns (found: bool)
      requires Valid(base) && Frozen(base) && Shape(view, height) && internal && i < |keys|
      requires TotalOrder(tree.comparator) && Sorted(tree.comparator, Contents(view))
      requires i == LowerBound(tree.comparator, keys, key) && i < |view.children|
      modifies own, base`isShared, tree`size
      ensures DidDelete(DeletedAt(tree.comparator, old(view), i, key, height), found, tree, base)
      decreases height, 3
    {
      hide Family, Below, Shows, Shape, Contents, DeletedAt, Frozen, Ready, LowerBound;
      Approach(i, key, tree.comparator, base);
      found := DeleteFrom(i, key, tree, base);
    }

    method DeleteInternal(key: K, tree: BTreeSet<K>, ghost base: set<Node<K>>) returns (found: bool)
      requires Valid(base) && Frozen(base) && Shape(view, height) && internal
      requires TotalOrder(tree.comparator) && Sorted(tree.comparator, Contents(view)) && Sorted(tree.comparator, keys)
      modifies own, base`isShared, tree`size
      ensures DidDelete(DeleteNode(tree.comparator, old(view), key, height), found, tree, base)
      decreases height, 4
    {
      hide Family, Below, Shows, Shape, Contents, DeleteNode, DeletedAt, Frozen, LowerBound;
      DeleteNodeStep(tree.comparator, view, key, height);
      var i := IndexOf(key, keys, 0, tree.comparator);
      if i >= |keys| {
        found := NotHere(tree, base);
      } else {
        found := DeleteAt(i, key, tree, base);
      }
    }

    method NotHere(tree: BTreeSet<K>, ghost base: set<Node<K>>) returns (found: bool)
      requires Valid(base) && Frozen(base)
      ensures DidDelete((old(view), false), found, tree, base)
    {
      hide Family, Below, Shows;
      found := false;
    }

    /** `delete` */
    method Delete(key: K, tree: BTreeSet<K>, ghost base: set<Node<K>>) returns (found: bool)
      requires Valid(base) && Frozen(base) && Shape(view, height)
      requires TotalOrder(tree.comparator) && Sorted(tree.comparator, Contents(view))
      modifies own, base`isShared, tree`size
      ensures DidDelete(DeleteNode(tree.comparator, old(view), key, height), found, tree, base)
      decreases height, 5
    {
      hide DeleteNode, Shape, Contents;
      KeysSorted(tree.comparator, view, height);
      if internal {
        found := DeleteInternal(key, tree, base);
      } else {
        found := DeleteLeaf(key, tree, base);
      }
    }

    function MaxKey(): K
      requires keys != []
      reads this
    {
      keys[|keys| - 1]
    }
  }

  lemma SetNodeStep<K>(cmp: (K, K) -> int, t: Tree<K>, key: K, height: nat)
    requires Shape(t, height) && t.Inner? && t.keys != []
    ensures var i := ChildIndex(cmp, t, key); var roomy := MakeRoom(cmp, t, i, key, height);
      && i < |roomy.children|
      && SetNode(cmp, t, key, height) == SetAt(cmp, roomy, i, key, height)
  {
    hide MakeRoom, SetAbove;
  }

  /** The node after the recursive call of `set` on child `i`; the child's new sibling is yet to be placed. */
  ghost function FilledAt<K>(cmp: (K, K) -> int, t: Tree<K>, i: nat, key: K, height: nat): (r: SetResult<K>)
    requires Shape(t, height) && t.Inner? && i < |t.keys|
    ensures Shape(r.node, height) && r.node.Inner? && |r.node.keys| == |t.keys|
    ensures r.right.Some? ==> Shape(r.right.value, height - 1) && r.right.value.keys != []
  {
    hide SetNode, Fill;
    var r := SetNode(cmp, t.children[i], key, height - 1);
    SetResult(Fill(t, i, r.node, height), r.right, r.added)
  }

  /** The node after `set` on child `i`. */
  ghost function SetAt<K>(cmp: (K, K) -> int, t: Tree<K>, i: nat, key: K, height: nat): SetResult<K>
    requires Shape(t, height) && t.Inner? && i < |t.keys|
  {
    SetAbove(cmp, t, i, SetNode(cmp, t.children[i], key, height - 1), height)
  }

  lemma DeleteNodeStep<K>(cmp: (K, K) -> int, t: Tree<K>, key: K, height: nat)
    requires Shape(t, height) && t.Inner?
    ensures |t.keys| == |t.children|
    ensures var i := LowerBound(cmp, t.keys, key);
      DeleteNode(cmp, t, key, height) == if i >= |t.keys| then (t, false) else DeletedAt(cmp, t, i, key, height)
  {
    hide CleanUp, Dent;
  }

  /** The node after the recursive call of `delete` on child `i`, and whether the key was found. */
  ghost function DentedAt<K>(cmp: (K, K) -> int, t: Tree<K>, i: nat, key: K, height: nat): (r: (Tree<K>, bool))
    requires Shape(t, height) && t.Inner? && i < |t.children|
    ensures Dented(r.0, i, height)
  {
    var r := DeleteNode(cmp, t.children[i], key, height - 1);
    (Dent(t, i, r.0, height), r.1)
  }

  /** The same after the clean-up. */
  ghost function DeletedAt<K>(cmp: (K, K) -> int, t: Tree<K>, i: nat, key: K, height: nat): (Tree<K>, bool)
    requires Shape(t, height) && t.Inner? && i < |t.children|
  {
    var r := DentedAt(cmp, t, i, key, height);
    (CleanUp(r.0, i, height), r.1)
  }

  lemma ShapeBelow<K>(t: Tree<K>, i: nat, height: nat)
    requires Shape(t, height) && t.Inner? && (i < |t.keys| || i < |t.children|)
    ensures |t.keys| == |t.children| && Shape(t.children[i], height - 1)
    ensures t.children[i].keys != [] && t.keys[i] == BTreeModel.MaxKey(t.children[i])
    ensures |t.children[i].keys| <= MAX_NODE_SIZE
  {
  }

  // ----- lists of children

  /** The exclusively owned nodes below a list of children. */
  ghost function Below<K(!new)>(kids: seq<Node<K>>): set<Node<K>>
    reads kids
  {
    set i, m | 0 <= i < |kids| && !kids[i].isShared && m in kids[i].own :: m
  }

  ghost predicate Shows<K(!new)>(kids: seq<Node<K>>, views: seq<Tree<K>>, height: nat)
    reads kids
  {
    && |kids| == |views|
    && forall i :: 0 <= i < |kids| ==> kids[i].view == views[i] && kids[i].height == height
  }

  /** Children of an owned node and their trees: each child is shared and frozen, or owned apart from the others. */
  ghost predicate Family<K(!new)>(kids: seq<Node<K>>, views: seq<Tree<K>>, height: nat, base: set<Node<K>>)
    reads kids, base, Below(kids)
    decreases height, 1
  {
    && Shows(kids, views, height)
    && (forall i :: 0 <= i < |kids| ==>
          if kids[i].isShared then kids[i] in base else kids[i].own <= Below(kids) && kids[i].Valid(base))
    && (forall i, j :: 0 <= i < j < |kids| && !kids[i].isShared && !kids[j].isShared ==> kids[i].own !! kids[j].own)
  }

  lemma FamilyMembers<K(!new)>(kids: seq<Node<K>>, views: seq<Tree<K>>, height: nat, base: set<Node<K>>)
    requires Family(kids, views, height, base)
    ensures forall i :: 0 <= i < |kids| ==> kids[i] in Below(kids) + base
    ensures |kids| == |views|
  {
    hide Node.Valid;
    forall i | 0 <= i < |kids| && !kids[i].isShared ensures kids[i] in kids[i].own { kids[i].Opened(base); }
  }

  lemma BelowJoin<K(!new)>(a: seq<Node<K>>, b: seq<Node<K>>)
    ensures Below(a + b) == Below(a) + Below(b)
  {
    hide Node.Valid;
    var c := a + b;
    forall m | m in Below(c) ensures m in Below(a) + Below(b) {
      var i :| 0 <= i < |c| && !c[i].isShared && m in c[i].own;
      if i < |a| { assert c[i] == a[i]; } else { assert c[i] == b[i - |a|]; }
    }
    forall m | m in Below(a) + Below(b) ensures m in Below(c) {
      if m in Below(a) {
        var i :| 0 <= i < |a| && !a[i].isShared && m in a[i].own;
        assert c[i] == a[i];
      } else {
        var i :| 0 <= i < |b| && !b[i].isShared && m in b[i].own;
        assert c[|a| + i] == b[i];
      }
    }
  }

  lemma FamilyJoin<K(!new)>(a: seq<Node<K>>, va: seq<Tree<K>>, b: seq<Node<K>>, vb: seq<Tree<K>>, height: nat,
                            base: set<Node<K>>)
    requires Family(a, va, height, base) && Family(b, vb, height, base) && Below(a) !! Below(b)
    ensures Family(a + b, va + vb, height, base) && Below(a + b) == Below(a) + Below(b)
  {
    hide Node.Valid;
    BelowJoin(a, b);
    var c := a + b;
    forall i, j | 0 <= i < j < |c| && !c[i].isShared && !c[j].isShared ensures c[i].own !! c[j].own {
      if i < |a| <= j {
        assert c[i] == a[i] && a[i].own <= Below(a);
        assert c[j] == b[j - |a|] && b[j - |a|].own <= Below(b);
      } else if j >= |a| {
        assert c[i] == b[i - |a|] && c[j] == b[j - |a|];
      }
    }
  }

  lemma FamilySplit<K(!new)>(kids: seq<Node<K>>, views: seq<Tree<K>>, i: nat, height: nat, base: set<Node<K>>)
    requires Family(kids, views, height, base) && i <= |kids| == |views|
    ensures Family(kids[..i], views[..i], height, base) && Family(kids[i..], views[i..], height, base)
    ensures Below(kids[..i]) !! Below(kids[i..]) && Below(kids) == Below(kids[..i]) + Below(kids[i..])
  {
    hide Node.Valid;
    var a, b := kids[..i], kids[i..];
    BelowJoin(a, b);
    assert kids == a + b;
    assert forall j :: 0 <= j < |a| ==> kids[j] == a[j];
    assert forall j :: 0 <= j < |b| ==> kids[i + j] == b[j];
    assert forall j :: 0 <= j < |views[i..]| ==> views[i + j] == views[i..][j];
  }

  /** The first member of `b` moves to the end of `a`. */
  lemma FirstMoves<K(!new)>(a: seq<Node<K>>, va: seq<Tree<K>>, b: seq<Node<K>>, vb: seq<Tree<K>>, height: nat,
                            base: set<Node<K>>)
    requires Family(a, va, height, base) && Family(b, vb, height, base) && Below(a) !! Below(b)
    requires |b| == |vb| > 0
    ensures var (a', b') := (a + [b[0]], b[1..]);
      && Family(a', va + [vb[0]], height, base) && Family(b', vb[1..], height, base)
      && Below(a') !! Below(b') && Below(a') + Below(b') == Below(a) + Below(b)
      && (forall i :: 0 <= i < |a'| ==> a'[i] in Below(a') + base)
      && (forall i :: 0 <= i < |b'| ==> b'[i] in Below(b') + base)
      && |a'| == |va + [vb[0]]|
  {
    hide Family, Below, Shows;
    FamilySplit(b, vb, 1, height, base);
    FamilyJoin(a, va, b[..1], vb[..1], height, base);
    assert b[..1] == [b[0]] && vb[..1] == [vb[0]];
    FamilyMembers(a + [b[0]], va + [vb[0]], height, base);
    FamilyMembers(b[1..], vb[1..], height, base);
  }

  /** The last member of `a` moves to the front of `b`. */
  lemma LastMoves<K(!new)>(a: seq<Node<K>>, va: seq<Tree<K>>, n: nat, b: seq<Node<K>>, vb: seq<Tree<K>>, height: nat,
                           base: set<Node<K>>)
    requires Family(a, va, height, base) && Family(b, vb, height, base) && Below(a) !! Below(b)
    requires |a| == |va| == n + 1
    ensures var (a', b') := (a[..n], [a[n]] + b);
      && Family(a', va[..n], height, base) && Family(b', [va[n]] + vb, height, base)
      && Below(a') !! Below(b') && Below(a') + Below(b') == Below(a) + Below(b)
      && (forall i :: 0 <= i < |a'| ==> a'[i] in Below(a') + base)
      && (forall i :: 0 <= i < |b'| ==> b'[i] in Below(b') + base)
      && |b'| == |[va[n]] + vb|
  {
    hide Family, Below, Shows;
    var (c, vc) := (a[n..], va[n..]);
    FamilySplit(a, va, n, height, base);
    FamilyJoin(c, vc, b, vb, height, base);
    assert c == [a[n]] && vc == [va[n]];
    FamilyMembers([a[n]] + b, [va[n]] + vb, height, base);
    FamilyMembers(a[..n], va[..n], height, base);
  }

  /** A family with `n` members from index `i` on replaced by another family. */
  lemma FamilyPut<K(!new)>(kids: seq<Node<K>>, views: seq<Tree<K>>, i: nat, n: nat, mid: seq<Node<K>>, vmid: seq<Tree<K>>,
                           height: nat, base: set<Node<K>>)
    requires i + n <= |kids| == |views|
    requires Family(kids[..i], views[..i], height, base) && Family(kids[i + n..], views[i + n..], height, base)
    requires Family(mid, vmid, height, base)
    requires Below(kids[..i]) !! Below(mid) && Below(kids[i + n..]) !! Below(kids[..i]) + Below(mid)
    ensures var ks := Splice(kids, i, n, mid);
      && Family(ks, Splice(views, i, n, vmid), height, base)
      && Below(ks) == Below(kids[..i]) + Below(mid) + Below(kids[i + n..])
      && |ks| == |Splice(views, i, n, vmid)|
      && forall j :: 0 <= j < |ks| ==> ks[j] in Below(ks) + base
  {
    hide Family, Below, Shows;
    FamilyJoin(kids[..i], views[..i], mid, vmid, height, base);
    FamilyJoin(kids[..i] + mid, views[..i] + vmid, kids[i + n..], views[i + n..], height, base);
    FamilyMembers(Splice(kids, i, n, mid), Splice(views, i, n, vmid), height, base);
  }

  /** The members before `i`, the `n` members from `i` on, and the members after them. */
  lemma FamilyTake<K(!new)>(kids: seq<Node<K>>, views: seq<Tree<K>>, i: nat, n: nat, height: nat, base: set<Node<K>>)
    requires Family(kids, views, height, base) && i + n <= |kids| == |views|
    ensures Family(kids[..i], views[..i], height, base) && Family(kids[i + n..], views[i + n..], height, base)
    ensures Family(kids[i..i + n], views[i..i + n], height, base)
    ensures Below(kids) == Below(kids[..i]) + Below(kids[i..i + n]) + Below(kids[i + n..])
    ensures Below(kids[..i]) !! Below(kids[i..i + n]) && Below(kids[i + n..]) !! Below(kids[..i]) + Below(kids[i..i + n])
    ensures n == 0 ==> Below(kids[i..i + n]) == {}
  {
    assert Below<K>([]) == {};
    hide Family, Below, Shows;
    FamilySplit(kids, views, i, height, base);
    FamilySplit(kids[i..], views[i..], n, height, base);
    assert kids[i..][..n] == kids[i..i + n] && kids[i..][n..] == kids[i + n..];
    assert views[i..][..n] == views[i..i + n] && views[i..][n..] == views[i + n..];
    FamilyMembers(kids[..i], views[..i], height, base);
    FamilyMembers(kids[i + n..], views[i + n..], height, base);
  }

  /** The exclusively owned part of one child. */
  ghost function OwnOf<K(!new)>(n: Node<K>): set<Node<K>>
    reads n
  {
    if n.isShared then {} else n.own
  }

  lemma FamilyOne<K(!new)>(n: Node<K>, height: nat, base: set<Node<K>>)
    requires n.height == height && (if n.isShared then n in base else n.Valid(base))
    ensures Family([n], [n.view], height, base) && Below([n]) == if n.isShared then {} else n.own
  {
    hide Node.Valid;
    if !n.isShared { n.Opened(base); }
    assert [n][0] == n;
  }

  // ----- all children but two (or one, when i == j)

  ghost function BelowBut<K(!new)>(kids: seq<Node<K>>, i: nat, j: nat): set<Node<K>>
    reads kids
  {
    set k, m | 0 <= k < |kids| && k != i && k != j && !kids[k].isShared && m in kids[k].own :: m
  }

  ghost predicate FamilyBut<K(!new)>(kids: seq<Node<K>>, views: seq<Tree<K>>, i: nat, j: nat, height: nat, base: set<Node<K>>)
    reads kids, base, BelowBut(kids, i, j)
  {
    && |kids| == |views|
    && (forall k :: 0 <= k < |kids| && k != i && k != j ==> kids[k].view == views[k] && kids[k].height == height)
    && (forall k :: 0 <= k < |kids| && k != i && k != j ==>
          if kids[k].isShared then kids[k] in base
          else kids[k].own <= BelowBut(kids, i, j) && kids[k].Valid(base))
    && (forall k, l :: 0 <= k < l < |kids| && k != i && k != j && l != i && l != j ==>
          kids[k].isShared || kids[l].isShared || kids[k].own !! kids[l].own)
  }

  /** Set two children of a family aside. */
  lemma Aside<K(!new)>(kids: seq<Node<K>>, views: seq<Tree<K>>, i: nat, j: nat, height: nat, base: set<Node<K>>)
    requires Family(kids, views, height, base) && i < |kids| && j < |kids| && |kids| == |views|
    ensures FamilyBut(kids, views, i, j, height, base)
    ensures kids[i].height == height && kids[i].view == views[i]
    ensures kids[j].height == height && kids[j].view == views[j]
    ensures if kids[i].isShared then kids[i] in base else kids[i].Valid(base)
    ensures if kids[j].isShared then kids[j] in base else kids[j].Valid(base)
    ensures Below(kids) == BelowBut(kids, i, j) + OwnOf(kids[i]) + OwnOf(kids[j])
    ensures BelowBut(kids, i, j) !! OwnOf(kids[i]) + OwnOf(kids[j])
    ensures i != j ==> OwnOf(kids[i]) !! OwnOf(kids[j])
  {
    hide Node.Valid;
  }

  /** Put two children back in their places. */
  lemma Back<K(!new)>(kids: seq<Node<K>>, views: seq<Tree<K>>, i: nat, j: nat, height: nat, base: set<Node<K>>)
    requires FamilyBut(kids, views, i, j, height, base) && i < |kids| && j < |kids|
    requires kids[i].height == height && kids[i].view == views[i] && kids[i].Valid(base)
    requires kids[j].height == height && kids[j].view == views[j] && kids[j].Valid(base)
    requires BelowBut(kids, i, j) !! kids[i].own + kids[j].own
    requires i != j ==> kids[i].own !! kids[j].own
    ensures Family(kids, views, height, base)
    ensures Below(kids) == BelowBut(kids, i, j) + kids[i].own + kids[j].own
  {
    hide Node.Valid;
    kids[i].Opened(base);
    kids[j].Opened(base);
  }

  /** Put back the first of two neighbours; the second one is gone. */
  lemma Squeezed<K(!new)>(kids: seq<Node<K>>, views: seq<Tree<K>>, i: nat, height: nat, base: set<Node<K>>)
    requires i + 1 < |kids| && FamilyBut(kids, views, i, i + 1, height, base)
    requires kids[i].height == height && kids[i].Valid(base) && BelowBut(kids, i, i + 1) !! kids[i].own
    ensures var ks := Splice(kids, i, 2, [kids[i]]);
      && Family(ks, Splice(views, i, 2, [kids[i].view]), height, base)
      && Below(ks) == BelowBut(kids, i, i + 1) + kids[i].own
      && |ks| == |Splice(views, i, 2, [kids[i].view])|
  {
    hide Node.Valid;
    kids[i].Opened(base);
    var ks := Splice(kids, i, 2, [kids[i]]);
    assert forall k :: 0 <= k < |ks| ==> ks[k] == if k <= i then kids[k] else kids[k + 1];
    forall m | m in BelowBut(kids, i, i + 1) + kids[i].own ensures m in Below(ks) {
      if m in kids[i].own {
        assert ks[i] == kids[i];
      } else {
        var k :| 0 <= k < |kids| && k != i && k != i + 1 && !kids[k].isShared && m in kids[k].own;
        assert kids[k] == ks[if k < i then k else k - 1];
      }
    }
  }

  /** A child is gone. */
  lemma Dropped<K(!new)>(kids: seq<Node<K>>, views: seq<Tree<K>>, i: nat, height: nat, base: set<Node<K>>)
    requires i < |kids| && FamilyBut(kids, views, i, i, height, base)
    ensures var ks := Splice(kids, i, 1, []);
      && Family(ks, Splice(views, i, 1, []), height, base)
      && Below(ks) == BelowBut(kids, i, i)
      && |ks| == |Splice(views, i, 1, [])|
  {
    hide Node.Valid;
    var ks := Splice(kids, i, 1, []);
    assert forall k :: 0 <= k < |ks| ==> ks[k] == if k < i then kids[k] else kids[k + 1];
    forall m | m in BelowBut(kids, i, i) ensures m in Below(ks) {
      var k :| 0 <= k < |kids| && k != i && !kids[k].isShared && m in kids[k].own;
      assert kids[k] == ks[if k < i then k else k - 1];
    }
  }

  /** Shared children count for nothing in the footprint. */
  lemma AllShared<K(!new)>(kids: seq<Node<K>>, views: seq<Tree<K>>, height: nat, base: set<Node<K>>)
    requires Shows(kids, views, height) && forall i :: 0 <= i < |kids| ==> kids[i].isShared && kids[i] in base
    ensures Family(kids, views, height, base) && Below(kids) == {}
  {
    hide Node.Valid;
  }

  /** The others do not depend on what is stored at `i` and `j`. */
  lemma Others<K(!new)>(kids: seq<Node<K>>, views: seq<Tree<K>>, kids': seq<Node<K>>, views': seq<Tree<K>>,
                        i: nat, j: nat, height: nat, base: set<Node<K>>)
    requires FamilyBut(kids, views, i, j, height, base)
    requires |kids'| == |kids| && |views'| == |views|
    requires forall k :: 0 <= k < |kids| && k != i && k != j ==> kids'[k] == kids[k] && views'[k] == views[k]
    ensures FamilyBut(kids', views', i, j, height, base) && BelowBut(kids', i, j) == BelowBut(kids, i, j)
  {
    hide Node.Valid;
  }

  // ----- frozen nodes

  /** Nodes that nobody may change any more, except for marking them shared. */
  ghost predicate Frozen<K(!new)>(base: set<Node<K>>)
    reads base
  {
    forall n :: n in base ==> (forall i :: 0 <= i < |n.children| ==> n.children[i] in base) && n.Mirrors()
  }

  /** Marks are only ever added. */
  twostate predicate Grown<K(!new)>(base: set<Node<K>>)
    reads base
  {
    forall b :: b in base && old(b.isShared) ==> b.isShared
  }

  /** Frozen nodes stand for the same trees as before. */
  twostate predicate Kept<K(!new)>(base: set<Node<K>>)
    reads base
  {
    forall b :: b in base ==> b.view == old(b.view)
  }

  twostate predicate Intact<K(!new)>(nodes: set<Node<K>>)
    reads nodes
  {
    forall m :: m in nodes ==>
      m.keys == old(m.keys) && m.children == old(m.children) && m.isShared == old(m.isShared)
      && m.view == old(m.view) && m.own == old(m.own)
  }

  /** More frozen nodes do no harm, as long as they are not owned. */
  lemma {:induction false} ValidMore<K(!new)>(n: Node<K>, base: set<Node<K>>, extra: set<Node<K>>)
    requires n.Valid(base) && n.own !! extra
    ensures n.Valid(base + extra)
    decreases n.height, 0
  {
    if n.internal { FamilyMore(n.children, n.view.children, n.height - 1, base, extra); }
  }

  lemma {:induction false} FamilyMore<K(!new)>(kids: seq<Node<K>>, views: seq<Tree<K>>, height: nat, base: set<Node<K>>,
                                               extra: set<Node<K>>)
    requires Family(kids, views, height, base) && Below(kids) !! extra
    ensures Family(kids, views, height, base + extra)
    decreases height, 1
  {
    hide Node.Valid;
    forall i | 0 <= i < |kids| && !kids[i].isShared ensures kids[i].Valid(base + extra) {
      ValidMore(kids[i], base, extra);
    }
  }

  /** The nodes of a tree satisfy what is asked of frozen nodes, once they count as frozen. */
  lemma {:induction false} Freezing<K(!new)>(n: Node<K>, base: set<Node<K>>)
    requires n.Valid(base)
    ensures forall m :: m in n.own ==> m.Mirrors() && forall i :: 0 <= i < |m.children| ==> m.children[i] in n.own + base
    decreases n.height
  {
    forall m | m in n.own && m != n
      ensures m.Mirrors() && forall i :: 0 <= i < |m.children| ==> m.children[i] in n.own + base
    {
      var j :| 0 <= j < |n.children| && !n.children[j].isShared && m in n.children[j].own;
      Freezing(n.children[j], base);
    }
  }

  lemma FreezeAll<K(!new)>(n: Node<K>, base: set<Node<K>>)
    requires Frozen(base) && (if n.isShared then n in base else n.Valid(base))
    ensures Frozen(base + OwnOf(n))
  {
    if !n.isShared { Freezing(n, base); }
  }

  ghost predicate OwnsItself<K(!new)>(n: Node<K>, base: set<Node<K>>)
    requires n.Valid(base)
    reads n, n.own, base
    ensures OwnsItself(n, base)
  {
    n in n.own
  }

  /** A part of the tree that was not touched is still valid when marks were added to frozen nodes. */
  twostate lemma {:induction false} SteadyNode<K(!new)>(new n: Node<K>, new base: set<Node<K>>)
    requires old(allocated(n)) && old(allocated(base))
    requires old(n.Valid(base)) && Intact(old(n.own)) && Grown(base) && Kept(base)
    ensures n.Valid(base)
    decreases n.height, 0
  {
    hide Family, Below, Shows;
    if n.internal {
      SteadyFamily(n.children, n.view.children, n.height - 1, base);
    }
  }

  twostate lemma {:induction false} SteadyFamily<K(!new)>(new kids: seq<Node<K>>, new views: seq<Tree<K>>, new height: nat,
                                                        new base: set<Node<K>>)
    requires old(allocated(kids)) && old(allocated(views)) && old(allocated(base))
    requires old(Family(kids, views, height, base)) && Intact(old(Below(kids))) && Grown(base) && Kept(base)
    ensures Family(kids, views, height, base) && Below(kids) == old(Below(kids))
    decreases height, 1
  {
    hide Node.Valid;
    forall i | 0 <= i < |kids| ensures kids[i].isShared == old(kids[i].isShared) && kids[i].view == views[i]
    {
      if !old(kids[i].isShared) {
        assert old(OwnsItself(kids[i], base));
      }
    }
    forall i | 0 <= i < |kids| && !kids[i].isShared ensures kids[i].own == old(kids[i].own) && kids[i].Valid(base)
    {
      assert old(OwnsItself(kids[i], base) && kids[i].own <= Below(kids));
      SteadyNode(kids[i], base);
    }
  }

  twostate lemma SteadyOthers<K(!new)>(new kids: seq<Node<K>>, new views: seq<Tree<K>>, new i: nat, new j: nat, new height: nat,
                                       new base: set<Node<K>>)
    requires old(allocated(kids)) && old(allocated(views)) && old(allocated(base))
    requires old(FamilyBut(kids, views, i, j, height, base))
    requires Intact(old(BelowBut(kids, i, j))) && Grown(base) && Kept(base)
    ensures FamilyBut(kids, views, i, j, height, base) && BelowBut(kids, i, j) == old(BelowBut(kids, i, j))
    ensures |kids| == |views|
  {
    hide Node.Valid;
    forall k | 0 <= k < |kids| && k != i && k != j
      ensures kids[k].isShared == old(kids[k].isShared) && kids[k].view == views[k]
    {
      if !old(kids[k].isShared) {
        assert old(OwnsItself(kids[k], base));
      }
    }
    forall k | 0 <= k < |kids| && k != i && k != j && !kids[k].isShared
      ensures kids[k].own == old(kids[k].own) && kids[k].Valid(base)
    {
      assert old(OwnsItself(kids[k], base) && kids[k].own <= BelowBut(kids, i, j));
      SteadyNode(kids[k], base);
    }
  }

  twostate lemma BelowAllocated<K(!new)>(new kids: seq<Node<K>>, new i: nat, new j: nat)
    requires old(allocated(kids))
    ensures forall m :: m in old(BelowBut(kids, i, j)) ==> old(allocated(m))
  {
  }

  /** Two children of `n` have been worked on: their part may have exchanged nodes, or gained new ones. */
  twostate lemma StillOpen<K(!new)>(new n: Node<K>, new kids: seq<Node<K>>, new views: seq<Tree<K>>,
                                    new newViews: seq<Tree<K>>, new i: nat, new j: nat, new part: set<Node<K>>,
                                    new newPart: set<Node<K>>, new extra: set<Node<K>>, new base: set<Node<K>>)
    requires old(allocated(n)) && old(allocated(kids)) && old(allocated(views)) && old(allocated(part))
    requires old(allocated(base))
    requires old(n.Open(kids, views, i, j, part, base))
    requires n.isShared == old(n.isShared)
    requires Intact(old(BelowBut(kids, i, j))) && Grown(base) && Kept(base)
    requires forall m :: m in newPart || m in extra ==> m in part || !old(allocated(m))
    requires |newViews| == |views| && forall k :: 0 <= k < |views| && k != i && k != j ==> newViews[k] == views[k]
    ensures n.Open(kids, newViews, i, j, newPart, base) && BelowBut(kids, i, j) == old(BelowBut(kids, i, j))
    ensures extra !! {n} + BelowBut(kids, i, j)
  {
    hide FamilyBut, BelowBut;
    BelowAllocated(kids, i, j);
    SteadyOthers(kids, views, i, j, n.height - 1, base);
    Others(kids, views, kids, newViews, i, j, n.height - 1, base);
  }
}
