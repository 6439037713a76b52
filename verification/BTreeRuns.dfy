/**
 Runs over any number of sets that share nodes: changes and clones in any order. Each set holds what its own history of
 changes makes of the elements it started with, and a frozen node is read as the same tree for ever.
 */
module BTreeRuns {
  import opened Wrappers
  import opened SortedSet
  import opened BTreeModel
  import opened BTreeRefinement
  import opened BTreeHeap

  /** The `i`-th set is changed, or cloned; the clone becomes the last set. */
  datatype Step<K> = Changing(i: nat, change: Change<K>) | Cloning(i: nat)

  ghost function StepDone<K>(cmp: (K, K) -> int, lists: seq<seq<K>>, step: Step<K>): seq<seq<K>> {
    if step.i >= |lists| then lists else
    match step
    case Changing(i, change) => lists[i := Changed(cmp, lists[i], change)]
    case Cloning(i) => lists + [lists[i]]
  }

  ghost function RunDone<K>(cmp: (K, K) -> int, lists: seq<seq<K>>, steps: seq<Step<K>>): seq<seq<K>>
    decreases |steps|
  {
    if steps == [] then lists else RunDone(cmp, StepDone(cmp, lists, steps[0]), steps[1..])
  }

  ghost function ListsOf<K(!new)>(sets: seq<BTreeSet<K>>): (r: seq<seq<K>>)
    reads sets, set t | t in sets :: t.root
    ensures |r| == |sets|
  {
    seq(|sets|, i requires 0 <= i < |sets| reads sets, set t | t in sets :: t.root => sets[i].Elements())
  }

  /** All nodes that belong to the sets of the forest. */
  ghost function Territory<K(!new)>(forest: Forest<K>): set<Node<K>>
    reads forest, forest.trees, set t | t in forest.trees :: t.root
  {
    forest.frozen + set t, n | t in forest.trees && n in OwnOf(t.root) :: n
  }

  ghost predicate Ready<K(!new)>(forest: Forest<K>, cmp: (K, K) -> int, sets: seq<BTreeSet<K>>)
    reads forest, forest.frozen, forest.trees, set t | t in forest.trees :: t.root,
          set t, n | t in forest.trees && n in t.root.own :: n
  {
    && forest.Valid()
    && (forall i, j :: 0 <= i < j < |sets| ==> sets[i] != sets[j])
    && (forall t :: t in sets ==> t in forest.trees && t.forest == forest && t.comparator == cmp)
  }

  /** Nodes that were frozen still are, with the same keys and children. */
  twostate predicate StillFrozen<K(!new)>(forest: Forest<K>)
    reads forest, forest.frozen
  {
    && old(forest.frozen) <= forest.frozen
    && forall n :: n in old(forest.frozen) ==> n.keys == old(n.keys) && n.children == old(n.children) && n.view == old(n.view)
  }

  twostate predicate Others<K(!new)>(forest: Forest<K>, sets: seq<BTreeSet<K>>)
    reads forest, forest.trees, set u | u in forest.trees :: u.root
  {
    && old(forest.trees) <= forest.trees
    && forall u :: u in old(forest.trees) && u !in sets ==> u.Elements() == old(u.Elements())
  }

  /** The tree that a frozen node is read as, through the keys and children that are stored in it and below it. */
  ghost function ReadTree<K(!new)>(n: Node<K>, base: set<Node<K>>): Tree<K>
    requires n in base && Frozen(base)
    reads base
    decreases n.height, 1
  {
    if n.internal then Inner(n.keys, ReadTrees(n.children, n.height, base)) else Tree.Leaf(n.keys)
  }

  ghost function ReadTrees<K(!new)>(kids: seq<Node<K>>, height: nat, base: set<Node<K>>): (r: seq<Tree<K>>)
    requires Frozen(base) && forall i :: 0 <= i < |kids| ==> kids[i] in base && kids[i].height < height
    reads base
    ensures |r| == |kids| && forall i :: 0 <= i < |kids| ==> r[i] == ReadTree(kids[i], base)
    decreases height, 0, |kids|
  {
    if kids == [] then [] else [ReadTree(kids[0], base)] + ReadTrees(kids[1..], height, base)
  }

  lemma {:induction false} ReadsView<K(!new)>(n: Node<K>, base: set<Node<K>>)
    requires n in base && Frozen(base)
    ensures ReadTree(n, base) == n.view
    decreases n.height
  {
    if n.internal {
      forall i | 0 <= i < |n.children| ensures ReadTree(n.children[i], base) == n.view.children[i] {
        ReadsView(n.children[i], base);
      }
      assert ReadTree(n, base).children == n.view.children;
    }
  }

  lemma IsFrozen<K(!new)>(forest: Forest<K>, cmp: (K, K) -> int, sets: seq<BTreeSet<K>>)
    requires Ready(forest, cmp, sets)
    ensures Frozen(forest.frozen)
  {
  }

  lemma AllRead<K(!new)>(base: set<Node<K>>)
    requires Frozen(base)
    ensures forall n :: n in base ==> ReadTree(n, base) == n.view
  {
    forall n | n in base ensures ReadTree(n, base) == n.view { ReadsView(n, base); }
  }

  method ChangeStep<K(!new)>(forest: Forest<K>, cmp: (K, K) -> int, sets: seq<BTreeSet<K>>, i: nat, change: Change<K>)
    requires Ready(forest, cmp, sets) && i < |sets|
    modifies forest.trees, Territory(forest)
    ensures Ready(forest, cmp, sets) && forest.trees == old(forest.trees)
    ensures ListsOf(sets) == StepDone(cmp, old(ListsOf(sets)), Changing(i, change))
    ensures StillFrozen(forest) && Others(forest, sets)
    ensures forall n :: n in Territory(forest) ==> n in old(Territory(forest)) || fresh(n)
  {
    hide Changed, Contents, Forest.Valid;
    var t := sets[i];
    assert t in sets;
    forest.Apart(t);
    t.Apply(change);
  }

  method CloneStep<K(!new)>(forest: Forest<K>, cmp: (K, K) -> int, sets: seq<BTreeSet<K>>, i: nat)
    returns (more: seq<BTreeSet<K>>)
    requires Ready(forest, cmp, sets) && i < |sets|
    modifies forest, forest.trees, Territory(forest)
    ensures Ready(forest, cmp, more) && sets <= more && fresh(forest.trees - old(forest.trees))
    ensures ListsOf(more) == StepDone(cmp, old(ListsOf(sets)), Cloning(i))
    ensures forall t :: t in more ==> t in sets || t !in old(forest.trees)
    ensures StillFrozen(forest) && Others(forest, sets)
    ensures forall n :: n in Territory(forest) ==> n in old(Territory(forest)) || fresh(n)
  {
    hide Contents, Forest.Valid;
    var t := sets[i];
    assert t in sets;
    forest.Apart(t);
    var r := t.Clone();
    more := sets + [r];
  }

  method OneStep<K(!new)>(forest: Forest<K>, cmp: (K, K) -> int, sets: seq<BTreeSet<K>>, step: Step<K>)
    returns (more: seq<BTreeSet<K>>)
    requires Ready(forest, cmp, sets)
    modifies forest, forest.trees, Territory(forest)
    ensures Ready(forest, cmp, more) && sets <= more && fresh(forest.trees - old(forest.trees))
    ensures ListsOf(more) == StepDone(cmp, old(ListsOf(sets)), step)
    ensures StillFrozen(forest) && Others(forest, sets)
    ensures forall t :: t in more ==> t in sets || t !in old(forest.trees)
    ensures forall n :: n in Territory(forest) ==> n in old(Territory(forest)) || fresh(n)
  {
    hide Ready, ListsOf, Territory;
    more := sets;
    if step.i < |sets| {
      match step
      case Changing(i, change) => ChangeStep(forest, cmp, sets, i, change);
      case Cloning(i) => more := CloneStep(forest, cmp, sets, i);
    }
  }

  /** Any number of changes and clones, of any of the sets. */
  method Run<K(!new)>(forest: Forest<K>, cmp: (K, K) -> int, start: seq<BTreeSet<K>>, steps: seq<Step<K>>)
    returns (sets: seq<BTreeSet<K>>)
    requires Ready(forest, cmp, start)
    modifies forest, forest.trees, Territory(forest)
    ensures Ready(forest, cmp, sets) && start <= sets
    ensures ListsOf(sets) == RunDone(cmp, old(ListsOf(start)), steps)
    ensures StillFrozen(forest) && Others(forest, start)
    ensures forall n :: n in old(forest.frozen) ==> ReadTree(n, forest.frozen) == old(ReadTree(n, forest.frozen))
  {
    hide Ready, ListsOf, StepDone, Territory, ReadTree, Frozen;
    IsFrozen(forest, cmp, start);
    AllRead(forest.frozen);
    sets := start;
    for i := 0 to |steps|
      invariant Ready(forest, cmp, sets) && start <= sets
      invariant RunDone(cmp, ListsOf(sets), steps[i..]) == RunDone(cmp, old(ListsOf(start)), steps)
      invariant StillFrozen(forest) && Others(forest, start)
      invariant forall t :: t in forest.trees ==> t in old(forest.trees) || fresh(t)
      invariant forall t :: t in sets ==> t in start || t !in old(forest.trees)
      invariant forall n :: n in Territory(forest) ==> n in old(Territory(forest)) || fresh(n)
    {
      assert steps[i..][0] == steps[i] && steps[i..][1..] == steps[i + 1..];
      sets := OneStep(forest, cmp, sets, steps[i]);
    }
    IsFrozen(forest, cmp, sets);
    AllRead(forest.frozen);
  }
}
