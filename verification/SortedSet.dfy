/** A sorted set over an arbitrary comparator: the reference that the B+ tree must agree with. */
module SortedSet {

  ghost predicate AtMost<K>(cmp: (K, K) -> int, a: K, b: K) {
    cmp(a, b) <= 0
  }

  /** What the comparator must satisfy. Distinct keys may compare as equal (a total preorder). */
  ghost predicate TotalOrder<K(!new)>(cmp: (K, K) -> int) {
    && (forall a {:trigger AtMost(cmp, a, a)} :: AtMost(cmp, a, a))
    && (forall a, b {:trigger AtMost(cmp, a, b)} :: cmp(a, b) < 0 <==> cmp(b, a) > 0)
    && (forall a, b, c {:trigger AtMost(cmp, a, b), AtMost(cmp, b, c)} ::
          AtMost(cmp, a, b) && AtMost(cmp, b, c) ==> AtMost(cmp, a, c))
  }

  lemma Flip<K(!new)>(cmp: (K, K) -> int, a: K, b: K)
    requires TotalOrder(cmp)
    ensures cmp(a, b) < 0 <==> cmp(b, a) > 0
    ensures cmp(a, b) > 0 <==> cmp(b, a) < 0
  {
    assert AtMost(cmp, a, b) == (cmp(a, b) <= 0);
    assert AtMost(cmp, b, a) == (cmp(b, a) <= 0);
  }

  lemma Transitive<K(!new)>(cmp: (K, K) -> int, a: K, b: K, c: K)
    requires TotalOrder(cmp)
    requires cmp(a, b) <= 0 && cmp(b, c) <= 0
    ensures cmp(a, c) <= 0
    ensures cmp(a, b) < 0 || cmp(b, c) < 0 ==> cmp(a, c) < 0
  {
    Flip(cmp, a, b);
    Flip(cmp, b, c);
    Flip(cmp, a, c);
    assert AtMost(cmp, a, b) && AtMost(cmp, b, c);
    assert AtMost(cmp, a, c);
    assert AtMost(cmp, c, a) && AtMost(cmp, a, b) ==> AtMost(cmp, c, b);
    assert AtMost(cmp, b, c) && AtMost(cmp, c, a) ==> AtMost(cmp, b, a);
  }

  ghost predicate Rises<K>(cmp: (K, K) -> int, s: seq<K>, i: nat, j: nat)
    requires i < |s| && j < |s|
  {
    cmp(s[i], s[j]) < 0
  }

  /** Strictly increasing. (The trigger keeps the solver from comparing every pair of elements it has seen.) */
  ghost predicate Sorted<K>(cmp: (K, K) -> int, s: seq<K>) {
    forall i: nat, j: nat {:trigger Rises(cmp, s, i, j)} :: i < j < |s| ==> Rises(cmp, s, i, j)
  }

  lemma SortedPairs<K>(cmp: (K, K) -> int, s: seq<K>)
    ensures Sorted(cmp, s) <==> forall i, j :: 0 <= i < j < |s| ==> cmp(s[i], s[j]) < 0
  {
    if Sorted(cmp, s) {
      forall i, j | 0 <= i < j < |s| ensures cmp(s[i], s[j]) < 0 { assert Rises(cmp, s, i, j); }
    }
  }

  /** The index of the first element that is not below `key`, or |s|. */
  function LowerBound<K>(cmp: (K, K) -> int, s: seq<K>, key: K): (r: nat)
    ensures r <= |s|
    ensures forall i :: 0 <= i < r ==> cmp(s[i], key) < 0
    ensures r < |s| ==> cmp(s[r], key) >= 0
  {
    if s == [] || cmp(s[0], key) >= 0 then 0 else 1 + LowerBound(cmp, s[1..], key)
  }

  predicate Found<K>(cmp: (K, K) -> int, s: seq<K>, key: K) {
    var i := LowerBound(cmp, s, key);
    i < |s| && cmp(s[i], key) == 0
  }

  /** `s` with the `n` elements at index `i` replaced by `x`. */
  function Splice<K>(s: seq<K>, i: nat, n: nat, x: seq<K>): (r: seq<K>)
    requires i + n <= |s|
  {
    s[..i] + x + s[i + n..]
  }

  /** Adding a key: an equal element is overwritten, otherwise the key goes where the order wants it. */
  function Insert<K>(cmp: (K, K) -> int, s: seq<K>, key: K): seq<K> {
    Splice(s, LowerBound(cmp, s, key), if Found(cmp, s, key) then 1 else 0, [key])
  }

  function Remove<K>(cmp: (K, K) -> int, s: seq<K>, key: K): seq<K> {
    if Found(cmp, s, key) then Splice(s, LowerBound(cmp, s, key), 1, []) else s
  }

  /** Everything up to an element below `key` is below `key`. */
  lemma BelowAll<K(!new)>(cmp: (K, K) -> int, s: seq<K>, key: K, i: nat)
    requires TotalOrder(cmp) && Sorted(cmp, s)
    requires i < |s| && cmp(s[i], key) < 0
    ensures forall j :: 0 <= j <= i ==> cmp(s[j], key) < 0
  {
    forall j | 0 <= j < i ensures cmp(s[j], key) < 0 {
      assert Rises(cmp, s, j, i);
      Transitive(cmp, s[j], s[i], key);
    }
  }

  /** Everything after an element that is not below `key` is above `key`. */
  lemma AboveAll<K(!new)>(cmp: (K, K) -> int, s: seq<K>, key: K, i: nat)
    requires TotalOrder(cmp) && Sorted(cmp, s)
    requires i < |s| && cmp(s[i], key) >= 0
    ensures forall j :: i < j < |s| ==> cmp(s[j], key) > 0 && cmp(key, s[j]) < 0
  {
    forall j | i < j < |s| ensures cmp(s[j], key) > 0 && cmp(key, s[j]) < 0 {
      assert Rises(cmp, s, i, j);
      Flip(cmp, s[i], key);
      Transitive(cmp, key, s[i], s[j]);
      Flip(cmp, key, s[j]);
    }
  }

  lemma LowerBoundUnique<K(!new)>(cmp: (K, K) -> int, s: seq<K>, key: K, i: nat)
    requires TotalOrder(cmp) && Sorted(cmp, s)
    requires i <= |s|
    requires i > 0 ==> cmp(s[i - 1], key) < 0
    requires i < |s| ==> cmp(s[i], key) >= 0
    ensures LowerBound(cmp, s, key) == i
  {
    if i > 0 { BelowAll(cmp, s, key, i - 1); }
  }

  /** `key` is present exactly when some element compares as equal to it. */
  lemma FoundMeansPresent<K(!new)>(cmp: (K, K) -> int, s: seq<K>, key: K)
    requires TotalOrder(cmp) && Sorted(cmp, s)
    ensures Found(cmp, s, key) <==> exists x :: x in s && cmp(x, key) == 0
  {
    AboveLowerBound(cmp, s, key);
  }

  lemma SpliceMembers<K>(s: seq<K>, i: nat, n: nat, x: seq<K>)
    requires i + n <= |s|
    ensures forall y :: y in Splice(s, i, n, x) <==> y in s[..i] || y in x || y in s[i + n..]
    ensures forall y :: y in s <==> y in s[..i] || y in s[i..i + n] || y in s[i + n..]
  {
    assert s == s[..i] + s[i..i + n] + s[i + n..];
  }

  /** Around its lower bound, a sorted sequence falls into the keys below, the equal one if any, and the keys above. */
  lemma Around<K(!new)>(cmp: (K, K) -> int, s: seq<K>, key: K)
    requires TotalOrder(cmp) && Sorted(cmp, s)
    ensures var i := LowerBound(cmp, s, key); var n := if Found(cmp, s, key) then 1 else 0;
      && (forall y :: y in s[..i] ==> cmp(y, key) < 0)
      && (forall y :: y in s[i..i + n] ==> cmp(y, key) == 0)
      && (forall y :: y in s[i + n..] ==> cmp(y, key) > 0 && cmp(key, y) < 0)
  {
    AboveLowerBound(cmp, s, key);
    var i := LowerBound(cmp, s, key);
    if i < |s| { Flip(cmp, s[i], key); }
  }

  lemma SortedJoin<K>(cmp: (K, K) -> int, a: seq<K>, b: seq<K>)
    requires Sorted(cmp, a) && Sorted(cmp, b)
    requires forall x, y :: x in a && y in b ==> cmp(x, y) < 0
    ensures Sorted(cmp, a + b)
  {
    SortedPairs(cmp, a);
    SortedPairs(cmp, b);
    SortedPairs(cmp, a + b);
  }

  lemma SortedPart<K>(cmp: (K, K) -> int, s: seq<K>, i: nat, j: nat)
    requires Sorted(cmp, s) && i <= j <= |s|
    ensures Sorted(cmp, s[..i]) && Sorted(cmp, s[j..])
  {
    SortedPairs(cmp, s);
    SortedPairs(cmp, s[..i]);
    SortedPairs(cmp, s[j..]);
  }

  lemma InsertSorted<K(!new)>(cmp: (K, K) -> int, s: seq<K>, key: K)
    requires TotalOrder(cmp) && Sorted(cmp, s)
    ensures Sorted(cmp, Insert(cmp, s, key))
  {
    Around(cmp, s, key);
    var i, n := LowerBound(cmp, s, key), if Found(cmp, s, key) then 1 else 0;
    SortedPart(cmp, s, i, i + n);
    SortedJoin(cmp, s[..i], [key]);
    forall x, y | x in s[..i] + [key] && y in s[i + n..] ensures cmp(x, y) < 0 {
      if x != key { Transitive(cmp, x, key, y); }
    }
    SortedJoin(cmp, s[..i] + [key], s[i + n..]);
  }

  lemma RemoveSorted<K>(cmp: (K, K) -> int, s: seq<K>, key: K)
    requires Sorted(cmp, s)
    ensures Sorted(cmp, Remove(cmp, s, key))
  {
    SortedPairs(cmp, s);
    SortedPairs(cmp, Remove(cmp, s, key));
  }

  /** Insertion keeps the order, adds `key`, and touches no element that is not equal to `key`. */
  lemma InsertIsInsertion<K(!new)>(cmp: (K, K) -> int, s: seq<K>, key: K)
    requires TotalOrder(cmp) && Sorted(cmp, s)
    ensures Sorted(cmp, Insert(cmp, s, key))
    ensures forall x :: x in Insert(cmp, s, key) <==> x == key || (x in s && cmp(x, key) != 0)
    ensures |Insert(cmp, s, key)| == |s| + (if Found(cmp, s, key) then 0 else 1)
  {
    InsertSorted(cmp, s, key);
    Around(cmp, s, key);
    SpliceMembers(s, LowerBound(cmp, s, key), if Found(cmp, s, key) then 1 else 0, [key]);
    assert cmp(key, key) == 0 by { Flip(cmp, key, key); }
  }

  /** Removal keeps the order and removes exactly the elements equal to `key`. */
  lemma RemoveIsRemoval<K(!new)>(cmp: (K, K) -> int, s: seq<K>, key: K)
    requires TotalOrder(cmp) && Sorted(cmp, s)
    ensures Sorted(cmp, Remove(cmp, s, key))
    ensures forall x :: x in Remove(cmp, s, key) <==> x in s && cmp(x, key) != 0
    ensures |Remove(cmp, s, key)| == |s| - (if Found(cmp, s, key) then 1 else 0)
  {
    RemoveSorted(cmp, s, key);
    Around(cmp, s, key);
    SpliceMembers(s, LowerBound(cmp, s, key), if Found(cmp, s, key) then 1 else 0, []);
  }

  /** Everything after the lower bound is strictly above the key. */
  lemma AboveLowerBound<K(!new)>(cmp: (K, K) -> int, s: seq<K>, key: K)
    requires TotalOrder(cmp) && Sorted(cmp, s)
    ensures forall j :: LowerBound(cmp, s, key) < j < |s| ==> cmp(s[j], key) > 0 && cmp(key, s[j]) < 0
  {
    var r := LowerBound(cmp, s, key);
    if r < |s| { AboveAll(cmp, s, key, r); }
  }

  /** The key falls into the middle part of a + b + c. */
  ghost predicate Focus<K>(cmp: (K, K) -> int, a: seq<K>, b: seq<K>, c: seq<K>, key: K) {
    && Sorted(cmp, a + b + c)
    && (a != [] ==> cmp(a[|a| - 1], key) < 0)
    && (c != [] ==> b != [] && cmp(b[|b| - 1], key) >= 0)
  }

  lemma SortedParts<K>(cmp: (K, K) -> int, a: seq<K>, b: seq<K>)
    requires Sorted(cmp, a + b)
    ensures Sorted(cmp, a) && Sorted(cmp, b)
    ensures forall x, y :: x in a && y in b ==> cmp(x, y) < 0
  {
    var s := a + b;
    SortedPairs(cmp, s);
    SortedPairs(cmp, a);
    SortedPairs(cmp, b);
    assert forall i :: 0 <= i < |a| ==> s[i] == a[i];
    assert forall i :: 0 <= i < |b| ==> s[|a| + i] == b[i];
  }

  lemma FocusLowerBound<K(!new)>(cmp: (K, K) -> int, a: seq<K>, b: seq<K>, c: seq<K>, key: K)
    requires TotalOrder(cmp) && Focus(cmp, a, b, c, key)
    ensures Sorted(cmp, b)
    ensures LowerBound(cmp, a + b + c, key) == |a| + LowerBound(cmp, b, key)
    ensures Found(cmp, a + b + c, key) == Found(cmp, b, key)
  {
    var s := a + b + c;
    SortedParts(cmp, a + b, c);
    SortedParts(cmp, a, b);
    var i := LowerBound(cmp, b, key);
    if c != [] {
      assert i < |b|;
    }
    assert i > 0 ==> s[|a| + i - 1] == b[i - 1];
    assert a != [] ==> s[|a| - 1] == a[|a| - 1];
    assert i < |b| ==> s[|a| + i] == b[i];
    LowerBoundUnique(cmp, s, key, |a| + i);
  }

  lemma SpliceInMiddle<K>(a: seq<K>, b: seq<K>, c: seq<K>, i: nat, n: nat, x: seq<K>)
    requires i + n <= |b|
    ensures Splice(a + b + c, |a| + i, n, x) == a + Splice(b, i, n, x) + c
  {
  }

  /** Inserting into, or removing from, the focused part is inserting or removing in the whole. */
  lemma FocusOps<K(!new)>(cmp: (K, K) -> int, a: seq<K>, b: seq<K>, c: seq<K>, key: K)
    requires TotalOrder(cmp) && Focus(cmp, a, b, c, key)
    ensures Sorted(cmp, b)
    ensures Found(cmp, a + b + c, key) == Found(cmp, b, key)
    ensures Insert(cmp, a + b + c, key) == a + Insert(cmp, b, key) + c
    ensures Remove(cmp, a + b + c, key) == a + Remove(cmp, b, key) + c
  {
    FocusLowerBound(cmp, a, b, c, key);
    var i, n := LowerBound(cmp, b, key), if Found(cmp, b, key) then 1 else 0;
    SpliceInMiddle(a, b, c, i, n, [key]);
    if n == 1 { SpliceInMiddle(a, b, c, i, 1, []); }
  }
}
