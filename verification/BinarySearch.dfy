/** Binary search over an index range, used on diffs and on the cumulative weights of a t-digest. */
module BinarySearch {

  /** `compare` falls: positive below the point that is looked for, zero on it, negative above it. */
  ghost predicate Falling(high: nat, compare: int --> int) {
    && (forall i :: 0 <= i < high ==> compare.requires(i))
    && (forall i, j :: 0 <= i <= j < high ==> (compare(i) <= 0 ==> compare(j) <= 0) && (compare(i) < 0 ==> compare(j) < 0))
  }

  /** `binarySearch`: an index on the point, or the only place where the point could be inserted. */
  method Search(high: nat, compare: int --> int) returns (r: nat)
    requires Falling(high, compare)
    ensures r <= high
    ensures (r < high && compare(r) == 0)
      || ((forall i :: 0 <= i < r ==> compare(i) > 0) && (forall i :: r <= i < high ==> compare(i) < 0))
  {
    var low, top := 0, high;
    while low < top
      invariant 0 <= low <= top <= high
      invariant low > 0 ==> compare(low - 1) > 0
      invariant top < high ==> compare(top) < 0
    {
      var mid := low + (top - low) / 2;
      var c := compare(mid);
      if c == 0 {
        return mid;
      }
      if c > 0 {
        low := mid + 1;
      } else {
        top := mid;
      }
    }
    return low;
  }
}
