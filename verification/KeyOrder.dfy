/** Keys are strings, compared as their UTF-8 encodings are compared: character by character. */
module KeyOrder {
  import opened SortedSet

  function CompareUtf8(a: string, b: string): (r: int)
    ensures r == 0 <==> a == b
  {
    if a == [] then (if b == [] then 0 else -1)
    else if b == [] then 1
    else if a[0] < b[0] then -1
    else if a[0] > b[0] then 1
    else
      assert a == [a[0]] + a[1..] && b == [b[0]] + b[1..];
      CompareUtf8(a[1..], b[1..])
  }

  /** `a` ends, or has the smaller character, where it first differs from `b`. */
  ghost predicate LowerAt(a: string, b: string, i: nat) {
    i < |b| && i <= |a| && a[..i] == b[..i] && (i == |a| || a[i] < b[i])
  }

  lemma {:induction false} FirstDifference(a: string, b: string)
    ensures CompareUtf8(a, b) < 0 <==> exists i :: LowerAt(a, b, i)
  {
    if a == [] || b == [] || a[0] != b[0] {
      if CompareUtf8(a, b) < 0 { assert LowerAt(a, b, 0); }
    } else {
      FirstDifference(a[1..], b[1..]);
      forall i: nat ensures LowerAt(a[1..], b[1..], i) <==> LowerAt(a, b, i + 1) { LowerShift(a, b, i); }
      if i: nat :| LowerAt(a, b, i) {
        assert LowerAt(a[1..], b[1..], i - 1);
      }
    }
  }

  lemma LowerShift(a: string, b: string, i: nat)
    requires a != [] && b != [] && a[0] == b[0]
    ensures LowerAt(a[1..], b[1..], i) <==> LowerAt(a, b, i + 1)
  {
    if i + 1 <= |a| && i + 1 <= |b| {
      assert a[..i + 1] == [a[0]] + a[1..][..i] && b[..i + 1] == [b[0]] + b[1..][..i];
    }
  }

  predicate StartsWith(key: string, prefix: string) {
    prefix <= key
  }

  lemma {:induction false} Antisymmetric(a: string, b: string)
    ensures CompareUtf8(a, b) < 0 <==> CompareUtf8(b, a) > 0
  {
    if a != [] && b != [] && a[0] == b[0] { Antisymmetric(a[1..], b[1..]); }
  }

  lemma {:induction false} AtMostTransitive(a: string, b: string, c: string)
    requires CompareUtf8(a, b) <= 0 && CompareUtf8(b, c) <= 0
    ensures CompareUtf8(a, c) <= 0
  {
    if a != [] && b != [] && c != [] && a[0] == b[0] == c[0] { AtMostTransitive(a[1..], b[1..], c[1..]); }
  }

  lemma KeysAreOrdered()
    ensures TotalOrder(CompareUtf8)
  {
    forall a, b: string ensures CompareUtf8(a, b) < 0 <==> CompareUtf8(b, a) > 0 { Antisymmetric(a, b); }
    forall a, b, c: string | AtMost(CompareUtf8, a, b) && AtMost(CompareUtf8, b, c) ensures AtMost(CompareUtf8, a, c) {
      AtMostTransitive(a, b, c);
    }
  }

  /** A prefix comes before everything that starts with it. */
  lemma {:induction false} PrefixFirst(prefix: string, key: string)
    requires StartsWith(key, prefix)
    ensures CompareUtf8(prefix, key) <= 0
  {
    if prefix != [] { PrefixFirst(prefix[1..], key[1..]); }
  }

  /** The keys with a given prefix form an interval that starts at the prefix. */
  lemma {:induction false} PrefixInterval(prefix: string, key: string, later: string)
    requires CompareUtf8(prefix, key) <= 0 && CompareUtf8(key, later) <= 0 && StartsWith(later, prefix)
    ensures StartsWith(key, prefix)
  {
    if prefix != [] {
      PrefixInterval(prefix[1..], key[1..], later[1..]);
      assert key == [key[0]] + key[1..] && prefix == [prefix[0]] + prefix[1..];
    }
  }
}
