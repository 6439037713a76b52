/**
 The t-digest: a sorted list of weighted centroids whose number is bounded by a scale function. Numbers are reals; the scale
 functions (a sine and its inverse in the program) are any two increasing functions that invert each other.
 */
module TDigest {
  import opened Wrappers
  import BinarySearch

  datatype Centroid = Centroid(mean: real, weight: real)

  // ----- sums over centroids

  ghost function Weight(s: seq<Centroid>): real {
    if s == [] then 0.0 else Weight(s[..|s| - 1]) + s[|s| - 1].weight
  }

  /** The weighted sum of the means. */
  ghost function Moment(s: seq<Centroid>): real {
    if s == [] then 0.0 else Moment(s[..|s| - 1]) + s[|s| - 1].mean * s[|s| - 1].weight
  }

  ghost predicate Between(s: seq<Centroid>, low: real, high: real) {
    forall i :: 0 <= i < |s| ==> low <= s[i].mean <= high
  }

  ghost predicate Positive(s: seq<Centroid>) {
    forall i :: 0 <= i < |s| ==> s[i].weight > 0.0
  }

  ghost predicate SortedByMean(s: seq<Centroid>) {
    forall i, j :: 0 <= i <= j < |s| ==> s[i].mean <= s[j].mean
  }

  /** Weights that are not positive are ignored. */
  ghost function Accepted(s: seq<Centroid>): seq<Centroid> {
    if s == [] then [] else Accepted(s[..|s| - 1]) + if s[|s| - 1].weight <= 0.0 then [] else [s[|s| - 1]]
  }

  lemma AcceptedStep(s: seq<Centroid>, i: nat)
    requires i < |s|
    ensures Accepted(s[..i + 1]) == if s[i].weight <= 0.0 then Accepted(s[..i]) else Accepted(s[..i]) + [s[i]]
  {
    assert s[..i + 1][..i] == s[..i];
  }

  lemma NextAccepted(s: seq<Centroid>, i: nat)
    requires i < |s|
    ensures Weight(Accepted(s[..i + 1])) == Weight(Accepted(s[..i])) + (if s[i].weight <= 0.0 then 0.0 else s[i].weight)
    ensures Moment(Accepted(s[..i + 1]))
         == Moment(Accepted(s[..i])) + (if s[i].weight <= 0.0 then 0.0 else s[i].mean * s[i].weight)
  {
    hide Weight, Moment, Accepted;
    AcceptedStep(s, i);
    SumsAppend(Accepted(s[..i]), s[i]);
  }

  lemma {:induction false} AllAccepted(s: seq<Centroid>)
    requires Positive(s)
    ensures Accepted(s) == s
  {
    if s != [] { AllAccepted(s[..|s| - 1]); }
  }

  lemma {:induction false} SumsJoin(a: seq<Centroid>, b: seq<Centroid>)
    ensures Weight(a + b) == Weight(a) + Weight(b) && Moment(a + b) == Moment(a) + Moment(b)
  {
    if b == [] {
      assert a + b == a;
    } else {
      var n := |b| - 1;
      assert (a + b)[..|a + b| - 1] == a + b[..n];
      SumsJoin(a, b[..n]);
    }
  }

  lemma SumsOne(c: Centroid)
    ensures Weight([c]) == c.weight && Moment([c]) == c.mean * c.weight
  {
    assert [c][..0] == [];
  }

  lemma {:induction false} WeightPositive(s: seq<Centroid>)
    requires Positive(s)
    ensures Weight(s) >= 0.0 && (s != [] ==> Weight(s) > 0.0)
  {
    if s != [] { WeightPositive(s[..|s| - 1]); }
  }

  lemma WeightOfPart(s: seq<Centroid>, i: nat)
    requires Positive(s) && i <= |s|
    ensures Weight(s[..i]) <= Weight(s) && (i < |s| ==> Weight(s[..i]) + s[i].weight <= Weight(s))
  {
    SumsJoin(s[..i], s[i..]);
    assert s == s[..i] + s[i..];
    WeightPositive(s[i..]);
    if i < |s| {
      SumsJoin([s[i]], s[i + 1..]);
      SumsOne(s[i]);
      assert s[i..] == [s[i]] + s[i + 1..];
      WeightPositive(s[i + 1..]);
    }
  }

  // ----- centroids

  /** `Centroid.add` */
  function Add(c: Centroid, r: Centroid): Centroid
    requires c.weight >= 0.0 && r.weight >= 0.0
  {
    if c.weight != 0.0 then
      var weight := c.weight + r.weight;
      Centroid(c.mean + r.weight * (r.mean - c.mean) / weight, weight)
    else
      r
  }

  lemma Portion(w: real, r: real, d: real)
    requires w > 0.0 && r >= 0.0
    ensures (r * d / (w + r)) * (w + r) == r * d
    ensures d >= 0.0 ==> 0.0 <= r * d / (w + r) <= d
  {
    var x := r * d / (w + r);
    assert x * (w + r) == r * d;
    if d >= 0.0 {
      assert 0.0 <= r * d <= d * (w + r);
    }
  }

  ghost function MomentOf(c: Centroid): real { c.mean * c.weight }

  /** Adding centroids adds their weights and moments; the mean lies between their means. */
  lemma AddConserves(c: Centroid, r: Centroid)
    requires c.weight > 0.0 && r.weight > 0.0
    ensures var s := Add(c, r);
      && s.weight == c.weight + r.weight
      && s.mean * s.weight == c.mean * c.weight + r.mean * r.weight
      && (c.mean <= r.mean ==> c.mean <= s.mean <= r.mean)
  {
    var d := r.mean - c.mean;
    Portion(c.weight, r.weight, d);
    var s := Add(c, r);
    assert s.mean * s.weight == c.mean * (c.weight + r.weight) + r.weight * d;
  }

  /** Insertion behind equal means, as a stable sort would do it. */
  function InsertByMean(s: seq<Centroid>, c: Centroid): (r: seq<Centroid>)
    ensures |r| == |s| + 1
  {
    if s == [] || s[|s| - 1].mean <= c.mean then s + [c] else InsertByMean(s[..|s| - 1], c) + [s[|s| - 1]]
  }

  /** `sortCentroidList` */
  function SortCentroidList(s: seq<Centroid>): (r: seq<Centroid>)
    ensures |r| == |s|
  {
    if s == [] then [] else InsertByMean(SortCentroidList(s[..|s| - 1]), s[|s| - 1])
  }

  lemma SumsAppend(s: seq<Centroid>, c: Centroid)
    ensures Weight(s + [c]) == Weight(s) + c.weight && Moment(s + [c]) == Moment(s) + c.mean * c.weight
  {
    assert (s + [c])[..|s|] == s;
  }

  lemma {:induction false} InsertSums(s: seq<Centroid>, c: Centroid)
    ensures Weight(InsertByMean(s, c)) == Weight(s) + c.weight
    ensures Moment(InsertByMean(s, c)) == Moment(s) + c.mean * c.weight
  {
    hide Weight, Moment;
    if s == [] || s[|s| - 1].mean <= c.mean {
      SumsAppend(s, c);
    } else {
      var n := |s| - 1;
      assert s == s[..n] + [s[n]];
      SumsAppend(s[..n], s[n]);
      InsertSums(s[..n], c);
      SumsAppend(InsertByMean(s[..n], c), s[n]);
    }
  }

  lemma {:induction false} InsertPositive(s: seq<Centroid>, c: Centroid)
    requires Positive(s) && c.weight > 0.0
    ensures Positive(InsertByMean(s, c))
  {
    if s != [] && s[|s| - 1].mean > c.mean { InsertPositive(s[..|s| - 1], c); }
  }

  ghost predicate AtMost(s: seq<Centroid>, mean: real) {
    forall i :: 0 <= i < |s| ==> s[i].mean <= mean
  }

  lemma {:induction false} InsertSorts(s: seq<Centroid>, c: Centroid)
    requires SortedByMean(s)
    ensures SortedByMean(InsertByMean(s, c))
    ensures forall mean :: AtMost(s, mean) && c.mean <= mean ==> AtMost(InsertByMean(s, c), mean)
  {
    if s != [] && s[|s| - 1].mean > c.mean {
      var n := |s| - 1;
      InsertSorts(s[..n], c);
      assert AtMost(s[..n], s[n].mean);
    }
  }

  /** Sorting conserves the sums. */
  lemma SortSorts(s: seq<Centroid>)
    ensures var r := SortCentroidList(s);
      && SortedByMean(r) && Weight(r) == Weight(s) && Moment(r) == Moment(s) && (Positive(s) ==> Positive(r))
      && multiset(r) == multiset(s)
  {
    hide Weight, Moment, SortCentroidList, SortedByMean, Positive;
    SortPermutes(s);
    SortSums(s);
    if Positive(s) { SortPositive(s); }
  }

  lemma {:induction false} SortSums(s: seq<Centroid>)
    ensures SortedByMean(SortCentroidList(s))
    ensures Weight(SortCentroidList(s)) == Weight(s) && Moment(SortCentroidList(s)) == Moment(s)
  {
    hide Weight, Moment, InsertByMean, AtMost;
    if s == [] {
      assert SortCentroidList(s) == s;
    } else {
      var n := |s| - 1;
      SortSums(s[..n]);
      InsertSorts(SortCentroidList(s[..n]), s[n]);
      InsertSums(SortCentroidList(s[..n]), s[n]);
      SumsAppend(s[..n], s[n]);
      assert s == s[..n] + [s[n]];
    }
  }

  /** Sorting loses and invents no centroid. */
  lemma {:induction false} SortPermutes(s: seq<Centroid>)
    ensures multiset(SortCentroidList(s)) == multiset(s)
  {
    if s != [] {
      var n := |s| - 1;
      SortPermutes(s[..n]);
      InsertPermutes(SortCentroidList(s[..n]), s[n]);
      assert s == s[..n] + [s[n]];
    }
  }

  lemma {:induction false} InsertPermutes(s: seq<Centroid>, c: Centroid)
    ensures multiset(InsertByMean(s, c)) == multiset(s) + multiset{c}
  {
    if s != [] && s[|s| - 1].mean > c.mean {
      var n := |s| - 1;
      InsertPermutes(s[..n], c);
      assert s == s[..n] + [s[n]];
    }
  }

  lemma {:induction false} SortPositive(s: seq<Centroid>)
    requires Positive(s)
    ensures Positive(SortCentroidList(s))
  {
    if s != [] {
      SortPositive(s[..|s| - 1]);
      InsertPositive(SortCentroidList(s[..|s| - 1]), s[|s| - 1]);
    }
  }

  lemma {:induction false} InsertBetween(s: seq<Centroid>, c: Centroid, low: real, high: real)
    requires Between(s, low, high) && low <= c.mean <= high
    ensures Between(InsertByMean(s, c), low, high)
  {
    if s != [] && s[|s| - 1].mean > c.mean { InsertBetween(s[..|s| - 1], c, low, high); }
  }

  lemma {:induction false} SortBetween(s: seq<Centroid>, low: real, high: real)
    requires Between(s, low, high)
    ensures Between(SortCentroidList(s), low, high)
  {
    if s != [] {
      SortBetween(s[..|s| - 1], low, high);
      InsertBetween(SortCentroidList(s[..|s| - 1]), s[|s| - 1], low, high);
    }
  }

  // ----- the scale

  /** `q` maps [0, compression] to [0, 1], `location` maps back; both increase. */
  ghost predicate Scale(compression: real, q: real -> real, location: real -> real) {
    && compression > 0.0
    && (forall k :: 0.0 <= k <= compression ==> 0.0 <= q(k) <= 1.0)
    && (forall t :: 0.0 <= t <= 1.0 ==> 0.0 <= location(t) <= compression && q(location(t)) == t)
    && (forall k, l :: 0.0 <= k < l <= compression ==> q(k) < q(l))
  }

  ghost function Linear(factor: real): real -> real {
    x => x * factor
  }

  /** Such scales exist. */
  lemma LinearScale(compression: real, inverse: real)
    requires compression > 0.0 && compression * inverse == 1.0
    ensures Scale(compression, Linear(inverse), Linear(compression))
  {
    hide Linear;
    assert inverse > 0.0;
    forall k | 0.0 <= k <= compression ensures 0.0 <= Linear(inverse)(k) <= 1.0 {
      LinearRises(0.0, k, inverse);
      LinearRises(k, compression, inverse);
    }
    forall k, l | 0.0 <= k < l <= compression ensures Linear(inverse)(k) < Linear(inverse)(l) { LinearRises(k, l, inverse); }
    forall t | 0.0 <= t <= 1.0
      ensures 0.0 <= Linear(compression)(t) <= compression && Linear(inverse)(Linear(compression)(t)) == t
    {
      LinearRises(0.0, t, compression);
      LinearRises(t, 1.0, compression);
      LinearBack(t, compression, inverse);
    }
  }

  lemma LinearRises(x: real, y: real, factor: real)
    requires factor > 0.0
    ensures Linear(factor)(x) == x * factor && Linear(factor)(y) == y * factor
    ensures x <= y ==> Linear(factor)(x) <= Linear(factor)(y)
    ensures x < y ==> Linear(factor)(x) < Linear(factor)(y)
  {
    Scaled(x, y, factor);
  }

  lemma LinearBack(t: real, factor: real, inverse: real)
    requires factor * inverse == 1.0
    ensures Linear(inverse)(Linear(factor)(t)) == t
  {
    Cancelled(t, factor, inverse);
  }

  lemma Cancelled(t: real, x: real, y: real)
    requires x * y == 1.0
    ensures (t * x) * y == t
  {
    assert (t * x) * y == t * (x * y);
  }

  lemma Scaled(x: real, y: real, factor: real)
    requires factor > 0.0
    ensures x <= y ==> x * factor <= y * factor
    ensures x < y ==> x * factor < y * factor
  {
  }

  lemma Quotients(x: real, y: real, w: real)
    requires w > 0.0
    ensures x < y ==> x / w < y / w
    ensures x <= y ==> x / w <= y / w
    ensures w / w == 1.0 && (x >= 0.0 ==> x / w >= 0.0) && (x > 0.0 ==> x / w > 0.0)
  {
    assert (x / w) * w == x && (y / w) * w == y;
  }

  function Min(x: real, y: real): real { if x <= y then x else y }
  function Max(x: real, y: real): real { if x >= y then x else y }

  lemma LocationRises(compression: real, q: real -> real, location: real -> real, s: real, t: real)
    requires Scale(compression, q, location) && 0.0 <= s <= t <= 1.0
    ensures location(s) <= location(t) && (s < t ==> location(s) < location(t))
  {
    assert q(location(s)) == s && q(location(t)) == t;
  }

  /** Where a part of the total weight lies on the scale. */
  lemma LocationOf(compression: real, q: real -> real, location: real -> real, part: real, larger: real, total: real)
    requires Scale(compression, q, location) && 0.0 < part <= larger <= total
    ensures 0.0 < part / total <= larger / total <= 1.0
    ensures 0.0 < location(part / total) <= location(larger / total) <= compression
    ensures part < larger ==> location(part / total) < location(larger / total)
  {
    Quotients(part, larger, total);
    Quotients(larger, total, total);
    LocationRises(compression, q, location, part / total, larger / total);
    LocationRises(compression, q, location, 0.0, part / total);
  }

  /** A weight beyond the limit lies more than one unit beyond the location that the limit was computed from. */
  lemma BeyondLimit(compression: real, q: real -> real, location: real -> real, k: real, part: real, total: real)
    requires Scale(compression, q, location) && 0.0 <= k && 0.0 < part <= total
    requires part > total * q(Min(k + 1.0, compression))
    ensures location(part / total) > k + 1.0
  {
    LocationOf(compression, q, location, part, total, total);
    var t, m := part / total, Min(k + 1.0, compression);
    assert t * total == part;
    if t <= q(m) { Scaled(t, q(m), total); }
    assert location(t) <= m ==> q(location(t)) <= q(m);
  }

  /** A weight within the limit lies at most one unit beyond that location. */
  lemma WithinLimit(compression: real, q: real -> real, location: real -> real, k: real, part: real, total: real)
    requires Scale(compression, q, location) && 0.0 <= k && 0.0 < part <= total
    requires part <= total * q(Min(k + 1.0, compression))
    ensures location(part / total) <= k + 1.0
  {
    LocationOf(compression, q, location, part, total, total);
    var t, m := part / total, Min(k + 1.0, compression);
    assert t * total == part;
    if t > q(m) { Scaled(q(m), t, total); }
    assert location(t) > m ==> q(location(t)) > q(m);
  }

  function Ceil(x: real): int {
    if x.Floor as real == x then x.Floor else x.Floor + 1
  }

  // ----- the cumulative weights

  /** The weight up to the middle of each centroid, and the total weight. */
  ghost function Cumulated(s: seq<Centroid>): (r: seq<real>)
    ensures |r| == |s| + 1
  {
    seq(|s|, i requires 0 <= i < |s| => Weight(s[..i]) + s[i].weight / 2.0) + [Weight(s)]
  }

  lemma CumulatedEnd(s: seq<Centroid>)
    ensures |Cumulated(s)| == |s| + 1 && Cumulated(s)[|s|] == Weight(s)
  {
  }

  lemma WeightStep(s: seq<Centroid>, i: nat)
    requires i < |s|
    ensures Weight(s[..i + 1]) == Weight(s[..i]) + s[i].weight
  {
    assert s[..i + 1][..i] == s[..i];
  }

  /** Refill an array of cumulative weights. */
  method Cumulate(s: seq<Centroid>, before: seq<real>) returns (r: seq<real>)
    ensures r == Cumulated(s)
  {
    hide Weight;
    var n := |s| + 1;
    r := if |before| > n then before[..n] else before;
    var prev := 0.0;
    assert s[..0] == [] && Weight([]) == 0.0 by { SumsJoin([], []); }
    var i := 0;
    while i < |s|
      invariant 0 <= i <= |s| && prev == Weight(s[..i])
      invariant i <= |r| <= n
      invariant forall j :: 0 <= j < i ==> r[j] == Weight(s[..j]) + s[j].weight / 2.0
    {
      var cur := s[i].weight;
      WeightStep(s, i);
      r := SetAt(r, i, prev + cur / 2.0);
      prev := prev + cur;
      i := i + 1;
    }
    assert s[..|s|] == s;
    r := SetAt(r, |s|, prev);
    assert |r| == n;
    assert forall j :: 0 <= j < |s| ==> r[j] == Cumulated(s)[j];
  }

  // ----- quantiles

  lemma CumulatedRises(s: seq<Centroid>, i: nat, j: nat)
    requires Positive(s) && i < j <= |s|
    ensures Cumulated(s)[i] < Cumulated(s)[j] <= Weight(s)
    decreases j
  {
    var c := Cumulated(s);
    WeightPart(s, j);
    if j < |s| {
      if j - 1 > i { CumulatedRises(s, i, j - 1); }
      WeightStep(s, j - 1);
      assert c[j - 1] == Weight(s[..j - 1]) + s[j - 1].weight / 2.0;
      assert c[j] == Weight(s[..j]) + s[j].weight / 2.0;
    } else {
      if j - 1 > i { CumulatedRises(s, i, j - 1); }
      WeightStep(s, j - 1);
      assert s[..|s|] == s;
      assert c[j - 1] == Weight(s[..j - 1]) + s[j - 1].weight / 2.0;
    }
  }

  lemma WeightPart(s: seq<Centroid>, i: nat)
    requires Positive(s) && i <= |s|
    ensures 0.0 <= Weight(s[..i]) <= Weight(s) && (i < |s| ==> Weight(s[..i]) + s[i].weight <= Weight(s))
  {
    WeightOfPart(s, i);
    WeightPositive(s[..i]);
  }

  function WeightedAverageSorted(x1: real, w1: real, x2: real, w2: real): real
    requires w1 + w2 != 0.0
  {
    var x := (x1 * w1 + x2 * w2) / (w1 + w2);
    Max(x1, Min(x, x2))
  }

  /** `weightedAverage` */
  function WeightedAverage(x1: real, w1: real, x2: real, w2: real): real
    requires w1 + w2 != 0.0
  {
    if x1 <= x2 then WeightedAverageSorted(x1, w1, x2, w2) else WeightedAverageSorted(x2, w2, x1, w1)
  }

  /** Interpolation between two points: between the values, and rising. */
  lemma Interpolation(x1: real, x2: real, c1: real, c2: real, t: real, u: real)
    requires x1 <= x2 && c1 < c2 && c1 <= t <= u <= c2
    ensures x1 <= WeightedAverage(x1, c2 - t, x2, t - c1) <= WeightedAverage(x1, c2 - u, x2, u - c1) <= x2
  {
    var a, b := x1 * (c2 - t) + x2 * (t - c1), x1 * (c2 - u) + x2 * (u - c1);
    assert b - a == (x2 - x1) * (u - t);
    assert (x2 - x1) * (u - t) >= 0.0;
    Quotients(a, b, c2 - c1);
  }

  /** Behind the middle of the last centroid the weights have the wrong sign, and the average is always the upper end. */
  lemma RightTail(mean: real, weight: real, max: real, z1: real)
    requires mean <= max && weight > 0.0 && z1 <= 0.0
    ensures WeightedAverage(mean, z1, max, weight / 2.0 - z1) == max
  {
    var d, e := weight / 2.0, Times(max - mean, 0.0 - z1);
    NotNegative(max - mean, 0.0 - z1);
    RightSum(mean, max, d, z1);
    Quotients(max * d, max * d + e, d);
    Quotient(max * d, d, max);
  }

  lemma RightSum(mean: real, max: real, d: real, z1: real)
    ensures mean * z1 + max * (d - z1) == max * d + Times(max - mean, 0.0 - z1)
  {
  }

  /** The first index at which the cumulative weight reaches `index`. */
  ghost predicate Reaches(s: seq<Centroid>, index: real, i: nat) {
    && 1 <= i <= |s| && Cumulated(s)[i - 1] < index <= Cumulated(s)[i]
  }

  /** What `quantile` computes for `index`, the given share of the total weight. */
  ghost predicate IsQuantile(s: seq<Centroid>, min: real, max: real, index: real, r: real)
    requires Positive(s)
  {
    if |s| <= 1 then
      s != [] && r == s[0].mean
    else if index <= s[0].weight / 2.0 then
      r == LeftValue(s[0], min, index)
    else
      exists i: nat :: Reaches(s, index, i)
        && r == if i < |s| then WeightedAverage(s[i - 1].mean, Cumulated(s)[i] - index, s[i].mean, index - Cumulated(s)[i - 1])
                else max
  }

  function Times(p: real, d: real): real { p * d }

  lemma TimesRises(p: real, q: real, d: real)
    requires 0.0 <= p <= q <= 1.0 && d >= 0.0
    ensures 0.0 <= Times(p, d) <= Times(q, d) <= d
  {
    NotNegative(p, d);
    NotNegative(q - p, d);
    NotNegative(1.0 - q, d);
    assert (q - p) * d == q * d - p * d;
    assert (1.0 - q) * d == d - q * d;
  }

  lemma NotNegative(x: real, y: real)
    requires x >= 0.0 && y >= 0.0
    ensures x * y >= 0.0
  {
  }

  function LeftValue(c: Centroid, min: real, index: real): real
    requires c.weight > 0.0
  {
    min + Times(2.0 * index / c.weight, c.mean - min)
  }

  /** The left tail rises from `min` to the first mean. */
  lemma LeftTail(s: seq<Centroid>, min: real, t: real, u: real)
    requires s != [] && Positive(s) && min <= s[0].mean && 0.0 <= t <= u <= s[0].weight / 2.0
    ensures min <= LeftValue(s[0], min, t) <= LeftValue(s[0], min, u) <= s[0].mean
  {
    hide Times;
    var w := s[0].weight;
    Quotients(0.0, 2.0 * t, w);
    Quotients(2.0 * t, 2.0 * u, w);
    Quotients(2.0 * u, w, w);
    TimesRises(2.0 * t / w, 2.0 * u / w, s[0].mean - min);
  }

  /** In the segment `i` (the last one ends in `max`), the value lies between the means at its ends. */
  lemma MiddleValue(s: seq<Centroid>, min: real, max: real, index: real, r: real, i: nat)
    requires |s| > 1 && Positive(s) && SortedByMean(s) && s[|s| - 1].mean <= max && index > s[0].weight / 2.0
    requires IsQuantile(s, min, max, index, r) && Reaches(s, index, i)
    ensures r == if i < |s| then WeightedAverage(s[i - 1].mean, Cumulated(s)[i] - index, s[i].mean, index - Cumulated(s)[i - 1])
                 else max
    ensures s[i - 1].mean <= r <= if i < |s| then s[i].mean else max
  {
    hide Cumulated;
    var j: nat :| Reaches(s, index, j)
      && r == if j < |s| then WeightedAverage(s[j - 1].mean, Cumulated(s)[j] - index, s[j].mean, index - Cumulated(s)[j - 1])
              else max;
    SameSegment(s, index, index, i, j);
    SameSegment(s, index, index, j, i);
    if i < |s| { Interpolation(s[i - 1].mean, s[i].mean, Cumulated(s)[i - 1], Cumulated(s)[i], index, index); }
  }

  lemma SameSegment(s: seq<Centroid>, t: real, u: real, i: nat, j: nat)
    requires Positive(s) && Reaches(s, t, i) && Reaches(s, u, j) && t <= u
    ensures i <= j
  {
    hide Cumulated;
    if j < i {
      if j < i - 1 { CumulatedRises(s, j, i - 1); }
    }
  }

  /** Quantiles lie between `min` and `max`, and a greater share never has a smaller quantile. */
  lemma QuantilesRise(s: seq<Centroid>, min: real, max: real, t: real, r: real, u: real, r': real)
    requires Positive(s) && SortedByMean(s) && s != [] && min <= s[0].mean && s[|s| - 1].mean <= max
    requires 0.0 <= t <= u && IsQuantile(s, min, max, t, r) && IsQuantile(s, min, max, u, r')
    ensures min <= r <= r' <= max
  {
    hide Cumulated, WeightedAverage, LeftValue;
    if |s| > 1 {
      var first := s[0].weight / 2.0;
      assert s[0].mean <= s[|s| - 1].mean;
      if u <= first {
        LeftTail(s, min, t, u);
      } else {
        var j: nat :| Reaches(s, u, j);
        MiddleValue(s, min, max, u, r', j);
        assert s[0].mean <= s[j - 1].mean && (j < |s| ==> s[j].mean <= s[|s| - 1].mean);
        if t <= first {
          LeftTail(s, min, t, t);
        } else {
          var i: nat :| Reaches(s, t, i);
          MiddleValue(s, min, max, t, r, i);
          SameSegment(s, t, u, i, j);
          assert s[0].mean <= s[i - 1].mean;
          if i < j {
            assert s[i].mean <= s[j - 1].mean;
          } else if i < |s| {
            Interpolation(s[i - 1].mean, s[i].mean, Cumulated(s)[i - 1], Cumulated(s)[i], t, u);
          }
        }
      }
    }
  }

  // ----- the cumulative distribution

  function Share(c: real, w: real): real
    requires w > 0.0
  {
    c / w
  }

  /** In a tail that carries half of the weight `v` out of `w`: the share of the distance `d`. */
  function TailShare(d: real, width: real, v: real, w: real): real
    requires width > 0.0 && w > 0.0
  {
    Times(d / width, v) / w / 2.0
  }

  function HalfShare(v: real, w: real): real
    requires w > 0.0
  {
    v / w / 2.0
  }

  /** The neighbours between which `x` lies; equal means count as below. */
  ghost predicate Crosses(s: seq<Centroid>, x: real, i: nat) {
    1 <= i < |s| && s[i - 1].mean <= x < s[i].mean
  }

  /** The share in the middle, by interpolation between the neighbours. */
  ghost function MiddleShare(s: seq<Centroid>, x: real, i: nat): real
    requires Crosses(s, x, i) && Weight(s) > 0.0
  {
    Share(WeightedAverage(Cumulated(s)[i - 1], s[i].mean - x, Cumulated(s)[i], x - s[i - 1].mean), Weight(s))
  }

  /** What `cdf` computes. */
  ghost predicate IsCdf(s: seq<Centroid>, min: real, max: real, x: real, r: real)
    requires s != [] && Weight(s) > 0.0
  {
    var n, w := |s| - 1, Weight(s);
    if x <= min then r == 0.0
    else if x >= max then r == 1.0
    else if n == 0 then r == 0.5
    else if x <= s[0].mean then r == TailShare(x - min, s[0].mean - min, s[0].weight, w)
    else if x >= s[n].mean then r == 1.0 - TailShare(max - x, max - s[n].mean, s[n].weight, w)
    else exists i: nat :: Crosses(s, x, i) && r == MiddleShare(s, x, i)
  }

  lemma Quotient(a: real, w: real, x: real)
    requires w > 0.0 && x * w == a
    ensures a / w == x
  {
    assert (a / w) * w == a;
  }

  lemma Shares(x: real, y: real, w: real)
    requires w > 0.0 && x <= y
    ensures Share(x, w) <= Share(y, w)
  {
    Quotients(x, y, w);
  }

  lemma TailRises(d: real, e: real, width: real, v: real, w: real)
    requires 0.0 <= d <= e <= width && width > 0.0 && 0.0 < v && 0.0 < w
    ensures 0.0 <= TailShare(d, width, v, w) <= TailShare(e, width, v, w) <= HalfShare(v, w)
  {
    hide Times;
    Quotients(0.0, d, width);
    Quotients(d, e, width);
    Quotients(e, width, width);
    TimesRises(d / width, e / width, v);
    PartRises(Times(d / width, v), Times(e / width, v), v, w);
  }

  lemma PartRises(a: real, b: real, v: real, w: real)
    requires 0.0 <= a <= b <= v && 0.0 < w
    ensures 0.0 <= a / w / 2.0 <= b / w / 2.0 <= v / w / 2.0
  {
    Quotients(0.0, a, w);
    Quotients(a, b, w);
    Quotients(b, v, w);
  }

  lemma Halved(v: real, w: real)
    requires w > 0.0 && v > 0.0
    ensures Share(v / 2.0, w) == HalfShare(v, w) > 0.0 && Share(w - v / 2.0, w) == 1.0 - HalfShare(v, w)
  {
    var x := v / w;
    Quotients(0.0, v, w);
    assert x * w == v;
    Quotient(v / 2.0, w, x / 2.0);
    Quotient(w - v / 2.0, w, 1.0 - x / 2.0);
  }

  lemma CumulatedStart(s: seq<Centroid>)
    requires s != []
    ensures Cumulated(s)[0] == s[0].weight / 2.0 && Cumulated(s)[|s|] == Weight(s)
    ensures Cumulated(s)[|s| - 1] == Weight(s) - s[|s| - 1].weight / 2.0
  {
    assert s[..0] == [] && s[..|s|] == s;
    WeightStep(s, |s| - 1);
  }

  lemma ShareRises(s: seq<Centroid>, i: nat, j: nat)
    requires Positive(s) && i <= j <= |s| && Weight(s) > 0.0
    ensures Share(Cumulated(s)[i], Weight(s)) <= Share(Cumulated(s)[j], Weight(s))
  {
    hide Cumulated, Weight, Share;
    if i < j { CumulatedRises(s, i, j); }
    Shares(Cumulated(s)[i], Cumulated(s)[j], Weight(s));
  }

  /** The weight outside the two tails. */
  lemma Tails(s: seq<Centroid>)
    requires |s| > 1 && Positive(s) && Weight(s) > 0.0
    ensures var n, w := |s| - 1, Weight(s);
      && Share(Cumulated(s)[0], w) == HalfShare(s[0].weight, w)
      && Share(Cumulated(s)[n], w) == 1.0 - HalfShare(s[n].weight, w)
      && HalfShare(s[0].weight, w) <= 1.0 - HalfShare(s[n].weight, w) <= 1.0
  {
    hide Cumulated, Weight, Share, HalfShare;
    var n := |s| - 1;
    CumulatedStart(s);
    Halved(s[0].weight, Weight(s));
    Halved(s[n].weight, Weight(s));
    ShareRises(s, 0, n);
  }

  lemma SameCrossing(s: seq<Centroid>, x: real, y: real, i: nat, j: nat)
    requires SortedByMean(s) && Crosses(s, x, i) && Crosses(s, y, j) && x <= y
    ensures i <= j
  {
  }

  /** In the middle, the value lies between the shares of the neighbours, and rises. */
  lemma MiddleRises(s: seq<Centroid>, x: real, y: real, i: nat)
    requires Positive(s) && Crosses(s, x, i) && Crosses(s, y, i) && x <= y && Weight(s) > 0.0
    ensures var c, w := Cumulated(s), Weight(s);
      Share(c[i - 1], w) <= MiddleShare(s, x, i) <= MiddleShare(s, y, i) <= Share(c[i], w)
  {
    hide Cumulated, WeightedAverage, Weight, Share;
    var c, w, a, b := Cumulated(s), Weight(s), s[i - 1].mean, s[i].mean;
    CumulatedRises(s, i - 1, i);
    Interpolation(c[i - 1], c[i], a, b, x, y);
    var p, q := WeightedAverage(c[i - 1], b - x, c[i], x - a), WeightedAverage(c[i - 1], b - y, c[i], y - a);
    Shares(c[i - 1], p, w);
    Shares(p, q, w);
    Shares(q, c[i], w);
  }

  /** Where a value is left of the middle, in it, or right of it, its share is too. */
  lemma CdfZone(s: seq<Centroid>, min: real, max: real, x: real, r: real)
    requires |s| > 1 && Positive(s) && SortedByMean(s) && min <= s[0].mean && s[|s| - 1].mean <= max
    requires min < x < max && Weight(s) > 0.0 && IsCdf(s, min, max, x, r)
    ensures var n, w := |s| - 1, Weight(s); var (a, b) := (HalfShare(s[0].weight, w), 1.0 - HalfShare(s[n].weight, w));
      && 0.0 <= r <= 1.0 && (x <= s[0].mean ==> r <= a) && (s[0].mean < x ==> a <= r)
      && (x < s[n].mean ==> r <= b) && (s[n].mean <= x && s[0].mean < x ==> b <= r)
  {
    hide Cumulated, WeightedAverage, Weight, Share, TailShare, HalfShare, MiddleShare;
    var n, w := |s| - 1, Weight(s);
    Tails(s);
    TailRises(0.0, 0.0, 1.0, s[0].weight, w);
    assert s[0].mean <= s[n].mean;
    if x <= s[0].mean {
      TailRises(x - min, x - min, s[0].mean - min, s[0].weight, w);
    } else if x >= s[n].mean {
      TailRises(max - x, max - x, max - s[n].mean, s[n].weight, w);
    } else {
      var i: nat :| Crosses(s, x, i) && r == MiddleShare(s, x, i);
      MiddleRises(s, x, x, i);
      ShareRises(s, 0, i - 1);
      ShareRises(s, i, n);
    }
  }

  /** Shares lie between 0 and 1, and a greater value never has a smaller share. */
  lemma SharesRise(s: seq<Centroid>, min: real, max: real, x: real, r: real, y: real, r': real)
    requires s != [] && Positive(s) && SortedByMean(s) && min <= s[0].mean && s[|s| - 1].mean <= max
    requires Weight(s) > 0.0 && x <= y && IsCdf(s, min, max, x, r) && IsCdf(s, min, max, y, r')
    ensures 0.0 <= r <= r' <= 1.0
  {
    hide Cumulated, WeightedAverage, Weight, Share, TailShare, HalfShare, MiddleShare;
    var n, w := |s| - 1, Weight(s);
    if n > 0 && min < x && y < max {
      CdfZone(s, min, max, x, r);
      CdfZone(s, min, max, y, r');
      Tails(s);
      if y <= s[0].mean {
        TailRises(x - min, y - min, s[0].mean - min, s[0].weight, w);
      } else if s[n].mean <= x && s[0].mean < x {
        TailRises(max - y, max - x, max - s[n].mean, s[n].weight, w);
      } else if s[0].mean < x && y < s[n].mean {
        var i: nat :| Crosses(s, x, i) && r == MiddleShare(s, x, i);
        var j: nat :| Crosses(s, y, j) && r' == MiddleShare(s, y, j);
        SameCrossing(s, x, y, i, j);
        if i < j {
          MiddleRises(s, x, x, i);
          MiddleRises(s, y, y, j);
          ShareRises(s, i, j - 1);
        } else {
          MiddleRises(s, x, y, i);
        }
      }
    } else if n > 0 && min < x < max {
      CdfZone(s, min, max, x, r);
    } else if n > 0 && min < y < max {
      CdfZone(s, min, max, y, r');
    }
  }

  // ----- what quantiles and shares are, as equations

  /** Half of the weight of centroid `i`, and all weight before it. */
  ghost function Middle(s: seq<Centroid>, i: nat): real
    requires i < |s|
  {
    Weight(s[..i]) + s[i].weight / 2.0
  }

  /** The point with abscissa `t` and ordinate `y` is on the line through the two points. */
  ghost predicate OnLine(c1: real, y1: real, c2: real, y2: real, t: real, y: real) {
    y * (c2 - c1) == y1 * (c2 - t) + y2 * (t - c1)
  }

  /**
   The quantile at `index`: on the straight lines between the points whose abscissas are the middles of the weights and whose
   ordinates are the means; from `min` at zero to the first mean; and `max` behind the last middle.
   */
  ghost predicate OnQuantileLine(s: seq<Centroid>, min: real, max: real, index: real, r: real) {
    && (|s| == 1 ==> r == s[0].mean)
    && (|s| > 1 && index <= s[0].weight / 2.0 ==> OnLine(0.0, min, s[0].weight / 2.0, s[0].mean, index, r))
    && (forall i: nat :: 0 <= i < |s| - 1 && Middle(s, i) < index <= Middle(s, i + 1) ==>
          OnLine(Middle(s, i), s[i].mean, Middle(s, i + 1), s[i + 1].mean, index, r))
    && (|s| > 1 && index > Middle(s, |s| - 1) ==> r == max)
  }

  /** The weight below `x`: on the same lines, read the other way, and from the last mean to `max`. */
  ghost predicate OnShareLine(s: seq<Centroid>, min: real, max: real, x: real, below: real)
    requires s != []
  {
    var n := |s| - 1;
    && (x <= min ==> below == 0.0) && (min < x && x >= max ==> below == Weight(s))
    && (min < x < max && n == 0 ==> below == Weight(s) / 2.0)
    && (min < x < max && n > 0 && x <= s[0].mean ==> OnLine(min, 0.0, s[0].mean, s[0].weight / 2.0, x, below))
    && (min < x < max && n > 0 && s[0].mean < x && s[n].mean <= x ==>
          OnLine(s[n].mean, Weight(s) - s[n].weight / 2.0, max, Weight(s), x, below))
    && (forall i: nat :: min < x < max && 0 <= i < n && s[0].mean < x && s[i].mean <= x < s[i + 1].mean ==>
          && OnLine(s[i].mean, Middle(s, i), s[i + 1].mean, Middle(s, i + 1), x, below)
          && (x == s[i].mean ==> below == Middle(s, i)))
  }

  lemma WithinLine(x1: real, x2: real, u: real, v: real)
    requires x1 <= x2 && u >= 0.0 && v >= 0.0
    ensures x1 * (u + v) <= x1 * u + x2 * v <= x2 * (u + v)
  {
    NotNegative(x2 - x1, u);
    NotNegative(x2 - x1, v);
    assert x1 * u + x2 * v - x1 * (u + v) == (x2 - x1) * v;
    assert x2 * (u + v) - (x1 * u + x2 * v) == (x2 - x1) * u;
  }

  lemma Clamped(x1: real, x2: real, a: real, w: real)
    requires w > 0.0 && x1 * w <= a <= x2 * w
    ensures Max(x1, Min(a / w, x2)) * w == a
  {
    Quotients(x1 * w, a, w);
    Quotients(a, x2 * w, w);
    Quotient(x1 * w, w, x1);
    Quotient(x2 * w, w, x2);
    assert (a / w) * w == a;
  }

  /** The average is on the line between the two points. */
  lemma AverageOnLine(x1: real, x2: real, c1: real, c2: real, t: real)
    requires x1 <= x2 && c1 < c2 && c1 <= t <= c2
    ensures OnLine(c1, x1, c2, x2, t, WeightedAverage(x1, c2 - t, x2, t - c1))
  {
    var u, v := c2 - t, t - c1;
    WithinLine(x1, x2, u, v);
    Clamped(x1, x2, x1 * u + x2 * v, u + v);
  }

  lemma LeftOnLine(c: Centroid, min: real, index: real)
    requires c.weight > 0.0
    ensures OnLine(0.0, min, c.weight / 2.0, c.mean, index, LeftValue(c, min, index))
  {
    var d, p, w := c.mean - min, 2.0 * index / c.weight, c.weight / 2.0;
    assert p * w == index;
    assert p * d * w == (p * w) * d;
    assert LeftValue(c, min, index) * w == min * w + index * d;
  }

  lemma MiddleIs(s: seq<Centroid>, i: nat)
    requires i < |s|
    ensures Middle(s, i) == Cumulated(s)[i]
  {
  }

  lemma QuantileOnLine(s: seq<Centroid>, min: real, max: real, index: real, r: real)
    requires Positive(s) && SortedByMean(s) && s != [] && s[|s| - 1].mean <= max
    requires IsQuantile(s, min, max, index, r) && index <= Weight(s)
    ensures OnQuantileLine(s, min, max, index, r)
  {
    hide Cumulated, WeightedAverage, LeftValue, Weight, Times, OnLine, Middle, Reaches;
    if |s| > 1 {
      FirstMiddle(s);
      if index <= s[0].weight / 2.0 {
        LeftOnLine(s[0], min, index);
        forall i: nat | i < |s| ensures index <= Middle(s, i) { MiddlesRise(s, 0, i); }
      } else {
        forall i: nat | i < |s| - 1 && Middle(s, i) < index <= Middle(s, i + 1)
          ensures OnLine(Middle(s, i), s[i].mean, Middle(s, i + 1), s[i + 1].mean, index, r)
        {
          SegmentOnLine(s, min, max, index, r, i);
        }
        if Middle(s, |s| - 1) < index { BehindLast(s, min, max, index, r); }
      }
    }
  }

  lemma SegmentOnLine(s: seq<Centroid>, min: real, max: real, index: real, r: real, i: nat)
    requires Positive(s) && SortedByMean(s) && i < |s| - 1 && s[|s| - 1].mean <= max && index > s[0].weight / 2.0
    requires IsQuantile(s, min, max, index, r) && Middle(s, i) < index <= Middle(s, i + 1)
    ensures OnLine(Middle(s, i), s[i].mean, Middle(s, i + 1), s[i + 1].mean, index, r)
  {
    hide Cumulated, WeightedAverage, LeftValue, Weight, OnLine, Middle;
    MiddleIs(s, i);
    MiddleIs(s, i + 1);
    CumulatedLength(s);
    MiddleValue(s, min, max, index, r, i + 1);
    AverageOnLine(s[i].mean, s[i + 1].mean, Middle(s, i), Middle(s, i + 1), index);
  }

  lemma BehindLast(s: seq<Centroid>, min: real, max: real, index: real, r: real)
    requires |s| > 1 && Positive(s) && SortedByMean(s) && s[|s| - 1].mean <= max && index > s[0].weight / 2.0
    requires IsQuantile(s, min, max, index, r) && Middle(s, |s| - 1) < index <= Weight(s)
    ensures r == max
  {
    hide WeightedAverage, LeftValue, Weight, Middle;
    MiddleIs(s, |s| - 1);
    CumulatedEnd(s);
    MiddleValue(s, min, max, index, r, |s|);
  }

  lemma CumulatedLength(s: seq<Centroid>)
    ensures |Cumulated(s)| == |s| + 1
  {
  }

  lemma FirstMiddle(s: seq<Centroid>)
    requires s != []
    ensures Middle(s, 0) == s[0].weight / 2.0
  {
    assert s[..0] == [];
  }

  lemma MiddlesRise(s: seq<Centroid>, i: nat, j: nat)
    requires Positive(s) && i <= j < |s|
    ensures Middle(s, i) <= Middle(s, j)
  {
    hide Cumulated;
    MiddleIs(s, i);
    MiddleIs(s, j);
    if i < j { CumulatedRises(s, i, j); }
  }

  lemma LeftTailOnLine(min: real, mean: real, v: real, w: real, x: real, r: real, below: real)
    requires min < mean && w > 0.0 && r == TailShare(x - min, mean - min, v, w) && below == r * w
    ensures OnLine(min, 0.0, mean, v / 2.0, x, below)
  {
    TailTimes(x - min, mean - min, v, w);
  }

  lemma RightTailOnLine(mean: real, max: real, v: real, w: real, x: real, r: real, below: real)
    requires mean < max && w > 0.0 && r == 1.0 - TailShare(max - x, max - mean, v, w) && below == r * w
    ensures OnLine(mean, w - v / 2.0, max, w, x, below)
  {
    var share, d := TailShare(max - x, max - mean, v, w), max - mean;
    var t := share * w;
    TailTimes(max - x, d, v, w);
    assert r * w == w - t;
    assert (w - t) * d == w * d - t * d;
    assert (w - v / 2.0) * (max - x) + w * (x - mean) == w * d - v / 2.0 * (max - x);
  }

  lemma TailTimes(d: real, width: real, v: real, w: real)
    requires width > 0.0 && w > 0.0
    ensures TailShare(d, width, v, w) * w * width == v / 2.0 * d
  {
    var p := d / width;
    var y := Times(p, v);
    assert p * width == d;
    assert (y / w / 2.0) * w == y / 2.0;
    assert y * width == (p * width) * v;
  }

  lemma ShareOnLine(s: seq<Centroid>, min: real, max: real, x: real, r: real, below: real)
    requires below == r * Weight(s)
    requires Positive(s) && SortedByMean(s) && s != [] && Weight(s) > 0.0 && min <= s[0].mean && s[|s| - 1].mean <= max
    requires IsCdf(s, min, max, x, r)
    ensures OnShareLine(s, min, max, x, below)
  {
    hide Cumulated, WeightedAverage, Weight, TailShare, MiddleShare, OnLine, Middle;
    var n := |s| - 1;
    if min < x < max && n > 0 {
      assert forall i :: 0 <= i < |s| ==> s[0].mean <= s[i].mean <= s[n].mean;
      if x <= s[0].mean {
        LeftTailOnLine(min, s[0].mean, s[0].weight, Weight(s), x, r, below);
      } else if x >= s[n].mean {
        RightTailOnLine(s[n].mean, max, s[n].weight, Weight(s), x, r, below);
      } else {
        forall i: nat | i < n && s[i].mean <= x < s[i + 1].mean
          ensures OnLine(s[i].mean, Middle(s, i), s[i + 1].mean, Middle(s, i + 1), x, below)
          ensures x == s[i].mean ==> below == Middle(s, i)
        {
          InnerOnLine(s, min, max, x, r, below, i);
        }
      }
    }
  }

  lemma InnerShare(s: seq<Centroid>, min: real, max: real, x: real, r: real, i: nat)
    requires Positive(s) && SortedByMean(s) && |s| > 1 && Weight(s) > 0.0 && IsCdf(s, min, max, x, r) && min < x < max
    requires s[0].mean < x < s[|s| - 1].mean && Crosses(s, x, i)
    ensures r == MiddleShare(s, x, i)
  {
    hide Weight, TailShare, MiddleShare;
    var j: nat :| Crosses(s, x, j) && r == MiddleShare(s, x, j);
    SameCrossing(s, x, x, i, j);
    SameCrossing(s, x, x, j, i);
  }

  lemma InnerOnLine(s: seq<Centroid>, min: real, max: real, x: real, r: real, below: real, i: nat)
    requires below == r * Weight(s)
    requires Positive(s) && SortedByMean(s) && |s| > 1 && Weight(s) > 0.0 && IsCdf(s, min, max, x, r) && min < x < max
    requires s[0].mean < x < s[|s| - 1].mean && Crosses(s, x, i + 1)
    ensures OnLine(s[i].mean, Middle(s, i), s[i + 1].mean, Middle(s, i + 1), x, below)
    ensures x == s[i].mean ==> below == Middle(s, i)
  {
    hide Cumulated, WeightedAverage, Weight, TailShare, Middle, OnLine, Share;
    var w := Weight(s);
    InnerShare(s, min, max, x, r, i + 1);
    MiddleIs(s, i);
    MiddleIs(s, i + 1);
    CumulatedLength(s);
    MiddlesRise(s, i, i + 1);
    AverageOnLine(Middle(s, i), Middle(s, i + 1), s[i].mean, s[i + 1].mean, x);
    var a := WeightedAverage(Cumulated(s)[i], s[i + 1].mean - x, Cumulated(s)[i + 1], x - s[i].mean);
    ShareTimes(a, w);
    assert below == a;
    if x == s[i].mean { AtPoint(s[i].mean, Middle(s, i), s[i + 1].mean, Middle(s, i + 1), a); }
  }

  lemma ShareTimes(a: real, w: real)
    requires w > 0.0
    ensures Share(a, w) * w == a
  {
    assert (a / w) * w == a;
  }

  lemma AtPoint(c1: real, y1: real, c2: real, y2: real, y: real)
    requires OnLine(c1, y1, c2, y2, c1, y) && c1 < c2
    ensures y == y1
  {
    assert (y - y1) * (c2 - c1) == 0.0;
  }

  // ----- the class

  class TDigest {
    const compression: real
    const maxProcessed: int
    const maxUnprocessed: int
    const integratedQ: real -> real
    const integratedLocation: real -> real
    var processed: seq<Centroid>
    var unprocessed: seq<Centroid>
    var cumulative: seq<real>
    var processedWeight: real
    var unprocessedWeight: real
    var min: Option<real>
    var max: Option<real>
    /** Of everything that has been accepted since the last reset. */
    ghost var totalWeight: real
    ghost var totalMoment: real
    ghost var least: Option<real>
    ghost var greatest: Option<real>

    /** No mean is outside of the accepted ones. */
    ghost predicate Bounded()
      reads this
    {
      && (least.None? <==> greatest.None?) && (least.None? ==> processed == [] && unprocessed == [])
      && (least.Some? ==>
            && Between(unprocessed, least.value, greatest.value)
            && (min.Some? ==> least.value <= min.value) && (max.Some? ==> max.value <= greatest.value))
    }

    /** All accepted means are between the bounds. */
    ghost predicate Inside(low: real, high: real)
      reads `least, `greatest
    {
      (least.Some? ==> low <= least.value) && (greatest.Some? ==> greatest.value <= high)
    }

    /** What has been accepted is the same. */
    twostate predicate SameTotals()
      reads this
    {
      && totalWeight == old(totalWeight) && totalMoment == old(totalMoment)
      && least == old(least) && greatest == old(greatest)
    }

    /** What holds even while there is one centroid too many. */
    ghost predicate Sound()
      reads this
    {
      && Scale(compression, integratedQ, integratedLocation)
      && maxProcessed == Ceil(compression) * 2 && maxUnprocessed == Ceil(compression) * 8
      && Positive(processed) && Positive(unprocessed) && SortedByMean(processed)
      && processedWeight == Weight(processed) && unprocessedWeight == Weight(unprocessed)
      && |processed| < maxProcessed
      && totalWeight == processedWeight + unprocessedWeight && totalMoment == Moment(processed) + Moment(unprocessed)
      && (if processed == [] then min == max == None else
            min.Some? && max.Some? && min.value <= processed[0].mean && processed[|processed| - 1].mean <= max.value)
      && (cumulative != [] ==>
            cumulative == Cumulated(processed) || cumulative[|cumulative| - 1] < processedWeight)
      && Bounded()
    }

    ghost predicate Valid()
      reads this
    {
      Sound() && |unprocessed| <= maxUnprocessed
    }

    constructor (compression: real, integratedQ: real -> real, integratedLocation: real -> real)
      requires Scale(compression, integratedQ, integratedLocation)
      ensures Valid() && totalWeight == 0.0 && totalMoment == 0.0 && least == greatest == None && this.compression == compression
    {
      this.compression, this.integratedQ, this.integratedLocation := compression, integratedQ, integratedLocation;
      maxProcessed, maxUnprocessed := Ceil(compression) * 2, Ceil(compression) * 8;
      processed, unprocessed, cumulative, processedWeight, unprocessedWeight := [], [], [], 0.0, 0.0;
      min, max, totalWeight, totalMoment, least, greatest := None, None, 0.0, 0.0, None, None;
    }

    method Reset()
      requires Valid()
      modifies this
      ensures Valid() && totalWeight == 0.0 && totalMoment == 0.0 && processed == [] && unprocessed == []
      ensures least == greatest == None
    {
      hide Scale, Cumulated, Weight, Moment, Ceil, Positive, SortedByMean, Between;
      NoSums();
      processed, unprocessed, cumulative, processedWeight, unprocessedWeight := [], [], [], 0.0, 0.0;
      min, max, totalWeight, totalMoment, least, greatest := None, None, 0.0, 0.0, None, None;
    }

    function IntegratedQ(k: real): real {
      integratedQ(Min(k, compression))
    }

    /** `groups` are groups of the sorted centroids `done`. */
    ghost predicate Partial(done: seq<Centroid>, groups: seq<Centroid>) {
      && done != [] && groups != [] && Positive(groups) && SortedByMean(groups)
      && Weight(groups) == Weight(done) && Moment(groups) == Moment(done)
      && done[0].mean <= groups[0].mean && groups[|groups| - 1].mean <= done[|done| - 1].mean
    }

    /** With `n` groups, the last of which is open: where they lie on the scale, at least. */
    ghost predicate OnScale(n: nat, soFar: real, total: real, k: real, limit: real)
      requires total > 0.0
    {
      && n > 0 && 0.0 < soFar <= total && k >= ((n - 1) / 2) as real && limit == total * IntegratedQ(k + 1.0)
      && integratedLocation(soFar / total) > (n / 2) as real
    }

    lemma StartScale(soFar: real, total: real)
      requires Scale(compression, integratedQ, integratedLocation) && 0.0 < soFar <= total
      ensures OnScale(1, soFar, total, 0.0, total * IntegratedQ(1.0))
    {
      LocationOf(compression, integratedQ, integratedLocation, soFar, soFar, total);
    }

    lemma MergeOnScale(n: nat, soFar: real, projected: real, total: real, k: real, limit: real)
      requires Scale(compression, integratedQ, integratedLocation) && 0.0 < soFar <= projected <= total
      requires OnScale(n, soFar, total, k, limit)
      ensures OnScale(n, projected, total, k, limit)
    {
      LocationOf(compression, integratedQ, integratedLocation, soFar, projected, total);
    }

    lemma PushOnScale(n: nat, soFar: real, projected: real, total: real, k: real, limit: real, k1: real, limit1: real)
      requires Scale(compression, integratedQ, integratedLocation) && 0.0 < soFar <= projected <= total
      requires OnScale(n, soFar, total, k, limit) && projected > limit
      requires k1 == integratedLocation(soFar / total) && limit1 == total * IntegratedQ(k1 + 1.0)
      ensures OnScale(n + 1, projected, total, k1, limit1)
    {
      hide Scale;
      LocationOf(compression, integratedQ, integratedLocation, soFar, projected, total);
      BeyondLimit(compression, integratedQ, integratedLocation, k, projected, total);
      OneMoreHalf(n, k, integratedLocation(projected / total));
    }

    lemma OneMoreHalf(n: nat, k: real, location: real)
      requires n > 0 && k >= ((n - 1) / 2) as real && location > k + 1.0
      ensures location > ((n + 1) / 2) as real
    {
      assert (n + 1) / 2 == (n - 1) / 2 + 1;
    }

    lemma PushPartial(done: seq<Centroid>, groups: seq<Centroid>, c: Centroid)
      requires Partial(done, groups) && c.weight > 0.0 && done[|done| - 1].mean <= c.mean
      ensures Partial(done + [c], groups + [c])
    {
      SumsAppend(done, c);
      SumsAppend(groups, c);
    }

    lemma MergePartial(done: seq<Centroid>, groups: seq<Centroid>, c: Centroid)
      requires Partial(done, groups) && c.weight > 0.0 && done[|done| - 1].mean <= c.mean
      ensures var n := |groups| - 1; groups[n].weight > 0.0 && Partial(done + [c], groups[n := Add(groups[n], c)])
    {
      SumsAppend(done, c);
      MergeLast(groups, c);
    }

    // ----- which centroids a group consists of

    /** How much weight a group may reach that begins behind the first `from` centroids: one unit further on the scale. */
    ghost function LimitFrom(all: seq<Centroid>, from: nat, total: real): real
      requires from <= |all| && total > 0.0
    {
      total * IntegratedQ((if from == 0 then 0.0 else integratedLocation(Weight(all[..from]) / total)) + 1.0)
    }

    /** `g` stands for the centroids `from` to `to`, which are one centroid or all within the limit. */
    ghost predicate Piece(all: seq<Centroid>, from: nat, to: nat, g: Centroid, total: real)
      requires total > 0.0
    {
      && from < to <= |all| && g.weight == Weight(all[from..to]) && MomentOf(g) == Moment(all[from..to])
      && (to > from + 1 ==> Weight(all[..to]) <= LimitFrom(all, from, total))
    }

    /** The next centroid would not have fitted. */
    ghost predicate Closed(all: seq<Centroid>, from: nat, to: nat, total: real)
      requires total > 0.0
    {
      from < to < |all| && Weight(all[..to + 1]) > LimitFrom(all, from, total)
    }

    /** The groups stand for neighbouring centroids, beginning at `starts` and ending at `end`, each as large as allowed. */
    ghost predicate Clustered(all: seq<Centroid>, starts: seq<nat>, groups: seq<Centroid>, end: nat, total: real)
      requires total > 0.0
    {
      && |starts| == |groups| > 0 && starts[0] == 0
      && (forall i :: 0 <= i < |starts| - 1 ==>
            Piece(all, starts[i], starts[i + 1], groups[i], total) && Closed(all, starts[i], starts[i + 1], total))
      && Piece(all, starts[|starts| - 1], end, groups[|starts| - 1], total)
    }

    lemma OneCentroid(all: seq<Centroid>, total: real)
      requires all != [] && total > 0.0
      ensures Clustered(all, [0], [all[0]], 1, total)
    {
      SumsOne(all[0]);
      assert all[0..1] == [all[0]];
    }

    lemma JoinsCluster(all: seq<Centroid>, starts: seq<nat>, groups: seq<Centroid>, end: nat, total: real)
      requires total > 0.0 && Clustered(all, starts, groups, end, total) && Positive(all) && end < |all|
      requires Weight(all[..end + 1]) <= LimitFrom(all, starts[|starts| - 1], total)
      ensures var last := |groups| - 1;
        groups[last].weight > 0.0 && Clustered(all, starts, groups[last := Add(groups[last], all[end])], end + 1, total)
    {
      hide LimitFrom, Add, Weight, Moment;
      var last := |groups| - 1;
      var from := starts[last];
      WeightPositive(all[from..end]);
      AddedMoment(groups[last], all[end]);
      SumsAppend(all[from..end], all[end]);
      assert all[from..end + 1] == all[from..end] + [all[end]];
    }

    lemma AddedMoment(c: Centroid, r: Centroid)
      requires c.weight > 0.0 && r.weight > 0.0
      ensures Add(c, r).weight == c.weight + r.weight && MomentOf(Add(c, r)) == MomentOf(c) + r.mean * r.weight
    {
      AddConserves(c, r);
    }

    lemma StartsCluster(all: seq<Centroid>, starts: seq<nat>, groups: seq<Centroid>, end: nat, total: real)
      requires total > 0.0 && Clustered(all, starts, groups, end, total) && end < |all|
      requires Weight(all[..end + 1]) > LimitFrom(all, starts[|starts| - 1], total)
      ensures Clustered(all, starts + [end], groups + [all[end]], end + 1, total)
    {
      hide LimitFrom, Weight, Moment;
      SumsOne(all[end]);
      assert all[end..end + 1] == [all[end]];
    }

    /** A group of several centroids spans at most one unit of the scale. */
    lemma OneUnit(all: seq<Centroid>, from: nat, to: nat, g: Centroid, total: real)
      requires Scale(compression, integratedQ, integratedLocation) && Positive(all) && total == Weight(all) > 0.0
      requires Piece(all, from, to, g, total) && to > from + 1
      ensures integratedLocation(Weight(all[..to]) / total)
           <= (if from == 0 then 0.0 else integratedLocation(Weight(all[..from]) / total)) + 1.0
    {
      hide Weight, Moment, Scale;
      var k := if from == 0 then 0.0 else integratedLocation(Weight(all[..from]) / total);
      WeightOfPart(all, to);
      WeightPositive(all[..to]);
      if from > 0 {
        WeightOfPart(all, from);
        WeightPositive(all[..from]);
        LocationOf(compression, integratedQ, integratedLocation, Weight(all[..from]), total, total);
      }
      WithinLimit(compression, integratedQ, integratedLocation, k, Weight(all[..to]), total);
    }

    /** Groups neighbouring centroids as far as the scale allows. */
    method Group(all: seq<Centroid>, total: real) returns (groups: seq<Centroid>, ghost starts: seq<nat>)
      requires Scale(compression, integratedQ, integratedLocation)
      requires all != [] && Positive(all) && SortedByMean(all) && total == Weight(all)
      ensures Partial(all, groups) && |groups| < Ceil(compression) * 2
      ensures total > 0.0 && Clustered(all, starts, groups, |all|, total)
    {
      hide Scale, Weight, Moment, OnScale, Partial, IntegratedQ, Add, Clustered, LimitFrom;
      starts := [0];
      groups := [all[0]];
      var soFar := all[0].weight;
      var limit := total * IntegratedQ(1.0);
      ghost var k := 0.0;
      StartPartial(all[0]);
      assert all[..1] == [all[0]];
      WeightOfPart(all, 1);
      StartScale(soFar, total);
      OneCentroid(all, total);
      FirstLimit(all, total);
      for i := 1 to |all|
        invariant |starts| == |groups| > 0 && Clustered(all, starts, groups, i, total)
        invariant starts[|starts| - 1] <= |all| && limit == LimitFrom(all, starts[|starts| - 1], total)
        invariant Partial(all[..i], groups) && soFar == Weight(all[..i]) && 0.0 < soFar <= total
        invariant groups != [] && OnScale(|groups|, soFar, total, k, limit)
      {
        var centroid := all[i];
        var projected := soFar + centroid.weight;
        assert all[..i + 1] == all[..i] + [all[i]];
        SumsAppend(all[..i], all[i]);
        WeightOfPart(all, i);
        var last := |groups| - 1;
        if projected <= limit {
          MergeOnScale(|groups|, soFar, projected, total, k, limit);
          MergePartial(all[..i], groups, centroid);
          JoinsCluster(all, starts, groups, i, total);
          soFar := projected;
          groups := groups[last := Add(groups[last], centroid)];
        } else {
          PushPartial(all[..i], groups, centroid);
          StartsCluster(all, starts, groups, i, total);
          NextLimit(all, i, total);
          var k1 := integratedLocation(soFar / total);
          ghost var was := limit;
          limit := total * IntegratedQ(k1 + 1.0);
          PushOnScale(|groups|, soFar, projected, total, k, was, k1, limit);
          k := k1;
          soFar := soFar + centroid.weight;
          groups := groups + [centroid];
          starts := starts + [i];
        }
      }
      assert all[..|all|] == all;
      Quotients(total, total, total);
      FewGroups(|groups|, k, limit, total);
    }

    lemma FirstLimit(all: seq<Centroid>, total: real)
      requires total > 0.0
      ensures LimitFrom(all, 0, total) == total * IntegratedQ(1.0)
    {
    }

    lemma NextLimit(all: seq<Centroid>, from: nat, total: real)
      requires total > 0.0 && 0 < from <= |all|
      ensures LimitFrom(all, from, total) == total * IntegratedQ(integratedLocation(Weight(all[..from]) / total) + 1.0)
    {
    }

    /** The number of groups fits the room: every second group advances the location by more than one. */
    lemma FewGroups(n: nat, k: real, limit: real, total: real)
      requires Scale(compression, integratedQ, integratedLocation) && total > 0.0 && OnScale(n, total, total, k, limit)
      ensures n < Ceil(compression) * 2
    {
      Quotients(total, total, total);
    }

    /** `#process` */
    method Process()
      requires Sound()
      modifies this
      ensures Valid() && unprocessed == [] && SameTotals()
      ensures cumulative == old(cumulative)
      ensures Processed()
    {
      hide Scale, Weight, Moment, Cumulated, Positive, SortedByMean, Regrouped;
      if |unprocessed| > 0 || |processed| > maxProcessed {
        Regroup();
      }
    }

    /** Nothing changes unless centroids were waiting. */
    twostate predicate Processed()
      reads this
    {
      if old(unprocessed) == [] then processed == old(processed) && min == old(min) && max == old(max) else Regrouped()
    }

    /** The centroids are the groups of the earlier ones; the extremes are widened by the outermost means. */
    twostate predicate Regrouped()
      reads this`processed, this`processedWeight, this`min, this`max
    {
      && processed != [] && processedWeight > 0.0
      && (exists starts :: Clustered(SortCentroidList(old(unprocessed + processed)), starts, processed,
                                     |old(unprocessed + processed)|, processedWeight))
      && min == Some(Lowered(old(min), processed[0].mean)) && max == Some(Raised(old(max), processed[|processed| - 1].mean))
    }

    method Regroup()
      requires Sound() && unprocessed != []
      modifies this
      ensures Valid() && unprocessed == [] && SameTotals()
      ensures cumulative == old(cumulative) && Regrouped()
    {
      hide Scale, Weight, Moment, Cumulated, Partial, Positive, SortedByMean, SortCentroidList, Ceil, Clustered, Lowered, Raised,
           Bounded;
      HasBounds();
      var all := SortCentroidList(unprocessed + processed);
      AllOf(unprocessed, processed);
      CumulatedEnd(processed);
      processedWeight := processedWeight + unprocessedWeight;
      unprocessedWeight := 0.0;
      ghost var starts;
      processed, starts := Group(all, processedWeight);
      PartialMeans(all, processed);
      StillBetween(old(unprocessed), old(processed), all, processed, least.value, greatest.value);
      var first, last := processed[0].mean, processed[|processed| - 1].mean;
      WithinBounds(min, max, first, last, least.value, greatest.value);
      min, max := Some(Lowered(min, first)), Some(Raised(max, last));
      unprocessed := [];
      IsBounded(least.value, greatest.value);
    }

    lemma HasBounds()
      requires Bounded() && unprocessed != []
      ensures least.Some? && greatest.Some? && Between(unprocessed, least.value, greatest.value)
      ensures (min.Some? ==> least.value <= min.value) && (max.Some? ==> max.value <= greatest.value)
    {
    }

    lemma IsBounded(low: real, high: real)
      requires unprocessed == [] && least == Some(low) && greatest == Some(high)
      requires min.Some? && max.Some? && low <= min.value && max.value <= high
      ensures Bounded()
    {
    }

    static function Lowered(min: Option<real>, mean: real): (r: real)
      ensures r <= mean
    {
      if min.None? then mean else Min(min.value, mean)
    }

    static function Raised(max: Option<real>, mean: real): (r: real)
      ensures mean <= r
    {
      if max.None? then mean else Max(max.value, mean)
    }

    lemma AllOf(unprocessed: seq<Centroid>, processed: seq<Centroid>)
      requires Positive(unprocessed) && Positive(processed) && unprocessed != []
      ensures var all := SortCentroidList(unprocessed + processed);
        && all != [] && SortedByMean(all) && Positive(all)
        && Weight(all) == Weight(unprocessed) + Weight(processed) > Weight(processed)
        && Moment(all) == Moment(unprocessed) + Moment(processed)
      ensures Weight([]) == 0.0 && Moment([]) == 0.0 && Positive([])
    {
      hide SortCentroidList, Weight, Moment;
      SortSorts(unprocessed + processed);
      SumsJoin(unprocessed, processed);
      WeightPositive(unprocessed);
      NoSums();
    }

    lemma NoSums()
      ensures Weight([]) == 0.0 && Moment([]) == 0.0 && Positive([]) && SortedByMean([])
    {
    }

    lemma PartialMeans(all: seq<Centroid>, groups: seq<Centroid>)
      requires Partial(all, groups)
      ensures groups != [] && Positive(groups) && SortedByMean(groups)
      ensures Weight(groups) == Weight(all) && Moment(groups) == Moment(all)
      ensures all != [] && all[0].mean <= groups[0].mean && groups[|groups| - 1].mean <= all[|all| - 1].mean
    {
    }

    lemma WithinBounds(min: Option<real>, max: Option<real>, first: real, last: real, low: real, high: real)
      requires low <= first && last <= high && (min.Some? ==> low <= min.value) && (max.Some? ==> max.value <= high)
      ensures low <= Lowered(min, first) && Raised(max, last) <= high
    {
    }

    /** Grouping takes no mean out of the bounds. */
    lemma StillBetween(unprocessed: seq<Centroid>, processed: seq<Centroid>, all: seq<Centroid>, groups: seq<Centroid>,
                       low: real, high: real)
      requires Between(unprocessed, low, high) && SortedByMean(processed) && all == SortCentroidList(unprocessed + processed)
      requires processed != [] ==> low <= processed[0].mean && processed[|processed| - 1].mean <= high
      requires all != [] && groups != []
      requires all[0].mean <= groups[0].mean && groups[|groups| - 1].mean <= all[|all| - 1].mean
      ensures low <= groups[0].mean && groups[|groups| - 1].mean <= high
    {
      hide SortCentroidList;
      SortBetween(unprocessed + processed, low, high);
    }

    /** The over-full branch is never the reason to process: there is always room for the processed centroids. */
    lemma NeverOverfull()
      requires Valid()
      ensures !(|processed| > maxProcessed)
    {
    }

    /** `addCentroid`: weights that are not positive are ignored. */
    method AddCentroid(c: Centroid)
      requires Valid()
      modifies this
      ensures Valid()
      ensures totalWeight == old(totalWeight) + (if c.weight <= 0.0 then 0.0 else c.weight)
      ensures totalMoment == old(totalMoment) + (if c.weight <= 0.0 then 0.0 else c.mean * c.weight)
      ensures if c.weight <= 0.0 then processed == old(processed) && unprocessed == old(unprocessed)
              else if |old(unprocessed)| < maxUnprocessed then processed == old(processed) && unprocessed == old(unprocessed) + [c]
              else unprocessed == []
      ensures forall low, high :: Inside(low, high) <==> old(Inside(low, high)) && (c.weight > 0.0 ==> low <= c.mean <= high)
    {
      hide Scale, Weight, Moment, Cumulated, SortedByMean, Ceil;
      if c.weight <= 0.0 {
        return;
      }
      SumsAppend(unprocessed, c);
      unprocessed := unprocessed + [c];
      unprocessedWeight := unprocessedWeight + c.weight;
      totalWeight, totalMoment := totalWeight + c.weight, totalMoment + c.mean * c.weight;
      least, greatest := Some(Lowered(least, c.mean)), Some(Raised(greatest, c.mean));
      if |processed| > maxProcessed || |unprocessed| > maxUnprocessed {
        Process();
      }
    }

    method AddCentroidList(list: seq<Centroid>)
      requires Valid()
      modifies this
      ensures Valid() && totalWeight == old(totalWeight) + Weight(Accepted(list))
      ensures totalMoment == old(totalMoment) + Moment(Accepted(list))
      ensures forall low, high :: old(Inside(low, high)) && Between(list, low, high) ==> Inside(low, high)
    {
      hide Valid, Weight, Moment, Accepted, Inside;
      NoneAccepted();
      assert list[..0] == [];
      for i := 0 to |list|
        invariant Valid()
        invariant totalWeight == old(totalWeight) + Weight(Accepted(list[..i]))
        invariant totalMoment == old(totalMoment) + Moment(Accepted(list[..i]))
        invariant forall low, high :: old(Inside(low, high)) && Between(list, low, high) ==> Inside(low, high)
      {
        NextAccepted(list, i);
        AddCentroid(list[i]);
      }
      assert list[..|list|] == list;
    }

    lemma NoneAccepted()
      ensures Accepted([]) == [] && Weight([]) == 0.0 && Moment([]) == 0.0
    {
    }

    /** `merge`, of another digest: everything that the other has accepted is accepted here. */
    method Merge(other: TDigest)
      requires Valid() && other.Valid() && other != this
      modifies this, other
      ensures Valid() && other.Valid() && other.totalWeight == old(other.totalWeight)
      ensures totalWeight == old(totalWeight + other.totalWeight) && totalMoment == old(totalMoment + other.totalMoment)
      ensures forall low, high :: old(Inside(low, high) && other.Inside(low, high)) ==> Inside(low, high)
    {
      hide Sound, Weight, Moment, Accepted, Between;
      other.Process();
      other.AllProcessed();
      AddCentroidList(other.processed);
    }

    lemma AllProcessed()
      requires Valid() && unprocessed == []
      ensures Accepted(processed) == processed && Weight(processed) == totalWeight && Moment(processed) == totalMoment
      ensures forall low, high :: Inside(low, high) ==> Between(processed, low, high)
    {
      hide Scale, Cumulated;
      AllAccepted(processed);
      NoSums();
    }

    /** `count`: the sum of all accepted weights. */
    method Count() returns (r: real)
      requires Valid()
      modifies this
      ensures Valid() && r == totalWeight && SameTotals()
    {
      Process();
      r := processedWeight;
    }

    /** `#updateCumulative`: the shortcut is taken only when nothing has changed since the last update. */
    method UpdateCumulative()
      requires Valid() && unprocessed == []
      modifies this`cumulative
      ensures Valid() && cumulative == Cumulated(processed)
    {
      hide Scale, Cumulated;
      if |cumulative| > 0 && cumulative[|cumulative| - 1] == processedWeight {
        return;
      }
      cumulative := Cumulate(processed, cumulative);
    }

    lemma SumsAgree()
      requires Valid() && unprocessed == []
      ensures totalWeight == processedWeight >= 0.0 && (processed != [] <==> totalWeight > 0.0)
    {
      WeightPositive(processed);
      NoSums();
    }

    /** `quantile`; None where the program answers NaN. */
    method Quantile(q: real) returns (r: Option<real>)
      requires Valid()
      modifies this
      ensures Valid() && unprocessed == [] && SameTotals() && Processed()
      ensures r.None? <==> q < 0.0 || q > 1.0 || totalWeight == 0.0
      ensures r.Some? ==> min.Some? && max.Some? && IsQuantile(processed, min.value, max.value, Times(q, totalWeight), r.value)
      ensures r.Some? ==> AnswersQuantile(q, r.value)
    {
      hide Valid, SortedByMean, Positive, IsQuantile, Regrouped, Times, Weight, AnswersQuantile;
      r := FindQuantile(q);
      if r.Some? {
        HasWeight();
        InOrder();
        TimesRises(q, q, totalWeight);
        QuantileAnswered(q, r.value);
      }
    }

    /** The answer is on the lines, at the share `q` of the total weight. */
    ghost predicate AnswersQuantile(q: real, r: real)
      reads this
    {
      min.Some? && max.Some?
      && forall index :: index == q * totalWeight ==> OnQuantileLine(processed, min.value, max.value, index, r)
    }

    lemma QuantileAnswered(q: real, r: real)
      requires Positive(processed) && SortedByMean(processed) && processed != [] && Weight(processed) == totalWeight
      requires min.Some? && max.Some? && processed[|processed| - 1].mean <= max.value && Times(q, totalWeight) <= totalWeight
      requires IsQuantile(processed, min.value, max.value, Times(q, totalWeight), r)
      ensures AnswersQuantile(q, r)
    {
      hide Positive, SortedByMean, OnQuantileLine, IsQuantile, Weight;
      forall index | index == q * totalWeight ensures OnQuantileLine(processed, min.value, max.value, index, r) {
        assert index == Times(q, totalWeight);
        QuantileOnLine(processed, min.value, max.value, index, r);
      }
    }

    /** What the lines need. */
    lemma InOrder()
      requires Valid() && totalWeight > 0.0 && unprocessed == []
      ensures processed != [] && Positive(processed) && SortedByMean(processed) && Weight(processed) == totalWeight
      ensures min.Some? && max.Some? && min.value <= processed[0].mean && processed[|processed| - 1].mean <= max.value
    {
      hide Scale, Cumulated, Moment;
      HasWeight();
    }

    method FindQuantile(q: real) returns (r: Option<real>)
      requires Valid()
      modifies this
      ensures Valid() && unprocessed == [] && SameTotals() && Processed()
      ensures r.None? <==> q < 0.0 || q > 1.0 || totalWeight == 0.0
      ensures r.Some? ==> min.Some? && max.Some? && IsQuantile(processed, min.value, max.value, Times(q, totalWeight), r.value)
    {
      hide Scale, Cumulated, Weight, Moment, SortedByMean, LeftValue, WeightedAverage, Times, Regrouped;
      Process();
      UpdateCumulative();
      SumsAgree();
      if q < 0.0 || q > 1.0 || |processed| == 0 {
        return None;
      }
      if |processed| == 1 {
        return Some(processed[0].mean);
      }
      var index := Times(q, processedWeight);
      if index <= processed[0].weight / 2.0 {
        return Some(LeftValue(processed[0], min.value, index));
      }
      TimesRises(q, q, processedWeight);
      var lower := FindIndex(processed, cumulative, index);
      CumulatedRises(processed, lower - 1, lower);
      if lower + 1 != |cumulative| {
        var z1 := index - cumulative[lower - 1];
        var z2 := cumulative[lower] - index;
        return Some(WeightedAverage(processed[lower - 1].mean, z2, processed[lower].mean, z1));
      }
      var z1 := index - processedWeight - processed[lower - 1].weight / 2.0;
      var z2 := processed[lower - 1].weight / 2.0 - z1;
      RightTail(processed[lower - 1].mean, processed[lower - 1].weight, max.value, z1);
      return Some(WeightedAverage(processed[|processed| - 1].mean, z1, max.value, z2));
    }

    /** Two answers of `quantile` in the same state: within the extremes, and in the order of the questions. */
    lemma QuantileMonotone(q: real, r: real, q': real, r': real)
      requires Valid() && processed != [] && 0.0 <= q <= q' <= 1.0
      requires IsQuantile(processed, min.value, max.value, Times(q, processedWeight), r)
      requires IsQuantile(processed, min.value, max.value, Times(q', processedWeight), r')
      ensures min.value <= r <= r' <= max.value
    {
      hide Scale, Weight, Cumulated, Moment, IsQuantile, Times;
      WeightPositive(processed);
      TimesRises(q, q', processedWeight);
      QuantilesRise(processed, min.value, max.value, Times(q, processedWeight), r, Times(q', processedWeight), r');
    }

    /** Two answers of `cdf` in the same state. */
    lemma CdfMonotone(x: real, r: real, y: real, r': real)
      requires Valid() && processed != [] && Weight(processed) > 0.0 && x <= y
      requires IsCdf(processed, min.value, max.value, x, r) && IsCdf(processed, min.value, max.value, y, r')
      ensures 0.0 <= r <= r' <= 1.0
    {
      hide Scale, Weight, Cumulated, Moment, IsCdf;
      SharesRise(processed, min.value, max.value, x, r, y, r');
    }

    /** `cdf` */
    method Cdf(x: real) returns (r: real)
      requires Valid()
      modifies this
      ensures Valid() && unprocessed == [] && SameTotals() && Processed()
      ensures totalWeight == 0.0 ==> r == 0.0
      ensures totalWeight > 0.0 ==> min.Some? && max.Some? && IsCdf(processed, min.value, max.value, x, r)
      ensures totalWeight > 0.0 ==> processed != [] && OnShareLine(processed, min.value, max.value, x, r * totalWeight)
    {
      hide Valid, SortedByMean, Positive, OnShareLine, IsCdf, Regrouped;
      r := FindShare(x);
      HasWeight();
      if totalWeight > 0.0 {
        InOrder();
        ghost var below := r * totalWeight;
        ShareOnLine(processed, min.value, max.value, x, r, below);
      }
    }

    method FindShare(x: real) returns (r: real)
      requires Valid()
      modifies this
      ensures Valid() && unprocessed == [] && SameTotals() && Processed()
      ensures totalWeight == 0.0 ==> r == 0.0
      ensures totalWeight > 0.0 ==> min.Some? && max.Some? && IsCdf(processed, min.value, max.value, x, r)
    {
      hide Scale, Cumulated, Weight, Moment, TailShare, Share, WeightedAverage, Regrouped;
      Process();
      UpdateCumulative();
      SumsAgree();
      var n := |processed| - 1;
      if n < 0 {
        return 0.0;
      }
      if n == 0 {
        var width := max.value - min.value;
        if x <= min.value {
          return 0.0;
        }
        if x >= max.value {
          return 1.0;
        }
        if x - min.value > width {
          // Here the program divides the difference by the width; it never gets here.
          assert false;
        }
        return 0.5;
      }
      if x <= min.value {
        return 0.0;
      }
      if x >= max.value {
        return 1.0;
      }
      var m0 := processed[0].mean;
      if x <= m0 {
        if m0 - min.value > 0.0 {
          return TailShare(x - min.value, m0 - min.value, processed[0].weight, processedWeight);
        }
        return 0.0;
      }
      var mn := processed[n].mean;
      if x >= mn {
        if max.value - mn > 0.0 {
          return 1.0 - TailShare(max.value - x, max.value - mn, processed[n].weight, processedWeight);
        }
        return 1.0;
      }
      var upper := FindMean(processed, x);
      var z1 := x - processed[upper - 1].mean;
      var z2 := processed[upper].mean - x;
      return Share(WeightedAverage(cumulative[upper - 1], z2, cumulative[upper], z1), processedWeight);
    }

    /** Two questions in a row, whatever was waiting before the first. */
    method TwoQuantiles(q: real, q': real) returns (r: Option<real>, r': Option<real>)
      requires Valid() && 0.0 <= q <= q' <= 1.0
      modifies this
      ensures Valid() && unprocessed == [] && totalWeight == old(totalWeight)
      ensures if totalWeight == 0.0 then r == r' == None
              else r.Some? && r'.Some? && min.Some? && max.Some? && min.value <= r.value <= r'.value <= max.value
      ensures least == old(least) && greatest == old(greatest)
      ensures totalWeight > 0.0 ==> least.Some? && greatest.Some? && least.value <= r.value <= r'.value <= greatest.value
    {
      hide Scale, Cumulated, Weight, Moment, SortedByMean, Positive, IsQuantile, Times, Regrouped;
      r := Quantile(q);
      r' := Quantile(q');
      if r.Some? {
        HasWeight();
        QuantileMonotone(q, r.value, q', r'.value);
      }
    }

    method TwoShares(x: real, y: real) returns (r: real, r': real)
      requires Valid() && x <= y
      modifies this
      ensures Valid() && unprocessed == [] && totalWeight == old(totalWeight)
      ensures 0.0 <= r <= r' <= 1.0
    {
      hide Scale, Cumulated, Weight, Moment, SortedByMean, Positive, IsCdf, Regrouped;
      r := Cdf(x);
      r' := Cdf(y);
      HasWeight();
      if totalWeight > 0.0 { CdfMonotone(x, r, y, r'); }
    }

    /** There is weight exactly if there are centroids. */
    lemma HasWeight()
      requires Valid() && unprocessed == []
      ensures totalWeight == processedWeight == Weight(processed) >= 0.0 && (totalWeight > 0.0 <==> processed != [])
    {
      hide Scale, Cumulated;
      WeightPositive(processed);
      NoSums();
    }

    lemma StartPartial(c: Centroid)
      requires c.weight > 0.0
      ensures Partial([c], [c]) && Weight([c]) == c.weight
    {
      SumsOne(c);
    }
  }

  /** Assignment to an array element, possibly the one after the last. */
  function SetAt<A>(s: seq<A>, i: nat, x: A): seq<A>
    requires i <= |s|
  {
    if i < |s| then s[i := x] else s + [x]
  }

  function Sign(x: real): int { if x > 0.0 then 1 else if x < 0.0 then -1 else 0 }

  /** The binary search of `quantile`. */
  method FindIndex(s: seq<Centroid>, cumulative: seq<real>, index: real) returns (lower: nat)
    requires |s| > 1 && Positive(s) && cumulative == Cumulated(s) && s[0].weight / 2.0 < index <= Weight(s)
    ensures Reaches(s, index, lower)
  {
    hide Weight;
    var compare := i requires 0 <= i < |cumulative| => Sign(index - cumulative[i]);
    forall i, j | 0 <= i <= j < |cumulative|
      ensures (compare(i) <= 0 ==> compare(j) <= 0) && (compare(i) < 0 ==> compare(j) < 0)
    {
      if i < j { CumulatedRises(s, i, j); }
    }
    lower := BinarySearch.Search(|cumulative|, compare);
    CumulatedStart(s);
    if lower < |cumulative| && compare(lower) == 0 {
      if lower > 0 { CumulatedRises(s, lower - 1, lower); }
    } else {
      assert lower > 0 by { assert compare(0) > 0; }
      assert compare(lower - 1) > 0;
      assert compare(|s|) <= 0;
    }
  }

  /** The binary search of `cdf`, in which equal means count as below. */
  method FindMean(s: seq<Centroid>, x: real) returns (upper: nat)
    requires |s| > 1 && SortedByMean(s) && s[0].mean < x < s[|s| - 1].mean
    ensures Crosses(s, x, upper)
  {
    var compare := i requires 0 <= i < |s| => if x - s[i].mean != 0.0 then Sign(x - s[i].mean) else 1;
    upper := BinarySearch.Search(|s|, compare);
    assert compare(0) > 0 && compare(|s| - 1) < 0;
    assert upper > 0 && compare(upper - 1) > 0;
  }

  /** Merging a centroid into the last group. */
  lemma MergeLast(groups: seq<Centroid>, c: Centroid)
    requires groups != [] && Positive(groups) && SortedByMean(groups) && c.weight > 0.0
    requires groups[|groups| - 1].mean <= c.mean
    ensures var n := |groups| - 1; var r := groups[n := Add(groups[n], c)];
      && Positive(r) && SortedByMean(r) && Weight(r) == Weight(groups) + c.weight
      && Moment(r) == Moment(groups) + c.mean * c.weight
      && r[n].mean <= c.mean && groups[0].mean <= r[0].mean
  {
    var n := |groups| - 1;
    AddConserves(groups[n], c);
    var r := groups[n := Add(groups[n], c)];
    assert r[..n] == groups[..n];
  }
}
