/** Lists with the same members, and places in lists. */
module Lists {
  /** The first of `xs` is somewhere in `ys`; without it, the members are still the same. */
  lemma Without<A>(xs: seq<A>, ys: seq<A>) returns (i: nat)
    requires multiset(xs) == multiset(ys) && xs != []
    ensures i < |ys| && ys[i] == xs[0] && multiset(xs[1..]) == multiset(ys[..i] + ys[i + 1..])
    ensures ys == ys[..i] + ([ys[i]] + ys[i + 1..])
  {
    i := Position(xs, ys);
    Apart(ys[..i], ys[i], ys[i + 1..]);
    Apart([], xs[0], xs[1..]);
    assert xs == [] + ([xs[0]] + xs[1..]) && ys == ys[..i] + ([ys[i]] + ys[i + 1..]);
    assert [] + xs[1..] == xs[1..];
    Cancel(multiset(xs[1..]), multiset(ys[..i] + ys[i + 1..]), xs[0]);
  }

  lemma Position<A>(xs: seq<A>, ys: seq<A>) returns (i: nat)
    requires multiset(xs) == multiset(ys) && xs != []
    ensures i < |ys| && ys[i] == xs[0]
  {
    assert xs[0] in multiset(ys);
    i :| 0 <= i < |ys| && ys[i] == xs[0];
  }

  lemma Apart<A>(a: seq<A>, x: A, b: seq<A>)
    ensures multiset(a + ([x] + b)) == multiset(a + b) + multiset{x}
  {
  }

  lemma Cancel<A>(a: multiset<A>, b: multiset<A>, x: A)
    requires a + multiset{x} == b + multiset{x}
    ensures a == b
  {
    assert a == a + multiset{x} - multiset{x};
    assert b == b + multiset{x} - multiset{x};
  }

  // ----- places in a list

  /** The places of the elements of `s` with the property, in order. */
  ghost predicate Places<A>(at: seq<nat>, s: seq<A>, p: A -> bool) {
    && (forall i, j :: 0 <= i < j < |at| ==> at[i] < at[j])
    && (forall i :: 0 <= i < |at| ==> at[i] < |s| && p(s[at[i]]))
    && (forall k :: 0 <= k < |s| && p(s[k]) ==> exists i :: 0 <= i < |at| && at[i] == k)
  }

  /** The elements at some places. */
  ghost predicate Gathers<A>(r: seq<A>, s: seq<A>, at: seq<nat>) {
    |r| == |at| && forall i :: 0 <= i < |at| ==> at[i] < |s| && r[i] == s[at[i]]
  }

  ghost function Shifted(at: seq<nat>): (r: seq<nat>)
    ensures |r| == |at| && forall i :: 0 <= i < |at| ==> r[i] == at[i] + 1
  {
    seq(|at|, i requires 0 <= i < |at| => at[i] + 1)
  }

  lemma PlacesMore<A>(at: seq<nat>, s: seq<A>, p: A -> bool)
    requires s != [] && Places(at, s[1..], p)
    ensures Places(if p(s[0]) then [0] + Shifted(at) else Shifted(at), s, p)
  {
    hide Places, Shifted;
    PlacesShifted(at, s, p);
    if p(s[0]) { PlacesFirst(Shifted(at), s, p); } else { PlacesNotFirst(Shifted(at), s, p); }
  }

  /** The places behind the first element. */
  ghost predicate PlacesRest<A>(at: seq<nat>, s: seq<A>, p: A -> bool) {
    && (forall i, j :: 0 <= i < j < |at| ==> at[i] < at[j])
    && (forall i :: 0 <= i < |at| ==> 0 < at[i] < |s| && p(s[at[i]]))
    && (forall k :: 0 < k < |s| && p(s[k]) ==> exists i :: 0 <= i < |at| && at[i] == k)
  }

  lemma PlacesShifted<A>(at: seq<nat>, s: seq<A>, p: A -> bool)
    requires s != [] && Places(at, s[1..], p)
    ensures PlacesRest(Shifted(at), s, p)
  {
    var more := Shifted(at);
    forall i | 0 <= i < |more| ensures 0 < more[i] < |s| && p(s[more[i]]) { assert s[more[i]] == s[1..][at[i]]; }
    forall k | 0 < k < |s| && p(s[k]) ensures exists i :: 0 <= i < |more| && more[i] == k {
      assert s[1..][k - 1] == s[k];
      var i :| 0 <= i < |at| && at[i] == k - 1;
      assert more[i] == k;
    }
  }

  lemma PlacesFirst<A>(at: seq<nat>, s: seq<A>, p: A -> bool)
    requires s != [] && p(s[0]) && PlacesRest(at, s, p)
    ensures Places([0] + at, s, p)
  {
    var more := [0] + at;
    forall k | 0 <= k < |s| && p(s[k]) ensures exists i :: 0 <= i < |more| && more[i] == k {
      if k == 0 {
        assert more[0] == k;
      } else {
        var i :| 0 <= i < |at| && at[i] == k;
        assert more[i + 1] == k;
      }
    }
  }

  lemma PlacesNotFirst<A>(at: seq<nat>, s: seq<A>, p: A -> bool)
    requires s != [] && !p(s[0]) && PlacesRest(at, s, p)
    ensures Places(at, s, p)
  {
  }

  lemma PlacesAtEnd<A>(at: seq<nat>, s: seq<A>, p: A -> bool)
    requires s != [] && Places(at, s[..|s| - 1], p)
    ensures Places(if p(s[|s| - 1]) then at + [|s| - 1] else at, s, p)
  {
    var n := |s| - 1;
    var more := if p(s[n]) then at + [n] else at;
    forall k | 0 <= k < |s| && p(s[k]) ensures exists i :: 0 <= i < |more| && more[i] == k {
      if k < n {
        assert s[..n][k] == s[k];
        var i :| 0 <= i < |at| && at[i] == k;
        assert more[i] == k;
      } else {
        assert more[|at|] == n;
      }
    }
  }

  lemma GathersMore<A>(r: seq<A>, s: seq<A>, at: seq<nat>, first: bool)
    requires s != [] && Gathers(r, s[1..], at)
    ensures Gathers(if first then [s[0]] + r else r, s, if first then [0] + Shifted(at) else Shifted(at))
  {
  }

  lemma Nothing<A>(p: A -> bool)
    ensures Places([], [], p) && Gathers<A>([], [], [])
  {
  }
}
