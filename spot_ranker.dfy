/** The ranking step of `loadSpots` as functions on sequences: annotate every
    spot with its distance from the user, then sort stably by that distance.
    The in-place methods in module RankInPlace are proved equal to these. */
module SpotRanker {
  import opened Spots

  /** The spot with `distance` set to its distance from `user`. */
  function WithDistance(s: Spot, user: Coord, dist: Metric): (r: Spot)
    requires WellFormed(s)
    ensures r.name == s.name && r.description == s.description && r.location == s.location
    ensures HasDistance(r) && Key(r) == dist(user, Coord(s.location[0], s.location[1]))
  {
    s.(distance := Some(dist(user, Position(s))))
  }

  /** The `spots.forEach(spot => { spot.distance = ... })` pass. */
  function Annotate(s: seq<Spot>, user: Coord, dist: Metric): (r: seq<Spot>)
    requires AllWellFormed(s)
    ensures |r| == |s|
    ensures forall i :: 0 <= i < |s| ==>
      r[i].name == s[i].name && r[i].description == s[i].description && r[i].location == s[i].location
    ensures forall i :: 0 <= i < |s| ==>
      r[i].distance == Some(dist(user, Coord(s[i].location[0], s[i].location[1])))
    ensures AllWellFormed(r) && AllHaveDistance(r)
  {
    if |s| == 0 then [] else [WithDistance(s[0], user, dist)] + Annotate(s[1..], user, dist)
  }

  /** Every spot already carries its own distance from `user`. */
  predicate DistancesFrom(s: seq<Spot>, user: Coord, dist: Metric) {
    forall i :: 0 <= i < |s| ==> WellFormed(s[i]) && s[i].distance == Some(dist(user, Position(s[i])))
  }

  /** Non-decreasing by distance: `spots[i].distance <= spots[j].distance` for `i < j`. */
  predicate Sorted(s: seq<Spot>) {
    AllHaveDistance(s) && forall i, j :: 0 <= i < j < |s| ==> Key(s[i]) <= Key(s[j])
  }

  /** The spots of `s` whose distance is `k`, in their order in `s`. A sort is
      stable exactly when it leaves every such subsequence as it was. */
  function Ties(s: seq<Spot>, k: real): seq<Spot>
    requires AllHaveDistance(s)
  {
    if |s| == 0 then []
    else Ties(s[..|s| - 1], k) + (if Key(s[|s| - 1]) == k then [s[|s| - 1]] else [])
  }

  /** `u` keeps the relative order of every group of equal-distance spots of `s`. */
  ghost predicate StableWith(u: seq<Spot>, s: seq<Spot>) {
    AllHaveDistance(u) && AllHaveDistance(s) && forall k :: Ties(u, k) == Ties(s, k)
  }

  /** One step of insertion sort: `x` moves left past every element that the
      comparator puts after it, and stops behind the first one that it does not. */
  function Insert(t: seq<Spot>, x: Spot): (r: seq<Spot>)
    requires AllHaveDistance(t) && HasDistance(x)
    ensures |r| == |t| + 1
    ensures AllHaveDistance(r)
  {
    if |t| == 0 then [x]
    else if Compare(t[|t| - 1], x) <= 0.0 then t + [x]
    else Insert(t[..|t| - 1], x) + [t[|t| - 1]]
  }

  /** The stable sort by distance, as insertion sort: each element in turn is
      inserted into the sorted prefix before it. */
  function SortByDistance(s: seq<Spot>): (r: seq<Spot>)
    requires AllHaveDistance(s)
    ensures |r| == |s|
    ensures AllHaveDistance(r)
  {
    if |s| == 0 then [] else Insert(SortByDistance(s[..|s| - 1]), s[|s| - 1])
  }

  /** The whole ranking step: the spots in the order and with the fields that
      `addMarkersAndRows` receives. */
  function Ranked(s: seq<Spot>, userLocation: Option<Coord>, dist: Metric): (r: seq<Spot>)
    requires AllWellFormed(s)
    ensures userLocation.None? ==> r == s
    ensures userLocation.Some? ==>
      var annotated := Annotate(s, userLocation.value, dist);
      Sorted(r) && multiset(r) == multiset(annotated) && StableWith(r, annotated)
  {
    match userLocation
    case None => s
    case Some(user) =>
      var annotated := Annotate(s, user, dist);
      SortByDistanceSorted(annotated);
      SortByDistancePermutes(annotated);
      SortByDistanceStable(annotated);
      SortByDistance(annotated)
  }

  // ---------------------------------------------------------------------------
  // Permutation

  lemma {:induction false} InsertPermutes(t: seq<Spot>, x: Spot)
    requires AllHaveDistance(t) && HasDistance(x)
    ensures multiset(Insert(t, x)) == multiset(t) + multiset{x}
  {
    if |t| > 0 && Compare(t[|t| - 1], x) > 0.0 {
      var init, last := t[..|t| - 1], t[|t| - 1];
      InsertPermutes(init, x);
      assert t == init + [last];
    }
  }

  /** The sorted array holds the same spots as before, each as often. */
  lemma {:induction false} SortByDistancePermutes(s: seq<Spot>)
    requires AllHaveDistance(s)
    ensures multiset(SortByDistance(s)) == multiset(s)
  {
    if |s| > 0 {
      var init, last := s[..|s| - 1], s[|s| - 1];
      var sortedInit := SortByDistance(init);
      assert SortByDistance(s) == Insert(sortedInit, last);
      SortByDistancePermutes(init);
      InsertPermutes(sortedInit, last);
      assert s == init + [last];
      assert multiset(s) == multiset(init) + multiset{last};
    }
  }

  // ---------------------------------------------------------------------------
  // Sortedness

  lemma {:induction false} InsertSorted(t: seq<Spot>, x: Spot)
    requires Sorted(t) && HasDistance(x)
    ensures Sorted(Insert(t, x))
  {
    if |t| == 0 {
    } else if Compare(t[|t| - 1], x) <= 0.0 {
      var r := t + [x];
      forall i, j | 0 <= i < j < |r| ensures Key(r[i]) <= Key(r[j]) {
        if j < |t| {
          assert r[i] == t[i] && r[j] == t[j];
        } else {
          assert r[i] == t[i] && Key(t[i]) <= Key(t[|t| - 1]);
        }
      }
    } else {
      var init, last := t[..|t| - 1], t[|t| - 1];
      InsertSorted(init, x);
      InsertPermutes(init, x);
      var head := Insert(init, x);
      var r := head + [last];
      forall i | 0 <= i < |head| ensures Key(head[i]) <= Key(last) {
        var y := head[i];
        assert y in multiset(head);
        if y != x {
          assert y in multiset(init);
          var m :| 0 <= m < |init| && init[m] == y;
          assert t[m] == y;
        }
      }
      forall i, j | 0 <= i < j < |r| ensures Key(r[i]) <= Key(r[j]) {
        if j < |head| {
          assert r[i] == head[i] && r[j] == head[j];
        } else {
          assert r[i] == head[i] && r[j] == last;
        }
      }
    }
  }

  /** Where insertion puts `x`: right after the last element that the comparator
      does not put after it, that is, in front of the run of larger elements
      at the end of `t`. */
  lemma {:induction false} InsertLands(t: seq<Spot>, x: Spot, j: int)
    requires AllHaveDistance(t) && HasDistance(x) && 0 <= j <= |t|
    requires forall k :: j <= k < |t| ==> Compare(t[k], x) > 0.0
    requires j > 0 ==> Compare(t[j - 1], x) <= 0.0
    ensures Insert(t, x) == t[..j] + [x] + t[j..]
  {
    if j == |t| {
      InsertAfterLast(t, x);
    } else {
      var init, last := t[..|t| - 1], t[|t| - 1];
      InsertPastLast(t, init, x, j);
      InsertLands(init, x, j);
      assert init[..j] == t[..j];
      assert init[j..] + [last] == t[j..];
    }
  }

  /** With nothing after it to pass, `x` goes at the end. */
  lemma InsertAfterLast(t: seq<Spot>, x: Spot)
    requires AllHaveDistance(t) && HasDistance(x)
    requires |t| > 0 ==> Compare(t[|t| - 1], x) <= 0.0
    ensures Insert(t, x) == t[..|t|] + [x] + t[|t|..]
  {
    assert t[..|t|] == t && t[|t|..] == [];
  }

  /** `x` passes the last element of `t`, and the rest of the run of larger
      elements lies in the prefix. */
  lemma InsertPastLast(t: seq<Spot>, init: seq<Spot>, x: Spot, j: int)
    requires AllHaveDistance(t) && HasDistance(x) && 0 <= j < |t| && init == t[..|t| - 1]
    requires forall k :: j <= k < |t| ==> Compare(t[k], x) > 0.0
    requires j > 0 ==> Compare(t[j - 1], x) <= 0.0
    ensures AllHaveDistance(init)
    ensures Insert(t, x) == Insert(init, x) + [t[|t| - 1]]
    ensures forall k :: j <= k < |init| ==> Compare(init[k], x) > 0.0
    ensures j > 0 ==> Compare(init[j - 1], x) <= 0.0
  {
    assert Compare(t[|t| - 1], x) > 0.0;
    assert forall k :: 0 <= k < |init| ==> init[k] == t[k];
  }

  /** Sorting by distance, as `spots.sort(...)` promises, yields a non-decreasing order. */
  lemma {:induction false} SortByDistanceSorted(s: seq<Spot>)
    requires AllHaveDistance(s)
    ensures Sorted(SortByDistance(s))
  {
    if |s| > 0 {
      SortByDistanceSorted(s[..|s| - 1]);
      InsertSorted(SortByDistance(s[..|s| - 1]), s[|s| - 1]);
    }
  }

  // ---------------------------------------------------------------------------
  // Stability

  /** Insertion puts `x` behind every element of equal distance already there. */
  lemma {:induction false} InsertTies(t: seq<Spot>, x: Spot, k: real)
    requires AllHaveDistance(t) && HasDistance(x)
    ensures Ties(Insert(t, x), k) == Ties(t, k) + (if Key(x) == k then [x] else [])
  {
    if |t| == 0 {
      assert Ties([x], k) == Ties([x][..0], k) + (if Key(x) == k then [x] else []);
    } else if Compare(t[|t| - 1], x) <= 0.0 {
      assert (t + [x])[..|t|] == t;
    } else {
      var init, last := t[..|t| - 1], t[|t| - 1];
      var head := Insert(init, x);
      InsertTies(init, x, k);
      assert (head + [last])[..|head|] == head;
      assert Ties(head + [last], k) == Ties(head, k) + (if Key(last) == k then [last] else []);
    }
  }

  /** Stability: spots at equal distance keep their relative input order. */
  lemma {:induction false} SortByDistanceStable(s: seq<Spot>)
    requires AllHaveDistance(s)
    ensures StableWith(SortByDistance(s), s)
  {
    forall k ensures Ties(SortByDistance(s), k) == Ties(s, k) {
      SortByDistanceTies(s, k);
    }
  }

  lemma {:induction false} SortByDistanceTies(s: seq<Spot>, k: real)
    requires AllHaveDistance(s)
    ensures Ties(SortByDistance(s), k) == Ties(s, k)
  {
    if |s| > 0 {
      SortByDistanceTies(s[..|s| - 1], k);
      InsertTies(SortByDistance(s[..|s| - 1]), s[|s| - 1], k);
    }
  }

  // ---------------------------------------------------------------------------
  // Uniqueness: sorted plus stable pins the result down

  lemma {:induction false} TiesElements(s: seq<Spot>, k: real)
    requires AllHaveDistance(s)
    ensures forall y :: y in Ties(s, k) ==> y in s && HasDistance(y) && Key(y) == k
  {
    if |s| > 0 {
      var init := s[..|s| - 1];
      TiesElements(init, k);
      forall y | y in init ensures y in s {
        var m :| 0 <= m < |init| && init[m] == y;
        assert s[m] == y;
      }
    }
  }

  /** The last spot of a sorted sequence is as far away as any spot in it. */
  lemma SortedLastIsFarthest(s: seq<Spot>, y: Spot)
    requires Sorted(s) && y in s
    ensures HasDistance(y) && Key(y) <= Key(s[|s| - 1])
  {
    var m :| 0 <= m < |s| && s[m] == y;
    if m < |s| - 1 {
      assert Key(s[m]) <= Key(s[|s| - 1]);
    }
  }

  lemma SortedPrefix(s: seq<Spot>, n: nat)
    requires Sorted(s) && n <= |s|
    ensures Sorted(s[..n])
  {
    assert forall i :: 0 <= i < n ==> s[..n][i] == s[i];
  }

  /** The farthest spot of `u` has a spot at the same distance in `v`, so `v`
      reaches at least as far. */
  lemma LastDistanceBound(u: seq<Spot>, v: seq<Spot>)
    requires Sorted(u) && Sorted(v) && StableWith(u, v) && |u| > 0
    ensures |v| > 0 && Key(u[|u| - 1]) <= Key(v[|v| - 1])
  {
    var a := u[|u| - 1];
    assert Ties(u, Key(a)) == Ties(u[..|u| - 1], Key(a)) + [a];
    assert a in Ties(v, Key(a));
    TiesElements(v, Key(a));
    SortedLastIsFarthest(v, a);
  }

  /** Dropping two last elements at the same distance keeps two stable
      arrangements stable, and the dropped elements are the same spot. */
  lemma StableWithoutLast(u: seq<Spot>, v: seq<Spot>)
    requires StableWith(u, v) && |u| > 0 && |v| > 0
    requires Key(u[|u| - 1]) == Key(v[|v| - 1])
    ensures u[|u| - 1] == v[|v| - 1]
    ensures StableWith(u[..|u| - 1], v[..|v| - 1])
  {
    var ui, a := u[..|u| - 1], u[|u| - 1];
    var vi, b := v[..|v| - 1], v[|v| - 1];
    var m := Key(a);
    var tu, tv := Ties(ui, m) + [a], Ties(vi, m) + [b];
    assert Ties(u, m) == tu && Ties(v, m) == tv;
    assert a == tu[|tu| - 1] == tv[|tv| - 1] == b;
    assert Ties(ui, m) == tu[..|tu| - 1] == tv[..|tv| - 1] == Ties(vi, m);
    forall k ensures Ties(ui, k) == Ties(vi, k) {
      if k != m {
        assert Ties(u, k) == Ties(ui, k);
        assert Ties(v, k) == Ties(vi, k);
      }
    }
  }

  lemma {:induction false} TiesCount(s: seq<Spot>, y: Spot)
    requires AllHaveDistance(s) && HasDistance(y)
    ensures multiset(Ties(s, Key(y)))[y] == multiset(s)[y]
  {
    if |s| > 0 {
      var init, last := s[..|s| - 1], s[|s| - 1];
      TiesCount(init, y);
      assert s == init + [last];
    }
  }

  /** Keeping every group of equal-distance spots in order means in particular
      keeping every spot: a stable arrangement is a permutation. */
  lemma StableIsPermutation(u: seq<Spot>, s: seq<Spot>)
    requires StableWith(u, s)
    ensures multiset(u) == multiset(s)
  {
    forall y ensures multiset(u)[y] == multiset(s)[y] {
      if HasDistance(y) {
        TiesCount(u, y);
        TiesCount(s, y);
      } else {
        assert y !in u && y !in s;
      }
    }
  }

  /** Two sequences that are both sorted by distance and agree on the order of
      every group of equal-distance spots are the same sequence. */
  lemma {:induction false} SortedStableUnique(u: seq<Spot>, v: seq<Spot>)
    requires Sorted(u) && Sorted(v) && StableWith(u, v)
    ensures u == v
    decreases |u|
  {
    if |u| > 0 {
      LastDistanceBound(u, v);
      LastDistanceBound(v, u);
      StableWithoutLast(u, v);
      SortedPrefix(u, |u| - 1);
      SortedPrefix(v, |v| - 1);
      SortedStableUnique(u[..|u| - 1], v[..|v| - 1]);
      assert u == u[..|u| - 1] + [u[|u| - 1]];
      assert v == v[..|v| - 1] + [v[|v| - 1]];
    } else if |v| > 0 {
      LastDistanceBound(v, u);
    }
  }

  /** `Array.prototype.sort` with this comparator must return a sorted, stable
      rearrangement; whatever engine runs it, that is the model's order. */
  lemma RankedIsTheStableSort(s: seq<Spot>, user: Coord, dist: Metric, u: seq<Spot>)
    requires AllWellFormed(s)
    requires Sorted(u) && StableWith(u, Annotate(s, user, dist))
    ensures u == Ranked(s, Some(user), dist)
  {
    var annotated := Annotate(s, user, dist);
    var r := Ranked(s, Some(user), dist);
    forall k ensures Ties(u, k) == Ties(r, k) {
      assert Ties(u, k) == Ties(annotated, k);
      assert Ties(r, k) == Ties(annotated, k);
    }
    SortedStableUnique(u, r);
  }

  // ---------------------------------------------------------------------------
  // Idempotence

  /** A sequence already sorted by distance is left as it is. */
  lemma {:induction false} SortByDistanceOfSorted(s: seq<Spot>)
    requires Sorted(s)
    ensures SortByDistance(s) == s
  {
    if |s| > 0 {
      var init, last := s[..|s| - 1], s[|s| - 1];
      SortedPrefix(s, |s| - 1);
      SortByDistanceOfSorted(init);
      if |init| > 0 {
        assert init[|init| - 1] == s[|s| - 2];
        assert Key(s[|s| - 2]) <= Key(last);
      }
      assert s == init + [last];
    }
  }

  /** Re-annotating spots that already carry their own distance changes nothing.
      The fact follows from the pointwise ensures of `Annotate`; the induction
      below spells it out one element at a time, which keeps the proof cheap. */
  lemma {:induction false} AnnotateOfDistancesFrom(s: seq<Spot>, user: Coord, dist: Metric)
    requires DistancesFrom(s, user, dist)
    ensures AllWellFormed(s) && Annotate(s, user, dist) == s
  {
    if |s| > 0 {
      assert DistancesFrom(s[1..], user, dist) by {
        forall i | 0 <= i < |s[1..]| ensures WellFormed(s[1..][i]) && s[1..][i].distance == Some(dist(user, Position(s[1..][i]))) {
          assert s[1..][i] == s[i + 1];
        }
      }
      AnnotateOfDistancesFrom(s[1..], user, dist);
      assert s == [s[0]] + s[1..];
    }
  }

  /** Annotation leaves every spot carrying its own distance from `user`, and any
      rearrangement of such spots still does. */
  lemma AnnotatePermutationDistancesFrom(s: seq<Spot>, user: Coord, dist: Metric, u: seq<Spot>)
    requires AllWellFormed(s) && multiset(u) == multiset(Annotate(s, user, dist))
    ensures DistancesFrom(u, user, dist)
  {
    var annotated := Annotate(s, user, dist);
    forall i | 0 <= i < |u| ensures WellFormed(u[i]) && u[i].distance == Some(dist(user, Position(u[i]))) {
      assert u[i] in multiset(u);
      assert u[i] in multiset(annotated);
      var m :| 0 <= m < |annotated| && annotated[m] == u[i];
    }
  }

  /** Ranking the ranked spots again from the same location keeps their order
      (and their distances). */
  lemma RankedIdempotent(s: seq<Spot>, userLocation: Option<Coord>, dist: Metric)
    requires AllWellFormed(s)
    ensures AllWellFormed(Ranked(s, userLocation, dist))
    ensures Ranked(Ranked(s, userLocation, dist), userLocation, dist) == Ranked(s, userLocation, dist)
  {
    if userLocation.Some? {
      var user := userLocation.value;
      var r := Ranked(s, userLocation, dist);
      AnnotatePermutationDistancesFrom(s, user, dist, r);
      AnnotateOfDistancesFrom(r, user, dist);
      SortByDistanceOfSorted(r);
    }
  }

  /** Three spots whose distances come out as 5, 1 and 3 are listed as B, C, A. */
  lemma RankedExample(a: Spot, b: Spot, c: Spot, user: Coord, dist: Metric)
    requires WellFormed(a) && WellFormed(b) && WellFormed(c)
    requires dist(user, Position(a)) == 5.0 && dist(user, Position(b)) == 1.0 && dist(user, Position(c)) == 3.0
    ensures AllWellFormed([a, b, c])
    ensures Ranked([a, b, c], Some(user), dist)
         == [WithDistance(b, user, dist), WithDistance(c, user, dist), WithDistance(a, user, dist)]
  {
    var a', b', c' := WithDistance(a, user, dist), WithDistance(b, user, dist), WithDistance(c, user, dist);
    var annotated := Annotate([a, b, c], user, dist);
    assert [a, b, c][1..] == [b, c];
    assert [b, c][1..] == [c];
    assert [c][1..] == [];
    assert annotated == [a', b', c'];
    assert [a', b', c'][..2] == [a', b'];
    assert [a', b'][..1] == [a'];
    assert [a'][..0] == [];
    assert SortByDistance([a']) == [a'];
    assert SortByDistance([a', b']) == Insert([a'], b') == [b', a'];
    assert [b', a'][..1] == [b'];
    assert Insert([b', a'], c') == Insert([b'], c') + [a'];
    assert Insert([b'], c') == [b', c'];
  }
}
