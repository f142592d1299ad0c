/** The ranking step of `loadSpots` as main.js runs it: the spot array is
    annotated element by element and then sorted in place. Each method is
    proved to leave the array equal to the matching function of SpotRanker. */
module RankInPlace {
  import opened Spots
  import opened SpotRanker

  /** `spots.forEach(spot => { spotCoords = {lat: location[0], lng: location[1]};
      spot.distance = haversineDistance(userLocation, spotCoords) })`. */
  method AnnotateDistances(spots: array<Spot>, userLocation: Coord, dist: Metric)
    requires AllWellFormed(spots[..])
    modifies spots
    ensures spots[..] == Annotate(old(spots[..]), userLocation, dist)
  {
    var i := 0;
    while i < spots.Length
      invariant 0 <= i <= spots.Length
      invariant forall k :: 0 <= k < i ==> spots[k] == WithDistance(old(spots[k]), userLocation, dist)
      invariant forall k :: i <= k < spots.Length ==> spots[k] == old(spots[k])
    {
      var spot := spots[i];
      var spotCoords := Coord(spot.location[0], spot.location[1]);
      spots[i] := spot.(distance := Some(dist(userLocation, spotCoords)));
      i := i + 1;
    }
    ghost var annotated := Annotate(old(spots[..]), userLocation, dist);
    assert forall k :: 0 <= k < spots.Length ==> spots[..][k] == annotated[k];
  }

  /** Swaps `spots[j - 1]` and `spots[j]`. */
  method Swap(spots: array<Spot>, j: int)
    requires 0 < j < spots.Length
    modifies spots
    ensures spots[j - 1] == old(spots[j]) && spots[j] == old(spots[j - 1])
    ensures forall k :: 0 <= k < spots.Length && k != j - 1 && k != j ==> spots[k] == old(spots[k])
  {
    spots[j - 1], spots[j] := spots[j], spots[j - 1];
  }

  /** Inserts `spots[i]` into the sorted prefix `spots[..i]`, moving it left
      while the comparator says the element before it belongs after it. */
  method InsertAt(spots: array<Spot>, i: int)
    requires 0 <= i < spots.Length && AllHaveDistance(spots[..])
    modifies spots
    ensures spots[..i + 1] == Insert(old(spots[..i]), old(spots[i]))
    ensures spots[i + 1..] == old(spots[i + 1..])
    ensures AllHaveDistance(spots[..])
  {
    ghost var t, x := spots[..i], spots[i];
    var j := i;
    while j > 0 && Compare(spots[j - 1], spots[j]) > 0.0
      invariant 0 <= j <= i
      invariant AllHaveDistance(spots[..])
      invariant forall k :: 0 <= k < j ==> spots[k] == t[k]
      invariant spots[j] == x
      invariant forall k :: j < k <= i ==> spots[k] == t[k - 1]
      invariant forall k :: i < k < spots.Length ==> spots[k] == old(spots[k])
      invariant forall k :: j <= k < i ==> Compare(t[k], x) > 0.0
    {
      Swap(spots, j);
      j := j - 1;
    }
    InsertLands(t, x, j);
    ShiftedIsInsert(spots[..], t, x, j);
  }

  /** The array after the insertion loop: the prefix `t[..j]`, then `x`, then the
      rest of `t` shifted one place right. */
  lemma ShiftedIsInsert(cur: seq<Spot>, t: seq<Spot>, x: Spot, j: int)
    requires 0 <= j <= |t| < |cur|
    requires forall k :: 0 <= k < j ==> cur[k] == t[k]
    requires cur[j] == x
    requires forall k :: j < k <= |t| ==> cur[k] == t[k - 1]
    ensures cur[..|t| + 1] == t[..j] + [x] + t[j..]
  {
    assert forall k :: 0 <= k <= |t| ==> cur[..|t| + 1][k] == (t[..j] + [x] + t[j..])[k];
  }

  /** `spots.sort((a, b) => a.distance - b.distance)`, written out as a stable
      insertion sort. */
  method SortInPlace(spots: array<Spot>)
    requires AllHaveDistance(spots[..])
    modifies spots
    ensures spots[..] == SortByDistance(old(spots[..]))
  {
    ghost var orig := spots[..];
    var i := 0;
    while i < spots.Length
      invariant 0 <= i <= spots.Length
      invariant AllHaveDistance(spots[..])
      invariant spots[..i] == SortByDistance(orig[..i])
      invariant spots[i..] == orig[i..]
    {
      ghost var next := spots[i];
      assert next == orig[i] by {
        assert spots[i..][0] == orig[i..][0];
      }
      InsertAt(spots, i);
      assert orig[..i + 1][..i] == orig[..i];
      assert spots[..i + 1] == Insert(SortByDistance(orig[..i]), orig[i]) == SortByDistance(orig[..i + 1]);
      assert spots[i + 1..] == orig[i + 1..] by {
        assert orig[i + 1..] == orig[i..][1..];
      }
      i := i + 1;
    }
    assert spots[..] == spots[..spots.Length] && orig == orig[..spots.Length];
  }

  /** The ranking step between fetching data.json and `addMarkersAndRows(spots)`:
      with a user location, annotate and sort; without one, leave the array alone. */
  method RankSpots(spots: array<Spot>, userLocation: Option<Coord>, dist: Metric)
    requires AllWellFormed(spots[..])
    modifies spots
    ensures spots[..] == Ranked(old(spots[..]), userLocation, dist)
  {
    if userLocation.Some? {
      AnnotateDistances(spots, userLocation.value, dist);
      SortInPlace(spots);
    }
  }
}
