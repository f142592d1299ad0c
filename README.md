# San Diego top spots: the spot ranking step

The page in `main.js` loads a fixed list of points of interest ("spots") from
`data.json`. It may also get the browser's location. When a user location is
known, `loadSpots` attaches to every spot its distance from the user, then
sorts the list by that distance, nearest first. When no location is known,
the list goes to the renderer unchanged, in file order.

This project models that ranking step and proves what it promises:

- Without a location, the spots come out exactly as they went in. No
  `distance` is attached.
- With a location, every spot gets `distance = haversineDistance(user,
  {lat: location[0], lng: location[1]})`. Name, description and location stay
  as they were, and so does the number of spots.
- The sorted list is non-decreasing by distance.
- It is a permutation of the annotated list.
- It is stable: spots at equal distance keep their input order.
- Sorted plus stable fixes the order uniquely. So the insertion sort written
  out here gives the same result as any `Array.prototype.sort` that keeps the
  ECMAScript promise (section 23.1.3.30 of ECMA-262, 2024 edition; the sort
  has been required to be stable since the 2019 edition) for this comparator.
- Ranking the ranked list again from the same location changes nothing.

Files:

- `spots.dfy` (module `Spots`): the records and coordinates. The sort key and
  the comparator `(a, b) => a.distance - b.distance`. The distance function's
  type, `Metric`.
- `spot_ranker.dfy` (module `SpotRanker`): the ranking step as functions on
  sequences (`Annotate`, `Insert`, `SortByDistance`, `Ranked`) and the lemmas
  about them.
- `rank_in_place.dfy` (module `RankInPlace`): the step as main.js performs it,
  on an `array<Spot>`. A `while` loop writes each spot's distance in place.
  Then an in-place insertion sort runs. Each step method (`AnnotateDistances`,
  `SortInPlace`, `RankSpots`) is proved to leave the array equal to the
  matching function of `SpotRanker`. `InsertAt` ties the sorted prefix to
  `Insert` and leaves the rest alone; `Swap` only exchanges two neighbours.

`haversineDistance` is floating-point trigonometry. The model takes it as a
parameter `dist: (Coord, Coord) -> real` and assumes nothing about it. No
proof needs any property of it, such as symmetry or `dist(p, p) == 0`.

## Model

| member | source | states |
|---|---|---|
| `Spots.Position` | main.js:121 | the coordinate takes its latitude from `location[0]` and its longitude from `location[1]`; the marker at main.js:52 uses the same conversion |
| `Spots.Compare` | main.js:125 | the comparator is positive exactly when `a` is farther than `b` (so `b` goes first), zero exactly at equal distances, negative exactly when `a` is nearer |
| `SpotRanker.WithDistance` | main.js:121-122 | the spot keeps its name, description and location and gets `distance = dist(user, {lat: location[0], lng: location[1]})` |
| `SpotRanker.Insert` | main.js:125 | one insertion step of the sort; its own contract gives only the length and that every spot has a distance; sortedness, permutation, stability and the landing place are in `InsertSorted`, `InsertPermutes`, `InsertTies` and `InsertLands` |
| `SpotRanker.SortByDistance` | main.js:125 | the stable sort standing for `spots.sort(...)`; its own contract gives only the length and that every spot has a distance; sortedness, permutation and stability are in `SortByDistanceSorted`, `SortByDistancePermutes` and `SortByDistanceStable` |
| `SpotRanker.Annotate` | main.js:120-123 | every spot keeps its name, description and location; its distance becomes `dist(user, {lat: location[0], lng: location[1]})`; the length is unchanged |
| `SpotRanker.AnnotateOfDistancesFrom` | main.js:120-123 | annotating spots that already carry their own distance from the same location changes nothing |
| `SpotRanker.InsertPermutes` | main.js:125 | one insertion step adds exactly the inserted spot to the multiset of spots |
| `SpotRanker.SortByDistancePermutes` | main.js:125 | the sorted list holds the same spots as the input, each as often |
| `SpotRanker.InsertSorted` | main.js:125 | inserting into a list sorted by distance keeps it sorted |
| `SpotRanker.SortByDistanceSorted` | main.js:125 | after the sort, `spots[i].distance <= spots[j].distance` for all `i < j` |
| `SpotRanker.InsertTies` | main.js:125 | insertion puts the new spot behind every spot of equal distance already present |
| `SpotRanker.SortByDistanceTies` | main.js:125 | for each distance, the spots at that distance appear in the same relative order as in the input |
| `SpotRanker.SortByDistanceStable` | main.js:125 | the sort is stable for every distance at once |
| `SpotRanker.StableIsPermutation` | main.js:125 | an arrangement that keeps every group of equal-distance spots in order is a permutation |
| `SpotRanker.SortedStableUnique` | main.js:125 | two arrangements that are both sorted by distance and stable against each other are equal |
| `SpotRanker.RankedIsTheStableSort` | main.js:125 | any sorted, stable rearrangement of the annotated spots, which is what `Array.prototype.sort` must return, equals the model's ranking |
| `SpotRanker.SortByDistanceOfSorted` | main.js:125 | sorting a list already sorted by distance leaves it as it is |
| `SpotRanker.Ranked` | main.js:119-128 | with no user location the spots are returned unchanged; with one, the result is sorted, a permutation of the annotated spots and stable against them |
| `SpotRanker.RankedIdempotent` | main.js:119-128 | ranking the ranked spots again from the same location returns the same spots in the same order |
| `SpotRanker.RankedExample` | main.js:119-126 | spots A, B, C at distances 5, 1, 3 come out as B, C, A, each with its own distance attached |
| `SpotRanker.InsertLands` | main.js:125 | insertion places the new spot just in front of the run of farther spots at the end of the list |
| `RankInPlace.AnnotateDistances` | main.js:120-123 | the `forEach` loop leaves the array equal to `Annotate` of its old contents |
| `RankInPlace.InsertAt` | main.js:125 | one pass of the in-place insertion leaves the prefix equal to `Insert` of the old prefix and element, and the rest untouched |
| `RankInPlace.SortInPlace` | main.js:125 | the in-place sort leaves the array equal to `SortByDistance` of its old contents |
| `RankInPlace.RankSpots` | main.js:117-128 | the whole step leaves the array equal to `Ranked` of its old contents and the optional user location |

## Left out

- The body of `haversineDistance` (main.js:23-35) is left out because it is floating-point trigonometry. It is the parameter `dist`. Its symmetry, its zero distance from a point to itself, and the San Diego to Los Angeles value of about 112 miles are not modelled.
- `initMap` (main.js:9-14) and `addMarkersAndRows` (main.js:46-83) are Google Maps and jQuery calls. Leaving them out drops the marker, the info window and the table row. It also drops the `toFixed(2)` display, including the empty cell it shows for a distance of 0, and the Google Maps link. The marker uses the same `{lat: location[0], lng: location[1]}` conversion as the distance (main.js:52). That conversion is `Spots.Position`, but no marker is modelled.
- `getUserLocationAndLoadSpots` (main.js:91-110) is the browser geolocation request. Only its outcome is modelled, as the `Option<Coord>` argument. Success gives `Some`; denial, failure and no geolocation support give `None`.
- `$.getJSON('data.json', ...)` (main.js:116) is network I/O and JSON parsing. The array of spots is a parameter.
- The module-level variables `map`, `markers` and `userLocation` (main.js:1-3) become parameters.
- Malformed entries are not modelled. Every spot must have at least two location entries (`Spots.WellFormed`), because the source reads `location[0]` and `location[1]` without checking them. The two bad cases behave differently in the source. A spot with no `location` field at all makes `spot.location[0]` (main.js:121) throw a `TypeError`; that ends the data callback before the sort (main.js:125) and before `addMarkersAndRows` (main.js:128), so nothing is ranked or rendered. A `location` array with fewer than two entries makes `location[1]` undefined, so the distance is `NaN`; the comparator is then inconsistent and the engine's order is implementation-defined.
- Distances are mathematical reals. For finite doubles, the difference `a - b` is zero exactly when `a == b`, and otherwise has the sign of the exact difference, so the comparator orders reals the same way. Rounding of the distance values themselves is not modelled.
- JavaScript objects are modelled as values. Writing `spot.distance` becomes replacing array element `i` by the same record with the new distance. So object identity, and aliasing of the spot objects from outside the array, are not modelled.
- `Array.prototype.sort` is replaced by an insertion sort written out in Dafny. `RankedIsTheStableSort` shows that any sort keeping the ECMAScript stability promise yields the same order, but the engine's own algorithm is not modelled.
