/** The data the spot ranking step of main.js works on: the records read from
    data.json, the `{lat, lng}` coordinates it builds, and the distance
    function it calls. */
module Spots {

  datatype Option<+T> = None | Some(value: T)

  /** A `{lat, lng}` object: latitude and longitude in decimal degrees. */
  datatype Coord = Coord(lat: real, lng: real)

  /** One entry of data.json. `location` is the JSON array `[latitude, longitude]`;
      `distance` is absent until the ranking step attaches one (in miles). */
  datatype Spot = Spot(name: string, description: string, location: seq<real>, distance: Option<real>)

  /** The type of `haversineDistance(coords1, coords2)`. Its body is floating-point
      trigonometry, so the model takes the function as a parameter and assumes
      nothing about it. */
  type Metric = (Coord, Coord) -> real

  /** The source reads `location[0]` and `location[1]` of every spot and does
      not check that they exist. */
  predicate WellFormed(s: Spot) {
    |s.location| >= 2
  }

  predicate AllWellFormed(s: seq<Spot>) {
    forall i :: 0 <= i < |s| ==> WellFormed(s[i])
  }

  /** `{ lat: spot.location[0], lng: spot.location[1] }`: the conversion used for
      the distance and for the map marker alike. */
  function Position(s: Spot): (c: Coord)
    requires WellFormed(s)
    ensures c.lat == s.location[0] && c.lng == s.location[1]
  {
    Coord(s.location[0], s.location[1])
  }

  predicate HasDistance(s: Spot) {
    s.distance.Some?
  }

  predicate AllHaveDistance(s: seq<Spot>) {
    forall i :: 0 <= i < |s| ==> HasDistance(s[i])
  }

  /** The sort key `spot.distance`. */
  function Key(s: Spot): real
    requires HasDistance(s)
  {
    s.distance.value
  }

  /** The comparator `(a, b) => a.distance - b.distance` handed to `Array.prototype.sort`:
      a positive result puts `b` before `a`. */
  function Compare(a: Spot, b: Spot): (r: real)
    requires HasDistance(a) && HasDistance(b)
    ensures r > 0.0 <==> Key(b) < Key(a)
    ensures r == 0.0 <==> Key(a) == Key(b)
    ensures r < 0.0 <==> Key(a) < Key(b)
  {
    Key(a) - Key(b)
  }
}
