/** model/Location.py and model/Coordinates.py: a geographic point, its
    equality and hash, and the decoding of a geocoder reply into a point. */
module Locations {
  import opened Common

  /** A latitude or a longitude. The core only ever compares coordinates for
      equality, so they are an abstract type with equality (exact values: a
      NaN coordinate, which is unequal to itself, is not modelled). */
  type Coord(==)

  /** model/Coordinates.py: the named tuple (lat, lon). */
  datatype Coordinates = Coordinates(lat: Coord, lon: Coord)

  /** A Location object. `id` stands for the object's identity in Python
      (what `is` compares); equality and hashing ignore it. */
  datatype Location = Location(id: nat, coordinates: Coordinates)

  /** The argument of `__eq__`: any Python object, a Location or not. */
  datatype PyObject = LocationObject(location: Location) | OtherObject

  /** `Location.__eq__`: the other object must be a Location, and then both
      longitude and latitude must be equal. */
  predicate Equals(self: Location, other: PyObject)
  {
    match other
    case LocationObject(o) =>
      self.coordinates.lon == o.coordinates.lon && self.coordinates.lat == o.coordinates.lat
    case OtherObject => false
  }

  /** Equality between two Location objects. */
  predicate Same(a: Location, b: Location)
  {
    Equals(a, LocationObject(b))
  }

  /** The coordinate pairs of a list of Locations: the distinct keys a
      dict keyed by these Locations can hold. */
  function CoordsOf(s: seq<Location>): set<Coordinates>
  {
    set k | 0 <= k < |s| :: s[k].coordinates
  }

  /** Some Location in `s` equals one at `c`. */
  predicate Seen(s: seq<Location>, c: Coordinates)
  {
    exists k :: 0 <= k < |s| && s[k].coordinates == c
  }

  /** `Location.__hash__`: Python's tuple hash applied to (lon, lat).
      The tuple hash itself is a parameter. */
  function Hash(tupleHash: (Coord, Coord) -> int, self: Location): int
  {
    tupleHash(self.coordinates.lon, self.coordinates.lat)
  }

  lemma SameIffEqualCoordinates(a: Location, b: Location)
    ensures Same(a, b) <==> a.coordinates == b.coordinates
  {
  }

  lemma NotEqualToOtherTypes(a: Location)
    ensures !Equals(a, OtherObject)
  {
  }

  lemma SameIsEquivalence(a: Location, b: Location, c: Location)
    ensures Same(a, a)
    ensures Same(a, b) ==> Same(b, a)
    ensures Same(a, b) && Same(b, c) ==> Same(a, c)
  {
  }

  /** Equal Locations hash alike, whatever the tuple hash is. */
  lemma EqualLocationsHashAlike(tupleHash: (Coord, Coord) -> int, a: Location, b: Location)
    requires Same(a, b)
    ensures Hash(tupleHash, a) == Hash(tupleHash, b)
  {
  }

  /** What `from_address` sends to the geocoder: the free-text address, the
      country restriction and the optional focus point. */
  datatype GeocodeQuery = GeocodeQuery(countryCode: string, address: string, focus: Option<Coordinates>)

  /** The part of the geocoder's JSON reply that `from_address` reads: an
      optional "error" entry and the list of features, each with the
      `geometry.coordinates` list, which the service writes as [lon, lat]. */
  datatype GeocodeResponse = GeocodeResponse(error: Option<string>, features: seq<Feature>)
  datatype Feature = Feature(coordinates: seq<Coord>)

  /** The geocoding service, an external collaborator. */
  type Geocoder = GeocodeQuery -> GeocodeResponse

  function Reversed<T>(s: seq<T>): (r: seq<T>)
    ensures |r| == |s|
    ensures forall i :: 0 <= i < |s| ==> r[i] == s[|s| - 1 - i]
  {
    if |s| == 0 then [] else Reversed(s[1..]) + [s[0]]
  }

  /** The response-decoding tail of `Location.from_address`: an "error"
      entry raises RuntimeError; otherwise the first feature's [lon, lat] is
      reversed and spread into `Coordinates(lat, lon)`. A reply with no
      feature fails on `[0]`, a coordinate list that is not a pair fails in
      the NamedTuple constructor. `id` is the identity of the new object. */
  function DecodeResponse(response: GeocodeResponse, id: nat): (r: Result<Location>)
    ensures response.error.Some? ==> r == Failure(RuntimeError("Openrouteservice: " + response.error.value))
    ensures response.error.None? && |response.features| == 0 ==> r == Failure(IndexError)
    ensures r.Success? <==>
              response.error.None? && |response.features| > 0 && |response.features[0].coordinates| == 2
    ensures r.Success? ==>
              var lonLat := response.features[0].coordinates;
              r.value == Location(id, Coordinates(lonLat[1], lonLat[0]))
  {
    if response.error.Some? then
      Failure(RuntimeError("Openrouteservice: " + response.error.value))
    else if |response.features| == 0 then
      Failure(IndexError)
    else
      var latLon := Reversed(response.features[0].coordinates);
      if |latLon| != 2 then Failure(TypeError)
      else Success(Location(id, Coordinates(latLon[0], latLon[1])))
  }

  /** `Location.from_address` with the HTTP request replaced by the geocoder. */
  function FromAddress(geocoder: Geocoder, query: GeocodeQuery, id: nat): Result<Location>
  {
    DecodeResponse(geocoder(query), id)
  }

  /** On the reply shapes modelled, a failed lookup raises RuntimeError,
      IndexError or TypeError, never a ValueError or a KeyError. A body that
      is not JSON, or one that lacks the keys of line 83, is not among them. */
  lemma FromAddressErrors(geocoder: Geocoder, query: GeocodeQuery, id: nat)
    ensures FromAddress(geocoder, query, id).Failure? ==>
              var e := FromAddress(geocoder, query, id).error;
              e.RuntimeError? || e.IndexError? || e.TypeError?
  {
  }

  /** A point written the way the service writes it, [lon, lat]. */
  function LonLat(c: Coordinates): (r: seq<Coord>)
    ensures |r| == 2 && r[0] == c.lon && r[1] == c.lat
  {
    [c.lon, c.lat]
  }

  /** Decoding a successful reply that carries a point in the service's
      [lon, lat] order gives back exactly that point. */
  lemma DecodeLonLatRoundTrip(c: Coordinates, id: nat, rest: seq<Feature>)
    ensures DecodeResponse(GeocodeResponse(None, [Feature(LonLat(c))] + rest), id)
            == Success(Location(id, c))
  {
  }
}
