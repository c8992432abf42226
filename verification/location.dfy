/** The desktop application’s `Location` value: a coordinate pair with an
    optional name and address. Equality and hashing look at the coordinates
    only. */
module Locations {

  datatype Location = Location(latitude: real, longitude: real, name: string, address: string)

  /** `new Location()` */
  function DefaultLocation(): (l: Location)
    ensures l.latitude == 0.0 && l.longitude == 0.0
    ensures l.name == "" && l.address == ""
  {
    Location(0.0, 0.0, "", "")
  }

  /** `new Location(latitude, longitude)` */
  function At(latitude: real, longitude: real): (l: Location)
    ensures l.latitude == latitude && l.longitude == longitude
    ensures l.name == "" && l.address == ""
  {
    Location(latitude, longitude, "", "")
  }

  // Setters: each replaces one field and keeps the other three.

  function SetLatitude(l: Location, v: real): (r: Location)
    ensures r.latitude == v
    ensures r.longitude == l.longitude && r.name == l.name && r.address == l.address
  {
    l.(latitude := v)
  }

  function SetLongitude(l: Location, v: real): (r: Location)
    ensures r.longitude == v
    ensures r.latitude == l.latitude && r.name == l.name && r.address == l.address
  {
    l.(longitude := v)
  }

  function SetName(l: Location, v: string): (r: Location)
    ensures r.name == v
    ensures r.latitude == l.latitude && r.longitude == l.longitude && r.address == l.address
  {
    l.(name := v)
  }

  function SetAddress(l: Location, v: string): (r: Location)
    ensures r.address == v
    ensures r.latitude == l.latitude && r.longitude == l.longitude && r.name == l.name
  {
    l.(address := v)
  }

  /** The argument of `equals(Object)`: null, a location, or an object of
      another class. */
  datatype Obj = Null | LocationObj(loc: Location) | Other

  predicate SameCoordinates(a: Location, b: Location) {
    a.latitude == b.latitude && a.longitude == b.longitude
  }

  /** `Location.equals`: `Double.compare` on both coordinates, false for
      null and for other classes. */
  function Equals(self: Location, obj: Obj): (r: bool)
    ensures r <==> obj.LocationObj? && SameCoordinates(self, obj.loc)
    ensures obj.Null? || obj.Other? ==> !r
  {
    match obj
    case Null => false
    case Other => false
    case LocationObj(other) => other.latitude == self.latitude && other.longitude == self.longitude
  }

  lemma EqualsReflexive(a: Location)
    ensures Equals(a, LocationObj(a))
  {
  }

  lemma EqualsSymmetric(a: Location, b: Location)
    ensures Equals(a, LocationObj(b)) == Equals(b, LocationObj(a))
  {
  }

  lemma EqualsTransitive(a: Location, b: Location, c: Location)
    requires Equals(a, LocationObj(b)) && Equals(b, LocationObj(c))
    ensures Equals(a, LocationObj(c))
  {
  }

  /** Name and address never affect equality. */
  lemma EqualsIgnoresLabels(a: Location, b: Location, name: string, address: string)
    ensures Equals(a, LocationObj(b)) == Equals(a, LocationObj(b.(name := name, address := address)))
  {
  }

  const TwoTo31: int := 0x8000_0000
  const TwoTo32: int := 0x1_0000_0000

  predicate IsInt32(v: int) {
    -TwoTo31 <= v < TwoTo31
  }

  /** Java `int` addition: the exact sum reduced into the 32-bit range. */
  function WrapInt32(v: int): (r: int)
    ensures IsInt32(r)
    ensures (r - v) % TwoTo32 == 0
    ensures IsInt32(v) ==> r == v
  {
    (v + TwoTo31) % TwoTo32 - TwoTo31
  }

  /** `Double.hashCode`, which the model leaves open: any function into the
      32-bit range. */
  type DoubleHash = h: real -> int | forall x :: IsInt32(h(x)) witness (x: real) => 0

  /** `Location.hashCode`: the wrapped sum of the coordinates’ hashes. */
  function HashCode(l: Location, h: DoubleHash): (r: int)
    ensures IsInt32(r)
    ensures (r - (h(l.latitude) + h(l.longitude))) % TwoTo32 == 0
  {
    WrapInt32(h(l.latitude) + h(l.longitude))
  }

  /** Equal locations hash equally, whatever `Double.hashCode` is. */
  lemma HashConsistentWithEquals(a: Location, b: Location, h: DoubleHash)
    requires Equals(a, LocationObj(b))
    ensures HashCode(a, h) == HashCode(b, h)
  {
  }

  /** `distanceTo` (the haversine formula), which the model leaves open: any
      non-negative function of two locations. */
  type Distance = f: (Location, Location) -> real | forall a, b :: f(a, b) >= 0.0 witness (a: Location, b: Location) => 0.0

  /** `f` applied to each location, in order. */
  function MapText(ls: seq<Location>, f: Location -> string): (ts: seq<string>)
    ensures |ts| == |ls|
    ensures forall k | 0 <= k < |ls| :: ts[k] == f(ls[k])
  {
    if |ls| == 0 then [] else [f(ls[0])] + MapText(ls[1..], f)
  }
}
