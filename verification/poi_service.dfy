/** Points of interest from the Overpass API: the bounding boxes the client
    asks about (around a route, around a location, and the shrink that keeps
    a box small) and the parse of the reply’s elements. The HTTP exchange is
    left out; the reply is a parameter. */
module PoiService {
  import opened Wrappers
  import opened Numeric
  import opened Text

  /** `POI`: `category` is always filled by the parser. */
  datatype Poi = Poi(id: string, name: string, kind: string, lat: real, lng: real, category: string)

  /** A query box in degrees. */
  datatype Bounds = Bounds(minLat: real, maxLat: real, minLng: real, maxLng: real)

  /** The tags the parser reads. */
  datatype Tags = Tags(name: Option<string>, amenity: Option<string>, shop: Option<string>, tourism: Option<string>)

  /** One element of the reply. */
  datatype Element = Element(kind: string, id: int, lat: Option<real>, lon: Option<real>, tags: Option<Tags>)

  /** The padding around a route’s box, in degrees. */
  const RoutePadding: real := 0.01

  /** Metres per degree used to turn a radius into degrees. */
  const MetresPerDegree: real := 111000.0

  /** The default search radius around a location, in metres. */
  const DefaultRadius: real := 500.0

  /** The largest extent a box may have on either axis. */
  const MaxBoxSize: real := 0.1

  /** The most POIs one box query returns. */
  const MaxResults: nat := 100

  // ---------------------------------------------------------------------
  // Boxes

  /** Smallest and largest of a non-empty list. */
  function MinOf(xs: seq<real>): (m: real)
    requires |xs| > 0
    ensures forall i | 0 <= i < |xs| :: m <= xs[i]
    ensures exists i | 0 <= i < |xs| :: m == xs[i]
  {
    if |xs| == 1 then xs[0]
    else
      var m0 := MinOf(xs[..|xs| - 1]);
      assert forall i | 0 <= i < |xs| - 1 :: xs[..|xs| - 1][i] == xs[i];
      MinReal(m0, xs[|xs| - 1])
  }

  function MaxOf(xs: seq<real>): (m: real)
    requires |xs| > 0
    ensures forall i | 0 <= i < |xs| :: m >= xs[i]
    ensures exists i | 0 <= i < |xs| :: m == xs[i]
  {
    if |xs| == 1 then xs[0]
    else
      var m0 := MaxOf(xs[..|xs| - 1]);
      assert forall i | 0 <= i < |xs| - 1 :: xs[..|xs| - 1][i] == xs[i];
      MaxReal(m0, xs[|xs| - 1])
  }

  /** The latitudes (index 1) and longitudes (index 0) of `[lng, lat]`
      pairs. */
  function Lats(cs: seq<(real, real)>): (r: seq<real>)
    ensures |r| == |cs| && forall i | 0 <= i < |cs| :: r[i] == cs[i].1
  {
    seq(|cs|, i requires 0 <= i < |cs| => cs[i].1)
  }

  function Lngs(cs: seq<(real, real)>): (r: seq<real>)
    ensures |r| == |cs| && forall i | 0 <= i < |cs| :: r[i] == cs[i].0
  {
    seq(|cs|, i requires 0 <= i < |cs| => cs[i].0)
  }

  /** `getPOIsAlongRoute`’s box: none for fewer than two coordinates (the
      call returns []), else the coordinates’ extremes padded by 0.01. */
  function AlongRouteBox(cs: seq<(real, real)>): (b: Option<Bounds>)
    ensures b.None? <==> |cs| < 2
    ensures b.Some? ==> forall i | 0 <= i < |cs| ::
      && b.value.minLat + RoutePadding <= cs[i].1 <= b.value.maxLat - RoutePadding
      && b.value.minLng + RoutePadding <= cs[i].0 <= b.value.maxLng - RoutePadding
  {
    if |cs| < 2 then None
    else
      Some(Bounds(MinOf(Lats(cs)) - RoutePadding, MaxOf(Lats(cs)) + RoutePadding,
                  MinOf(Lngs(cs)) - RoutePadding, MaxOf(Lngs(cs)) + RoutePadding))
  }

  /** The route’s box is tight: each padded edge is reached by some
      coordinate. */
  lemma AlongRouteBoxTight(cs: seq<(real, real)>)
    requires |cs| >= 2
    ensures var b := AlongRouteBox(cs).value;
      && (exists i | 0 <= i < |cs| :: cs[i].1 == b.minLat + RoutePadding)
      && (exists i | 0 <= i < |cs| :: cs[i].1 == b.maxLat - RoutePadding)
      && (exists i | 0 <= i < |cs| :: cs[i].0 == b.minLng + RoutePadding)
      && (exists i | 0 <= i < |cs| :: cs[i].0 == b.maxLng - RoutePadding)
  {
    var lats := Lats(cs);
    var lngs := Lngs(cs);
    var i1 :| 0 <= i1 < |cs| && MinOf(lats) == lats[i1];
    var i2 :| 0 <= i2 < |cs| && MaxOf(lats) == lats[i2];
    var i3 :| 0 <= i3 < |cs| && MinOf(lngs) == lngs[i3];
    var i4 :| 0 <= i4 < |cs| && MaxOf(lngs) == lngs[i4];
    assert cs[i1].1 == AlongRouteBox(cs).value.minLat + RoutePadding;
    assert cs[i2].1 == AlongRouteBox(cs).value.maxLat - RoutePadding;
    assert cs[i3].0 == AlongRouteBox(cs).value.minLng + RoutePadding;
    assert cs[i4].0 == AlongRouteBox(cs).value.maxLng - RoutePadding;
  }

  /** `getPOIsNearLocation`’s box: a square of half-side radius/111000
      degrees about the location. */
  function NearBox(lat: real, lng: real, radius: real): (b: Bounds)
    ensures b.maxLat - lat == lat - b.minLat == radius / MetresPerDegree
    ensures b.maxLng - lng == lng - b.minLng == radius / MetresPerDegree
  {
    var d := radius / MetresPerDegree;
    Bounds(lat - d, lat + d, lng - d, lng + d)
  }

  function CenterOf(b: Bounds): (real, real) {
    ((b.minLat + b.maxLat) / 2.0, (b.minLng + b.maxLng) / 2.0)
  }

  /** The shrink in `getPOIsInBounds`: a box more than 0.1 degrees across
      on either axis is cut down about its center. */
  function Shrink(b: Bounds): (b': Bounds)
    ensures b'.maxLat - b'.minLat <= MaxBoxSize && b'.maxLng - b'.minLng <= MaxBoxSize
    ensures CenterOf(b') == CenterOf(b)
    ensures b.maxLat - b.minLat <= MaxBoxSize ==> b'.minLat == b.minLat && b'.maxLat == b.maxLat
    ensures b.maxLng - b.minLng <= MaxBoxSize ==> b'.minLng == b.minLng && b'.maxLng == b.maxLng
  {
    var latDiff := b.maxLat - b.minLat;
    var lngDiff := b.maxLng - b.minLng;
    if latDiff > MaxBoxSize || lngDiff > MaxBoxSize then
      var (centerLat, centerLng) := CenterOf(b);
      var halfLat := MinReal(latDiff / 2.0, MaxBoxSize / 2.0);
      var halfLng := MinReal(lngDiff / 2.0, MaxBoxSize / 2.0);
      Bounds(centerLat - halfLat, centerLat + halfLat, centerLng - halfLng, centerLng + halfLng)
    else b
  }

  /** A shrunk box is inside the original one and shrinking again changes
      nothing. */
  lemma ShrinkInside(b: Bounds)
    requires b.minLat <= b.maxLat && b.minLng <= b.maxLng
    ensures var s := Shrink(b);
      b.minLat <= s.minLat <= s.maxLat <= b.maxLat && b.minLng <= s.minLng <= s.maxLng <= b.maxLng
    ensures Shrink(Shrink(b)) == Shrink(b)
  {
  }

  // ---------------------------------------------------------------------
  // Parsing

  /** JavaScript truthiness of an optional string and an optional number. */
  predicate Truthy(s: Option<string>) {
    s.Some? && s.value != ""
  }

  predicate TruthyNumber(x: Option<real>) {
    x.Some? && x.value != 0.0
  }

  /** `amenity || shop || tourism || "other"` */
  function Category(t: Tags): (c: string)
    ensures c != ""
    ensures Truthy(t.amenity) ==> c == t.amenity.value
    ensures !Truthy(t.amenity) && Truthy(t.shop) ==> c == t.shop.value
    ensures !Truthy(t.amenity) && !Truthy(t.shop) && Truthy(t.tourism) ==> c == t.tourism.value
    ensures !Truthy(t.amenity) && !Truthy(t.shop) && !Truthy(t.tourism) ==> c == "other"
  {
    if Truthy(t.amenity) then t.amenity.value
    else if Truthy(t.shop) then t.shop.value
    else if Truthy(t.tourism) then t.tourism.value
    else "other"
  }

  /** Overpass sends coordinates with every node; the parser relies on it. */
  predicate NodeHasPosition(e: Element) {
    e.kind == "node" ==> e.lat.Some? && e.lon.Some?
  }

  predicate Kept(e: Element) {
    && e.tags.Some? && Truthy(e.tags.value.name)
    && (e.kind == "node" || (e.kind == "way" && TruthyNumber(e.lat) && TruthyNumber(e.lon)))
  }

  /** The body of the `forEach` for one element. */
  function ParseElement(e: Element): (p: Option<Poi>)
    requires NodeHasPosition(e)
    ensures p.Some? <==> Kept(e)
    ensures p.Some? ==>
      && p.value.id == "poi-" + IntToString(e.id)
      && p.value.name == e.tags.value.name.value
      && p.value.kind == e.kind
      && p.value.lat == e.lat.value && p.value.lng == e.lon.value
      && p.value.category == Category(e.tags.value)
  {
    if e.tags.None? || !Truthy(e.tags.value.name) then None
    else if e.kind == "node" || (e.kind == "way" && TruthyNumber(e.lat) && TruthyNumber(e.lon)) then
      Some(Poi("poi-" + IntToString(e.id), e.tags.value.name.value, e.kind, e.lat.value, e.lon.value,
               Category(e.tags.value)))
    else None
  }

  predicate AllNodesPositioned(es: seq<Element>) {
    forall i | 0 <= i < |es| :: NodeHasPosition(es[i])
  }

  /** `parsePOIResponse`: the kept elements’ POIs, in input order. */
  function Parse(es: seq<Element>): (ps: seq<Poi>)
    requires AllNodesPositioned(es)
    ensures |ps| <= |es|
  {
    if |es| == 0 then []
    else
      var n := |es| - 1;
      var last := ParseElement(es[n]);
      Parse(es[..n]) + (if last.Some? then [last.value] else [])
  }

  /** The parse goes element by element: a reply’s parse is the parses of
      its parts, in order. */
  lemma {:induction false} ParseAppend(a: seq<Element>, b: seq<Element>)
    requires AllNodesPositioned(a) && AllNodesPositioned(b)
    ensures AllNodesPositioned(a + b)
    ensures Parse(a + b) == Parse(a) + Parse(b)
    decreases |b|
  {
    if |b| > 0 {
      var n := |b| - 1;
      assert (a + b)[..|a + b| - 1] == a + b[..n];
      assert (a + b)[|a + b| - 1] == b[n];
      ParseAppend(a, b[..n]);
    } else {
      assert a + b == a;
    }
  }

  /** A one-element reply parses to its POI, or to nothing. */
  lemma ParseSingle(e: Element)
    requires NodeHasPosition(e)
    ensures Parse([e]) == (if Kept(e) then [ParseElement(e).value] else [])
  {
    assert [e][..0] == [];
  }

  /** `getPOIsInBounds` once the reply is in: at most the first 100 POIs. */
  function InBounds(es: seq<Element>): (ps: seq<Poi>)
    requires AllNodesPositioned(es)
    ensures |ps| <= MaxResults
    ensures |Parse(es)| <= MaxResults ==> ps == Parse(es)
    ensures |Parse(es)| > MaxResults ==> ps == Parse(es)[..MaxResults]
  {
    var ps := Parse(es);
    if |ps| <= MaxResults then ps else ps[..MaxResults]
  }
}
