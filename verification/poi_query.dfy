/** The points-of-interest query behind the map layer: the viewport box, the
    "has the view moved enough" test, the cache / rate-limit / fetch order,
    and the nearest-30 selection. The store, the clock and the fetch are
    inputs. */
module PoiQuery {
  import opened Wrappers
  import opened Numeric
  import opened PoiService

  /** Least milliseconds between two fetches. */
  const MinRequestInterval: int := 5000

  /** Least summed edge movement, in degrees, that counts as a new view. */
  const MinDistanceChange: real := 0.01

  /** The most POIs shown. */
  const MaxShown: nat := 30

  /** Tile width in pixels at zoom 0 and the degrees it spans. */
  const TileSize: real := 256.0
  const WorldWidth: real := 360.0

  /** The viewport assumed when there is no window. */
  const DefaultViewport: (real, real) := (800.0, 600.0)

  // ---------------------------------------------------------------------
  // Viewport box

  /** Half the degrees a span of `px` pixels covers at this zoom. */
  function HalfExtent(px: real, zoom: int): (d: real)
    ensures px >= 0.0 ==> d >= 0.0
  {
    var pixelsPerDegree := TileSize * Pow2Real(zoom) / WorldWidth;
    px / pixelsPerDegree / 2.0
  }

  /** `calculateBounds` for a center `[lat, lng]` and a viewport of
      (width, height) pixels, 800 by 600 without a window. */
  function CalculateBounds(center: (real, real), zoom: int, viewport: Option<(real, real)>): (b: Bounds)
    ensures var (w, h) := viewport.GetOr(DefaultViewport);
      && b.maxLat - center.0 == center.0 - b.minLat == HalfExtent(h, zoom)
      && b.maxLng - center.1 == center.1 - b.minLng == HalfExtent(w, zoom)
  {
    var (w, h) := viewport.GetOr(DefaultViewport);
    var latDelta := HalfExtent(h, zoom);
    var lngDelta := HalfExtent(w, zoom);
    Bounds(center.0 - latDelta, center.0 + latDelta, center.1 - lngDelta, center.1 + lngDelta)
  }

  /** Doubling a divisor halves the quotient. */
  lemma DoubleDivisor(x: real, q: real)
    requires q > 0.0
    ensures x / (2.0 * q) / 2.0 == x / q / 2.0 / 2.0
  {
    assert x / (2.0 * q) == x / q / 2.0;
  }

  /** One zoom level in halves the half-extents. */
  lemma ZoomInHalves(px: real, zoom: int)
    ensures HalfExtent(px, zoom + 1) == HalfExtent(px, zoom) / 2.0
  {
    Pow2RealStep(zoom);
    var q := TileSize * Pow2Real(zoom) / WorldWidth;
    assert TileSize * Pow2Real(zoom + 1) / WorldWidth == 2.0 * q;
    DoubleDivisor(px, q);
  }

  /** The box is centred on the center it was computed for. */
  lemma BoundsCentred(center: (real, real), zoom: int, viewport: Option<(real, real)>)
    ensures CenterOf(CalculateBounds(center, zoom, viewport)) == center
  {
  }

  /** `hasBoundsChanged`: no previous box always counts; otherwise the
      summed movement of the two latitude edges, or of the two longitude
      edges, must exceed 0.01. */
  function HasBoundsChanged(previous: Option<Bounds>, b: Bounds): (changed: bool)
    ensures previous.None? ==> changed
    ensures previous == Some(b) ==> !changed
  {
    match previous
    case None => true
    case Some(p) =>
      var latChange := Abs(p.minLat - b.minLat) + Abs(p.maxLat - b.maxLat);
      var lngChange := Abs(p.minLng - b.minLng) + Abs(p.maxLng - b.maxLng);
      latChange > MinDistanceChange || lngChange > MinDistanceChange
  }

  /** Panning the same view by (dLat, dLng) counts as a change exactly when
      it moves more than 0.005 degrees on some axis. */
  lemma PanChanges(b: Bounds, dLat: real, dLng: real)
    ensures var moved := Bounds(b.minLat + dLat, b.maxLat + dLat, b.minLng + dLng, b.maxLng + dLng);
      HasBoundsChanged(Some(b), moved) <==> Abs(dLat) > 0.005 || Abs(dLng) > 0.005
  {
  }

  // ---------------------------------------------------------------------
  // Nearest first

  /** The sort key: squared Euclidean distance in degrees from the center
      `[lat, lng]`. The square root the source takes is monotone, so it
      orders the same way. */
  function Key(p: Poi, center: (real, real)): real {
    (p.lat - center.0) * (p.lat - center.0) + (p.lng - center.1) * (p.lng - center.1)
  }

  predicate SortedBy(ps: seq<Poi>, center: (real, real)) {
    forall i, j | 0 <= i < j < |ps| :: Key(ps[i], center) <= Key(ps[j], center)
  }

  /** A POI paired with its distance, as the `.map(poi => ({ poi, dist }))`
      step builds it. */
  type Tagged = (Poi, real)

  predicate Ascending(ts: seq<Tagged>) {
    forall i, j | 0 <= i < j < |ts| :: ts[i].1 <= ts[j].1
  }

  predicate TaggedFor(ts: seq<Tagged>, center: (real, real)) {
    forall i | 0 <= i < |ts| :: ts[i].1 == Key(ts[i].0, center)
  }

  function Tag(ps: seq<Poi>, center: (real, real)): (ts: seq<Tagged>)
    ensures |ts| == |ps| && TaggedFor(ts, center)
    ensures forall i | 0 <= i < |ps| :: ts[i].0 == ps[i]
  {
    seq(|ps|, i requires 0 <= i < |ps| => (ps[i], Key(ps[i], center)))
  }

  function Untag(ts: seq<Tagged>): (ps: seq<Poi>)
    ensures |ps| == |ts| && forall i | 0 <= i < |ts| :: ps[i] == ts[i].0
  {
    seq(|ts|, i requires 0 <= i < |ts| => ts[i].0)
  }

  /** Appending a pair no nearer than any before keeps the order. */
  lemma AscendingSnoc(ts: seq<Tagged>, y: Tagged)
    requires Ascending(ts)
    requires forall i | 0 <= i < |ts| :: ts[i].1 <= y.1
    ensures Ascending(ts + [y])
  {
    var r := ts + [y];
    forall i, j | 0 <= i < j < |r| ensures r[i].1 <= r[j].1 {
      assert r[i] == ts[i];
      if j < |ts| { assert r[j] == ts[j]; }
    }
  }

  /** The prefix of an ascending list is ascending. */
  lemma AscendingInit(ts: seq<Tagged>)
    requires Ascending(ts) && |ts| > 0
    ensures Ascending(ts[..|ts| - 1])
  {
    var init := ts[..|ts| - 1];
    forall i, j | 0 <= i < j < |init| ensures init[i].1 <= init[j].1 {
      assert init[i] == ts[i] && init[j] == ts[j];
    }
  }

  /** The step of `Insert` that puts `x` last. */
  lemma InsertLast(x: Tagged, ts: seq<Tagged>)
    requires Ascending(ts) && |ts| > 0 && ts[|ts| - 1].1 <= x.1
    ensures Ascending(ts + [x])
  {
    var n := |ts| - 1;
    forall i | 0 <= i < |ts| ensures ts[i].1 <= x.1 {
      if i < n { assert ts[i].1 <= ts[n].1; }
    }
    AscendingSnoc(ts, x);
  }

  /** The step of `Insert` that keeps the last pair last, given what the
      recursive call promises about `front`. */
  lemma InsertBefore(x: Tagged, ts: seq<Tagged>, front: seq<Tagged>)
    requires Ascending(ts) && |ts| > 0 && x.1 < ts[|ts| - 1].1
    requires Ascending(front)
    requires multiset(front) == multiset(ts[..|ts| - 1]) + multiset{x}
    requires forall i | 0 <= i < |front| ::
      front[i].1 <= x.1 || (|ts| > 1 && front[i].1 <= ts[|ts| - 2].1)
    ensures Ascending(front + [ts[|ts| - 1]])
    ensures multiset(front + [ts[|ts| - 1]]) == multiset(ts) + multiset{x}
  {
    var n := |ts| - 1;
    forall i | 0 <= i < |front| ensures front[i].1 <= ts[n].1 {
      if n > 0 { assert ts[n - 1].1 <= ts[n].1; }
    }
    AscendingSnoc(front, ts[n]);
    assert ts == ts[..n] + [ts[n]];
  }

  /** Insert after every pair of no greater distance, so equal distances
      keep their input order, as the stable `Array.prototype.sort` does. */
  function Insert(x: Tagged, ts: seq<Tagged>): (r: seq<Tagged>)
    requires Ascending(ts)
    ensures Ascending(r)
    ensures multiset(r) == multiset(ts) + multiset{x}
    ensures |r| == |ts| + 1
    ensures forall i | 0 <= i < |r| :: r[i].1 <= x.1 || (|ts| > 0 && r[i].1 <= ts[|ts| - 1].1)
  {
    if |ts| == 0 then [x]
    else if ts[|ts| - 1].1 <= x.1 then
      InsertLast(x, ts);
      ts + [x]
    else
      AscendingInit(ts);
      var front := Insert(x, ts[..|ts| - 1]);
      InsertBefore(x, ts, front);
      front + [ts[|ts| - 1]]
  }

  /** `.sort((a, b) => a.dist - b.dist)` */
  function Sort(ts: seq<Tagged>): (r: seq<Tagged>)
    ensures Ascending(r)
    ensures multiset(r) == multiset(ts)
    ensures |r| == |ts|
  {
    if |ts| == 0 then []
    else
      var n := |ts| - 1;
      assert ts == ts[..n] + [ts[n]];
      Insert(ts[n], Sort(ts[..n]))
  }

  /** Sorting keeps each pair’s distance the distance of its POI. */
  lemma SortKeepsTags(ts: seq<Tagged>, center: (real, real))
    requires TaggedFor(ts, center)
    ensures TaggedFor(Sort(ts), center)
  {
    var r := Sort(ts);
    forall i | 0 <= i < |r| ensures r[i].1 == Key(r[i].0, center) {
      assert r[i] in multiset(ts);
      var k :| 0 <= k < |ts| && ts[k] == r[i];
    }
  }

  /** Removing the pair at j removes its POI at j. */
  lemma UntagRemove(b: seq<Tagged>, j: nat)
    requires j < |b|
    ensures multiset(Untag(b)) == multiset(Untag(b[..j] + b[j + 1..])) + multiset{b[j].0}
  {
    var left, right := Untag(b[..j]), Untag(b[j + 1..]);
    assert Untag(b) == left + [b[j].0] + right;
    assert Untag(b[..j] + b[j + 1..]) == left + right;
    assert multiset(left + [b[j].0] + right) == multiset(left) + multiset{b[j].0} + multiset(right);
  }

  /** Taking the same pair out of both sides keeps the inclusion. */
  lemma SubMultisetRemove(a: seq<Tagged>, b: seq<Tagged>, j: nat)
    requires multiset(a) <= multiset(b) && |a| > 0 && j < |b| && b[j] == a[|a| - 1]
    ensures multiset(a[..|a| - 1]) <= multiset(b[..j] + b[j + 1..])
  {
    var n := |a| - 1;
    var rest := b[..j] + b[j + 1..];
    assert a == a[..n] + [a[n]];
    assert multiset(a) == multiset(a[..n]) + multiset{a[n]};
    assert b == b[..j] + [b[j]] + b[j + 1..];
    assert multiset(b) == multiset(rest) + multiset{b[j]};
    forall y ensures multiset(a[..n])[y] <= multiset(rest)[y] {
      assert multiset(a)[y] <= multiset(b)[y];
    }
  }

  /** Dropping the distances keeps sub-multisets sub-multisets. */
  lemma {:induction false} UntagMonotone(a: seq<Tagged>, b: seq<Tagged>)
    requires multiset(a) <= multiset(b)
    ensures multiset(Untag(a)) <= multiset(Untag(b))
    decreases |a|
  {
    if |a| > 0 {
      var n := |a| - 1;
      assert a[n] in multiset(b) by {
        assert a == a[..n] + [a[n]];
      }
      var j :| 0 <= j < |b| && b[j] == a[n];
      SubMultisetRemove(a, b, j);
      UntagMonotone(a[..n], b[..j] + b[j + 1..]);
      UntagRemove(b, j);
      UntagRemove(a, n);
      assert a[..n] + a[n + 1..] == a[..n];
    }
  }

  /** The pairs the sort chooses from, and the first k of them. */
  function SortedTags(ps: seq<Poi>, center: (real, real)): (ts: seq<Tagged>)
    ensures Ascending(ts) && TaggedFor(ts, center) && |ts| == |ps|
    ensures multiset(ts) == multiset(Tag(ps, center))
  {
    SortKeepsTags(Tag(ps, center), center);
    Sort(Tag(ps, center))
  }

  /** The map-sort-slice-map chain: the 30 POIs nearest the center, nearest
      first. */
  function Nearest(ps: seq<Poi>, center: (real, real)): (r: seq<Poi>)
    ensures SortedBy(r, center)
    ensures |r| == if |ps| < MaxShown then |ps| else MaxShown
    ensures multiset(r) <= multiset(ps)
  {
    var sorted := SortedTags(ps, center);
    var k := if |sorted| < MaxShown then |sorted| else MaxShown;
    var r := Untag(sorted[..k]);
    assert multiset(r) <= multiset(ps) by {
      assert sorted == sorted[..k] + sorted[k..];
      UntagMonotone(sorted[..k], Tag(ps, center));
      assert Untag(Tag(ps, center)) == ps;
    }
    assert SortedBy(r, center) by {
      forall i | 0 <= i < |r| ensures Key(r[i], center) == sorted[i].1 {
      }
    }
    r
  }

  /** Nothing left out is nearer than anything kept: every POI of the input
      is either among the 30, or at least as far as each of them. */
  lemma NearestAreNearest(ps: seq<Poi>, center: (real, real), p: Poi)
    requires p in ps
    ensures var r := Nearest(ps, center);
      p in r || forall i | 0 <= i < |r| :: Key(r[i], center) <= Key(p, center)
  {
    var tagged := Tag(ps, center);
    var sorted := SortedTags(ps, center);
    var r := Nearest(ps, center);
    var k :| 0 <= k < |ps| && ps[k] == p;
    assert tagged[k] == (p, Key(p, center));
    assert (p, Key(p, center)) in multiset(sorted);
    var j :| 0 <= j < |sorted| && sorted[j] == (p, Key(p, center));
    if j < |r| {
      assert r[j] == p;
    } else {
      forall i | 0 <= i < |r| ensures Key(r[i], center) <= Key(p, center) {
        assert r[i] == sorted[i].0;
      }
    }
  }

  // ---------------------------------------------------------------------
  // The query

  /** Which branch of the query answered. */
  datatype Branch = Disabled | AreaLoaded | RateLimited | Unchanged | Fetched

  /** What the query sees: the switch, the debounced view, the
      POI store’s answers for this box, the time since the last request, the
      box of the last fetch that found something, and the fetch’s result
      (`None` when it rejects). */
  datatype QueryInput = QueryInput(
    enabled: bool,
    center: (real, real),
    zoom: int,
    viewport: Option<(real, real)>,
    areaLoaded: bool,
    cached: seq<Poi>,
    sinceLastRequest: int,
    lastBounds: Option<Bounds>,
    fetch: Option<seq<Poi>>)

  /** The answer, the POIs handed to the store with their box, and the box
      remembered for the next call. */
  datatype QueryOutput = QueryOutput(pois: seq<Poi>, added: Option<(seq<Poi>, Bounds)>, lastBounds: Option<Bounds>)

  function BoxOf(q: QueryInput): Bounds {
    CalculateBounds(q.center, q.zoom, q.viewport)
  }

  /** The checks, in the order the query makes them. */
  function BranchOf(q: QueryInput): (b: Branch)
    ensures b == Disabled <==> !q.enabled
    ensures b == AreaLoaded <==> q.enabled && q.areaLoaded
    ensures b == RateLimited <==> q.enabled && !q.areaLoaded && q.sinceLastRequest < MinRequestInterval
    ensures b == Unchanged <==>
      q.enabled && !q.areaLoaded && q.sinceLastRequest >= MinRequestInterval && !HasBoundsChanged(q.lastBounds, BoxOf(q))
    ensures b == Fetched <==>
      q.enabled && !q.areaLoaded && q.sinceLastRequest >= MinRequestInterval && HasBoundsChanged(q.lastBounds, BoxOf(q))
  {
    if !q.enabled then Disabled
    else if q.areaLoaded then AreaLoaded
    else if q.sinceLastRequest < MinRequestInterval then RateLimited
    else if !HasBoundsChanged(q.lastBounds, BoxOf(q)) then Unchanged
    else Fetched
  }

  /** The cached POIs nearest first, or [] when there are none. */
  function FromCache(q: QueryInput): seq<Poi> {
    if |q.cached| > 0 then Nearest(q.cached, q.center) else []
  }

  /** `queryFn` */
  function Query(q: QueryInput): (out: QueryOutput)
    ensures !q.enabled ==> out.pois == []
    ensures SortedBy(out.pois, q.center) && |out.pois| <= MaxShown
    ensures out.added.Some? <==> BranchOf(q) == Fetched && q.fetch.Some? && |q.fetch.value| > 0
    ensures out.added.Some? ==> out.added.value == (q.fetch.value, BoxOf(q)) && out.lastBounds == Some(BoxOf(q))
    ensures out.added.None? ==> out.lastBounds == q.lastBounds
  {
    var bounds := BoxOf(q);
    match BranchOf(q)
    case Disabled => QueryOutput([], None, q.lastBounds)
    case AreaLoaded => QueryOutput(Nearest(q.cached, q.center), None, q.lastBounds)
    case RateLimited => QueryOutput(FromCache(q), None, q.lastBounds)
    case Unchanged => QueryOutput(Nearest(q.cached, q.center), None, q.lastBounds)
    case Fetched =>
      match q.fetch
      case Some(all) =>
        var sorted := Nearest(all, q.center);
        if |all| > 0 then QueryOutput(sorted, Some((all, bounds)), Some(bounds))
        else QueryOutput(FromCache(q), None, q.lastBounds)
      case None => QueryOutput(FromCache(q), None, q.lastBounds)
  }

  /** Every answer is drawn from the cache, or from a fetch that found
      something; only a fetching call can answer with fetched POIs. */
  lemma QuerySources(q: QueryInput)
    ensures var out := Query(q);
      if BranchOf(q) == Fetched && q.fetch.Some? && |q.fetch.value| > 0
      then out.pois == Nearest(q.fetch.value, q.center)
      else multiset(out.pois) <= multiset(q.cached)
  {
  }

  /** Right after a fetch that found something, the same view neither
      refetches nor changes the remembered box. */
  lemma FetchSettles(q: QueryInput)
    requires BranchOf(q) == Fetched && q.fetch.Some? && |q.fetch.value| > 0
    ensures var q' := q.(lastBounds := Query(q).lastBounds);
      BranchOf(q') != Fetched && Query(q').lastBounds == Query(q).lastBounds
  {
  }
}
