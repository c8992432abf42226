/** The Encoded Polyline Algorithm Format as the two decoders read it: the
    desktop decoder fails on a group cut short by the end of the text; the
    browser decoder takes the missing characters as NaN, which adds no bits
    and ends the group. */
module Polyline {
  import opened Wrappers
  import opened Locations

  /** A point on the 1e-5 degree lattice. Each coordinate is written as
      zig-zag encoded 5-bit chunks, least significant first, each chunk
      offset by 63 and flagged with 0x20 while more follow. */
  datatype Point = Point(lat: int, lng: int)

  datatype DecodeError = Truncated

  /** The 5 data bits of a chunk: `(c - 63) & 0x1f`. On 32-bit two’s
      complement this is the Euclidean remainder, also for characters
      below `?`. */
  function ChunkBits(c: char): (d: nat)
    ensures d < 32
  {
    (c as int - 63) % 32
  }

  /** The chunk is followed by another one: `c - 63 >= 0x20`. */
  predicate Continues(c: char) {
    c as int - 63 >= 32
  }

  /** Reads one group; the rest of the text follows the value. */
  function ReadGroup(s: string): (r: Result<(nat, string), DecodeError>)
    ensures r.Ok? ==> |r.value.1| < |s|
  {
    if |s| == 0 then Err(Truncated)
    else if Continues(s[0]) then
      match ReadGroup(s[1..])
      case Err(e) => Err(e)
      case Ok((v, rest)) => Ok((ChunkBits(s[0]) + 32 * v, rest))
    else Ok((ChunkBits(s[0]), s[1..]))
  }

  /** `(v & 1) != 0 ? ~(v >> 1) : (v >> 1)`, with `~x == -x - 1`. */
  function ZigZag(v: nat): int {
    if v % 2 == 1 then -(v / 2) - 1 else v / 2
  }

  /** The inverse of `ZigZag`: non-negative deltas to even codes, negative
      ones to odd codes. */
  function UnZigZag(d: int): (v: nat)
    ensures v % 2 == 0 <==> d >= 0
  {
    if d >= 0 then 2 * d else -2 * d - 1
  }

  lemma ZigZagRoundTrip(d: int)
    ensures ZigZag(UnZigZag(d)) == d
  {
  }

  lemma UnZigZagRoundTrip(v: nat)
    ensures UnZigZag(ZigZag(v)) == v
  {
  }

  /** Reads one point: a latitude group, then a longitude group, each a
      difference to the previous point. */
  function ReadPoint(s: string, lat: int, lng: int): (r: Result<(Point, string), DecodeError>)
    ensures r.Ok? ==> |r.value.1| < |s|
  {
    match ReadGroup(s)
    case Err(e) => Err(e)
    case Ok((a, r1)) =>
      match ReadGroup(r1)
      case Err(e) => Err(e)
      case Ok((b, r2)) => Ok((Point(lat + ZigZag(a), lng + ZigZag(b)), r2))
  }

  /** The desktop decoder on the remaining text, with the running sums so
      far. */
  function DecodeFrom(s: string, lat: int, lng: int): (r: Result<seq<Point>, DecodeError>)
    ensures r.Ok? ==> |r.value| <= |s|
    decreases |s|
  {
    if |s| == 0 then Ok([])
    else
      match ReadPoint(s, lat, lng)
      case Err(e) => Err(e)
      case Ok((p, rest)) =>
        match DecodeFrom(rest, p.lat, p.lng)
        case Err(e) => Err(e)
        case Ok(ps) => Ok([p] + ps)
  }

  /** `OSRMService.decodePolyline` on the lattice: the empty text is the
      empty list, a non-empty text that decodes gives at least one point, and
      whatever it accepts the browser decoder reads the same way. */
  function Decode(s: string): (r: Result<seq<Point>, DecodeError>)
    ensures |s| == 0 ==> r == Ok([])
    ensures r.Ok? ==> |r.value| <= |s| && (|s| > 0 ==> |r.value| > 0)
    ensures r.Ok? ==> DecodeLenientFrom(s, 0, 0) == Swapped(r.value)
  {
    if DecodeFrom(s, 0, 0).Ok? then LenientAgreesFrom(s, 0, 0); DecodeFrom(s, 0, 0)
    else DecodeFrom(s, 0, 0)
  }

  // ---------------------------------------------------------------------
  // The encoder, the decoders’ partner

  /** The chunks of a non-negative value, least significant first. */
  function EncodeValue(v: nat): (s: string)
    ensures |s| >= 1
    ensures !Continues(s[|s| - 1])
    decreases v
  {
    if v < 32 then [(v + 63) as char]
    else [(v % 32 + 32 + 63) as char] + EncodeValue(v / 32)
  }

  function EncodeDelta(d: int): string {
    EncodeValue(UnZigZag(d))
  }

  /** The text for `ps`, each point written as its difference to the one
      before, starting from (0, 0). */
  function EncodeFrom(ps: seq<Point>, lat: int, lng: int): string
    decreases |ps|
  {
    if |ps| == 0 then ""
    else EncodeDelta(ps[0].lat - lat) + EncodeDelta(ps[0].lng - lng) + EncodeFrom(ps[1..], ps[0].lat, ps[0].lng)
  }

  /** The encoded text decodes back to the points. */
  function Encode(ps: seq<Point>): (s: string)
    ensures DecodeFrom(s, 0, 0) == Ok(ps)
  {
    DecodeEncodeFrom(ps, 0, 0);
    EncodeFrom(ps, 0, 0)
  }

  lemma {:induction false} ReadEncodedValue(v: nat, rest: string)
    ensures ReadGroup(EncodeValue(v) + rest) == Ok((v, rest))
    decreases v
  {
    var s := EncodeValue(v) + rest;
    if v < 32 {
      assert s[1..] == rest;
    } else {
      assert s[1..] == EncodeValue(v / 32) + rest;
      ReadEncodedValue(v / 32, rest);
    }
  }

  function EncodePoint(p: Point, lat: int, lng: int): string {
    EncodeDelta(p.lat - lat) + EncodeDelta(p.lng - lng)
  }

  lemma ReadEncodedPoint(p: Point, lat: int, lng: int, rest: string)
    ensures ReadPoint(EncodePoint(p, lat, lng) + rest, lat, lng) == Ok((p, rest))
  {
    var r1 := EncodeDelta(p.lng - lng) + rest;
    var s := EncodePoint(p, lat, lng) + rest;
    var a, b := UnZigZag(p.lat - lat), UnZigZag(p.lng - lng);
    assert ReadGroup(s) == Ok((a, r1)) by {
      assert s == EncodeValue(a) + r1;
      ReadEncodedValue(a, r1);
    }
    assert ReadGroup(r1) == Ok((b, rest)) by {
      ReadEncodedValue(b, rest);
    }
    assert Point(lat + ZigZag(a), lng + ZigZag(b)) == p by {
      ZigZagRoundTrip(p.lat - lat);
      ZigZagRoundTrip(p.lng - lng);
    }
    ReadTwoGroups(s, lat, lng, a, r1, b, rest);
  }

  lemma ReadTwoGroups(s: string, lat: int, lng: int, a: nat, r1: string, b: nat, r2: string)
    requires ReadGroup(s) == Ok((a, r1)) && ReadGroup(r1) == Ok((b, r2))
    ensures ReadPoint(s, lat, lng) == Ok((Point(lat + ZigZag(a), lng + ZigZag(b)), r2))
  {
  }

  /** Decoding an encoding gives back the points. */
  lemma {:induction false} DecodeEncodeFrom(ps: seq<Point>, lat: int, lng: int)
    ensures DecodeFrom(EncodeFrom(ps, lat, lng), lat, lng) == Ok(ps)
    decreases |ps|
  {
    if |ps| > 0 {
      var p := ps[0];
      var tail := EncodeFrom(ps[1..], p.lat, p.lng);
      assert EncodeFrom(ps, lat, lng) == EncodePoint(p, lat, lng) + tail;
      ReadEncodedPoint(p, lat, lng, tail);
      DecodeEncodeFrom(ps[1..], p.lat, p.lng);
      assert [p] + ps[1..] == ps;
    }
  }

  lemma DecodeEncode(ps: seq<Point>)
    ensures Decode(Encode(ps)) == Ok(ps)
  {
    DecodeEncodeFrom(ps, 0, 0);
  }

  /** A group whose final chunk is missing cannot be read. */
  lemma {:induction false} ReadCutValue(v: nat)
    ensures ReadGroup(EncodeValue(v)[..|EncodeValue(v)| - 1]).Err?
    decreases v
  {
    var s := EncodeValue(v);
    var cut := s[..|s| - 1];
    if v >= 32 {
      assert cut[1..] == EncodeValue(v / 32)[..|EncodeValue(v / 32)| - 1];
      ReadCutValue(v / 32);
    }
  }

  lemma ReadCutPoint(p: Point, lat: int, lng: int)
    ensures var s := EncodePoint(p, lat, lng); ReadPoint(s[..|s| - 1], lat, lng).Err?
  {
    var a := EncodeDelta(p.lat - lat);
    var b := EncodeDelta(p.lng - lng);
    var s := EncodePoint(p, lat, lng);
    var bcut := b[..|b| - 1];
    assert s[..|s| - 1] == a + bcut;
    ReadEncodedValue(UnZigZag(p.lat - lat), bcut);
    ReadCutValue(UnZigZag(p.lng - lng));
    ReadSecondGroupFails(s[..|s| - 1], lat, lng, UnZigZag(p.lat - lat), bcut);
  }

  lemma ReadSecondGroupFails(s: string, lat: int, lng: int, a: nat, r1: string)
    requires ReadGroup(s) == Ok((a, r1)) && ReadGroup(r1).Err?
    ensures ReadPoint(s, lat, lng).Err?
  {
  }

  lemma EncodeFromNonEmpty(ps: seq<Point>, lat: int, lng: int)
    requires |ps| > 0
    ensures EncodeFrom(ps, lat, lng) == EncodePoint(ps[0], lat, lng) + EncodeFrom(ps[1..], ps[0].lat, ps[0].lng)
    ensures |EncodeFrom(ps, lat, lng)| >= 2
  {
  }

  lemma DecodeFailsAfterPoint(s: string, lat: int, lng: int, p: Point, rest: string)
    requires |s| > 0
    requires ReadPoint(s, lat, lng) == Ok((p, rest)) && DecodeFrom(rest, p.lat, p.lng).Err?
    ensures DecodeFrom(s, lat, lng).Err?
  {
  }

  lemma {:induction false} DecodeCutFrom(ps: seq<Point>, lat: int, lng: int)
    requires |ps| > 0
    ensures var s := EncodeFrom(ps, lat, lng); DecodeFrom(s[..|s| - 1], lat, lng).Err?
    decreases |ps|
  {
    var p := ps[0];
    var s := EncodeFrom(ps, lat, lng);
    var tail := EncodeFrom(ps[1..], p.lat, p.lng);
    var head := EncodePoint(p, lat, lng);
    EncodeFromNonEmpty(ps, lat, lng);
    if |ps| == 1 {
      assert tail == "";
      assert s == head;
      ReadCutPoint(p, lat, lng);
      assert s[..|s| - 1] == head[..|head| - 1];
    } else {
      EncodeFromNonEmpty(ps[1..], p.lat, p.lng);
      var tcut := tail[..|tail| - 1];
      assert s[..|s| - 1] == head + tcut;
      ReadEncodedPoint(p, lat, lng, tcut);
      DecodeCutFrom(ps[1..], p.lat, p.lng);
      DecodeFailsAfterPoint(head + tcut, lat, lng, p, tcut);
    }
  }

  /** A well-formed polyline with its last character removed is rejected:
      the final longitude group runs past the end of the text. */
  lemma DecodeTruncatedFails(ps: seq<Point>)
    requires |ps| > 0
    ensures var s := Encode(ps); Decode(s[..|s| - 1]).Err?
  {
    DecodeCutFrom(ps, 0, 0);
  }

  // ---------------------------------------------------------------------
  // The browser decoder

  /** Reads one group; past the end a chunk is NaN, so it adds no bits and
      ends the group. */
  function ReadGroupLenient(s: string): (r: (nat, string))
    ensures |r.1| <= |s|
    ensures |s| > 0 ==> |r.1| < |s|
  {
    if |s| == 0 then (0, "")
    else if Continues(s[0]) then
      var (v, rest) := ReadGroupLenient(s[1..]);
      (ChunkBits(s[0]) + 32 * v, rest)
    else (ChunkBits(s[0]), s[1..])
  }

  function ReadPointLenient(s: string, lat: int, lng: int): (r: (Point, string))
    ensures |s| > 0 ==> |r.1| < |s|
  {
    var (a, r1) := ReadGroupLenient(s);
    var (b, r2) := ReadGroupLenient(r1);
    (Point(lat + ZigZag(a), lng + ZigZag(b)), r2)
  }

  /** The browser decoder’s pairs, longitude first, on the lattice. */
  function DecodeLenientFrom(s: string, lat: int, lng: int): (r: seq<(int, int)>)
    ensures |r| <= |s|
    ensures |s| > 0 ==> |r| > 0
    decreases |s|
  {
    if |s| == 0 then []
    else
      var (p, rest) := ReadPointLenient(s, lat, lng);
      [(p.lng, p.lat)] + DecodeLenientFrom(rest, p.lat, p.lng)
  }

  /** `decodePolyline` in the browser client, on the lattice: [] for the
      empty text. */
  function DecodeLenient(s: string): (r: seq<(int, int)>)
    ensures |s| == 0 <==> r == []
    ensures |r| <= |s|
    ensures DecodeFrom(s, 0, 0).Ok? ==> r == Swapped(DecodeFrom(s, 0, 0).value)
  {
    if DecodeFrom(s, 0, 0).Ok? then LenientAgreesFrom(s, 0, 0); DecodeLenientFrom(s, 0, 0)
    else DecodeLenientFrom(s, 0, 0)
  }

  function Swapped(ps: seq<Point>): (r: seq<(int, int)>)
    ensures |r| == |ps|
    ensures forall k | 0 <= k < |ps| :: r[k] == (ps[k].lng, ps[k].lat)
  {
    if |ps| == 0 then [] else [(ps[0].lng, ps[0].lat)] + Swapped(ps[1..])
  }

  lemma {:induction false} LenientAgreesOnGroup(s: string)
    requires ReadGroup(s).Ok?
    ensures ReadGroupLenient(s) == ReadGroup(s).value
  {
    if Continues(s[0]) {
      LenientAgreesOnGroup(s[1..]);
    }
  }

  lemma LenientAgreesOnPoint(s: string, lat: int, lng: int)
    requires ReadPoint(s, lat, lng).Ok?
    ensures ReadPointLenient(s, lat, lng) == ReadPoint(s, lat, lng).value
  {
    LenientAgreesOnGroup(s);
    LenientAgreesOnGroup(ReadGroup(s).value.1);
  }

  lemma {:induction false} LenientAgreesFrom(s: string, lat: int, lng: int)
    requires DecodeFrom(s, lat, lng).Ok?
    ensures DecodeLenientFrom(s, lat, lng) == Swapped(DecodeFrom(s, lat, lng).value)
    decreases |s|
  {
    if |s| > 0 {
      LenientAgreesOnPoint(s, lat, lng);
      var (p, rest) := ReadPoint(s, lat, lng).value;
      LenientAgreesFrom(rest, p.lat, p.lng);
    }
  }

  /** Where the desktop decoder succeeds, the browser decoder yields the
      same points with the two coordinates swapped. */
  lemma LenientAgreesWithStrict(s: string)
    requires Decode(s).Ok?
    ensures DecodeLenient(s) == Swapped(Decode(s).value)
  {
    LenientAgreesFrom(s, 0, 0);
  }

  /** The browser decoder never fails: the cut-off text still yields one
      pair per started point. */
  lemma LenientOnTruncated(ps: seq<Point>)
    requires |ps| > 0
    ensures var s := Encode(ps); Decode(s[..|s| - 1]).Err? && |DecodeLenient(s[..|s| - 1])| >= 1
  {
    DecodeTruncatedFails(ps);
    var s := Encode(ps);
    var p := ps[0];
    assert |EncodeDelta(p.lat - 0)| >= 1 && |EncodeDelta(p.lng - 0)| >= 1;
    assert |s| >= 2;
  }

  // ---------------------------------------------------------------------
  // Scaling to degrees

  /** The desktop decoder’s Location: a default Location with both
      coordinates set to the lattice value times 1e-5. */
  function ToLocation(p: Point): (l: Location)
    ensures l.latitude * 100000.0 == p.lat as real && l.longitude * 100000.0 == p.lng as real
    ensures l.name == "" && l.address == ""
  {
    SetLongitude(SetLatitude(DefaultLocation(), p.lat as real * 0.00001), p.lng as real * 0.00001)
  }

  function ToLocations(ps: seq<Point>): (ls: seq<Location>)
    ensures |ls| == |ps|
    ensures forall k | 0 <= k < |ps| :: ls[k] == ToLocation(ps[k])
  {
    if |ps| == 0 then [] else [ToLocation(ps[0])] + ToLocations(ps[1..])
  }

  /** The browser decoder’s pair `[lng / 1e5, lat / 1e5]`. */
  function ToDegrees(pair: (int, int)): (r: (real, real))
    ensures r.0 * 100000.0 == pair.0 as real && r.1 * 100000.0 == pair.1 as real
  {
    (pair.0 as real / 100000.0, pair.1 as real / 100000.0)
  }

  // ---------------------------------------------------------------------
  // The format’s published example

  const Example: string := "_p~iF~ps|U_ulLnnqC_mqNvxq`@"

  const ExamplePoints: seq<Point> := [P0, P1, P2]

  lemma ExampleFirstLatitude()
    ensures EncodeDelta(3850000) == "_p~iF"
  {
    assert EncodeValue(7) == "F";
    assert EncodeValue(234) == "iF";
    assert EncodeValue(7519) == "~iF";
    assert EncodeValue(240625) == "p~iF";
  }

  lemma ExampleFirstLongitude()
    ensures EncodeDelta(-12020000) == "~ps|U"
  {
    assert EncodeValue(22) == "U";
    assert EncodeValue(733) == "|U";
    assert EncodeValue(23476) == "s|U";
    assert EncodeValue(751249) == "ps|U";
  }

  lemma ExampleSecondLatitude()
    ensures EncodeDelta(220000) == "_ulL"
  {
    assert EncodeValue(13) == "L";
    assert EncodeValue(429) == "lL";
    assert EncodeValue(13750) == "ulL";
  }

  lemma ExampleSecondLongitude()
    ensures EncodeDelta(-75000) == "nnqC"
  {
    assert EncodeValue(4) == "C";
    assert EncodeValue(146) == "qC";
    assert EncodeValue(4687) == "nqC";
  }

  lemma ExampleThirdLatitude()
    ensures EncodeDelta(255200) == "_mqN"
  {
    assert EncodeValue(15) == "N";
    assert EncodeValue(498) == "qN";
    assert EncodeValue(15950) == "mqN";
  }

  lemma ExampleThirdLongitude()
    ensures EncodeDelta(-550300) == "vxq`@"
  {
    assert EncodeValue(1) == "@";
    assert EncodeValue(33) == "`@";
    assert EncodeValue(1074) == "q`@";
    assert EncodeValue(34393) == "xq`@";
    assert UnZigZag(-550300) == 1100599;
    assert EncodeValue(1100599) == "vxq`@";
  }

  const P0: Point := Point(3850000, -12020000)
  const P1: Point := Point(4070000, -12095000)
  const P2: Point := Point(4325200, -12645300)

  lemma ExampleLastPoint()
    ensures EncodeFrom([P2], P1.lat, P1.lng) == "_mqNvxq`@"
  {
    ExampleThirdLatitude();
    ExampleThirdLongitude();
    assert EncodeFrom([P2], P1.lat, P1.lng) == EncodeDelta(255200) + EncodeDelta(-550300) + EncodeFrom([], P2.lat, P2.lng);
  }

  lemma ExampleLastTwoPoints()
    ensures EncodeFrom([P1, P2], P0.lat, P0.lng) == "_ulLnnqC_mqNvxq`@"
  {
    ExampleSecondLatitude();
    ExampleSecondLongitude();
    ExampleLastPoint();
    assert [P1, P2][1..] == [P2];
    assert EncodeFrom([P1, P2], P0.lat, P0.lng) == EncodeDelta(220000) + EncodeDelta(-75000) + EncodeFrom([P2], P1.lat, P1.lng);
  }

  lemma ExampleEncodes()
    ensures Encode(ExamplePoints) == Example
  {
    ExampleFirstLatitude();
    ExampleFirstLongitude();
    ExampleLastTwoPoints();
    assert ExamplePoints[1..] == [P1, P2];
    assert Encode(ExamplePoints) == EncodeDelta(3850000) + EncodeDelta(-12020000) + EncodeFrom([P1, P2], P0.lat, P0.lng);
  }

  lemma ExampleDecodes()
    ensures Decode(Example) == Ok(ExamplePoints)
  {
    ExampleEncodes();
    DecodeEncode(ExamplePoints);
  }
}
