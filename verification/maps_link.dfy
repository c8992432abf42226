/** The "open in Google Maps" link: the directions URL for the origin, the
    destination, the travel mode and the stops between. Opening a browser
    window is left out; the number-to-text conversion is a parameter. */
module MapsLink {
  import opened Text
  import opened WebTypes

  /** Google’s travel mode for each transport mode; anything that is not
      driving, cycling or transit goes on foot. */
  function GoogleMode(m: WebMode): (s: string)
    ensures m != Bicycling ==> s == ModeValue(m)
    ensures m == Bicycling ==> s == "bi" + ModeValue(m)
  {
    if m == Driving then "driving"
    else if m == Bicycling then "bicycling"
    else if m == Transit then "transit"
    else "walking"
  }

  /** Each mode gets its own travel mode. */
  lemma GoogleModeFaithful(m: WebMode, m': WebMode)
    ensures GoogleMode(m) == GoogleMode(m') <==> m == m'
  {
  }

  /** `${lat},${lng}` */
  function LatLngText(p: Place, num: NumberFormat): string {
    num(p.lat) + "," + num(p.lng)
  }

  function LatLngTexts(ps: seq<Place>, num: NumberFormat): (ts: seq<string>)
    ensures |ts| == |ps| && forall i | 0 <= i < |ps| :: ts[i] == LatLngText(ps[i], num)
  {
    seq(|ps|, i requires 0 <= i < |ps| => LatLngText(ps[i], num))
  }

  const Base: string := "https://www.google.com/maps/dir/?api=1"

  /** The stops joined with `|` and percent-encoded; empty when there are
      none. */
  function WaypointsParam(ws: seq<Place>, num: NumberFormat): string {
    if |ws| > 0 then "&waypoints=" + EncodeUriComponent(Join("|", LatLngTexts(ws, num))) else ""
  }

  /** The link; splitting it at `&` gives the base and the parameters back:
      origin, destination and travel mode always, the stops exactly when
      there are some. */
  function Url(origin: Place, destination: Place, m: WebMode, ws: seq<Place>, num: NumberFormat): (r: string)
    ensures Split(r, '&') == [Base] + Params(origin, destination, m, ws, num)
  {
    PartsHaveNoAmpersand(origin, destination, m, ws, num);
    UrlJoin(origin, destination, m, ws, num);
    SplitJoin([Base] + Params(origin, destination, m, ws, num), '&');
    UrlOf(LatLngText(origin, num), LatLngText(destination, num), GoogleMode(m), WaypointsParam(ws, num))
  }

  /** The URL template with its four holes. */
  function UrlOf(o: string, d: string, mode: string, waypoints: string): string {
    Base + "&origin=" + o + "&destination=" + d + "&travelmode=" + mode + waypoints
  }

  /** The query parameters, in order; the stops only when there are any. */
  function Params(origin: Place, destination: Place, m: WebMode, ws: seq<Place>, num: NumberFormat): seq<string> {
    ["origin=" + LatLngText(origin, num), "destination=" + LatLngText(destination, num), "travelmode=" + GoogleMode(m)]
      + (if |ws| > 0 then ["waypoints=" + EncodeUriComponent(Join("|", LatLngTexts(ws, num)))] else [])
  }

  // ---------------------------------------------------------------------
  // Characters

  /** A coordinate pair holds no `&` and no `|`. */
  lemma LatLngTextChars(p: Place, num: NumberFormat)
    ensures '&' !in LatLngText(p, num) && '|' !in LatLngText(p, num)
    ensures IsAscii(LatLngText(p, num))
  {
    var t := LatLngText(p, num);
    NumeralHasNo(num(p.lat), '&');
    NumeralHasNo(num(p.lng), '&');
    NumeralHasNo(num(p.lat), '|');
    NumeralHasNo(num(p.lng), '|');
    forall i | 0 <= i < |t| ensures (t[i] as int) < 0x80 {
      if i < |num(p.lat)| {
        assert IsNumeralChar(num(p.lat)[i]);
      } else if i > |num(p.lat)| {
        assert t[i] == num(p.lng)[i - |num(p.lat)| - 1];
        assert IsNumeralChar(num(p.lng)[i - |num(p.lat)| - 1]);
      }
    }
  }

  /** An encoded component holds no `&`. */
  lemma EncodedHasNoAmpersand(s: string)
    ensures '&' !in EncodeUriComponent(s)
  {
    var e := EncodeUriComponent(s);
    forall i | 0 <= i < |e| ensures e[i] != '&' {
      assert IsUnreserved(e[i]) || e[i] == '%' || IsHexChar(e[i]);
    }
  }

  /** Joining ASCII pieces with an ASCII separator gives ASCII. */
  lemma {:induction false} JoinAscii(sep: string, parts: seq<string>)
    requires IsAscii(sep)
    requires forall k | 0 <= k < |parts| :: IsAscii(parts[k])
    ensures IsAscii(Join(sep, parts))
  {
    if |parts| > 1 {
      JoinAscii(sep, parts[1..]);
      var rest := Join(sep, parts[1..]);
      var s := parts[0] + sep + rest;
      assert IsAscii(parts[0]);
      forall i | 0 <= i < |s| ensures (s[i] as int) < 0x80 {
        if i < |parts[0]| {
          assert s[i] == parts[0][i];
        } else if i < |parts[0]| + |sep| {
          assert s[i] == sep[i - |parts[0]|];
        } else {
          assert s[i] == rest[i - |parts[0]| - |sep|];
        }
      }
    } else if |parts| == 1 {
      assert IsAscii(parts[0]);
    }
  }

  // ---------------------------------------------------------------------
  // Reading the link back

  lemma JoinFour(sep: string, a: string, b: string, c: string, d: string)
    ensures Join(sep, [a, b, c, d]) == a + sep + b + sep + c + sep + d
  {
    JoinPair(sep, a, b);
    assert [a, b] + [c] == [a, b, c];
    JoinSnoc(sep, [a, b], c);
    assert [a, b, c] + [d] == [a, b, c, d];
    JoinSnoc(sep, [a, b, c], d);
  }

  lemma JoinFive(sep: string, a: string, b: string, c: string, d: string, e: string)
    ensures Join(sep, [a, b, c, d, e]) == a + sep + b + sep + c + sep + d + sep + e
  {
    JoinFour(sep, a, b, c, d);
    assert [a, b, c, d] + [e] == [a, b, c, d, e];
    JoinSnoc(sep, [a, b, c, d], e);
  }

  /** Moving each separator out of its key. */
  lemma Regroup(b: string, sep: string, k1: string, x1: string, k2: string, x2: string, k3: string, x3: string, tail: string)
    ensures b + (sep + k1) + x1 + (sep + k2) + x2 + (sep + k3) + x3 + tail
      == b + sep + (k1 + x1) + sep + (k2 + x2) + sep + (k3 + x3) + tail
  {
  }

  /** The template is the base and the parameters joined with `&`. */
  lemma UrlOfJoin(o: string, d: string, mode: string, w: string)
    ensures UrlOf(o, d, mode, "") == Join("&", [Base, "origin=" + o, "destination=" + d, "travelmode=" + mode])
    ensures UrlOf(o, d, mode, "&waypoints=" + w)
      == Join("&", [Base, "origin=" + o, "destination=" + d, "travelmode=" + mode, "waypoints=" + w])
  {
    assert "&origin=" == "&" + "origin=";
    assert "&destination=" == "&" + "destination=";
    assert "&travelmode=" == "&" + "travelmode=";
    assert "&waypoints=" + w == "&" + ("waypoints=" + w);
    Regroup(Base, "&", "origin=", o, "destination=", d, "travelmode=", mode, "");
    Regroup(Base, "&", "origin=", o, "destination=", d, "travelmode=", mode, "&waypoints=" + w);
    JoinFour("&", Base, "origin=" + o, "destination=" + d, "travelmode=" + mode);
    JoinFive("&", Base, "origin=" + o, "destination=" + d, "travelmode=" + mode, "waypoints=" + w);
  }

  /** A key and a value free of a character make a parameter free of
      it. */
  lemma ParamHasNo(key: string, value: string, c: char)
    requires c !in key && c !in value
    ensures c !in key + value
  {
  }

  lemma BaseHasNoAmpersand()
    ensures '&' !in Base
  {
  }

  /** The base and the three fixed parameters hold no `&`. */
  lemma FrontHasNoAmpersand(o: string, d: string, mode: string)
    requires '&' !in o && '&' !in d && '&' !in mode
    ensures NoneContains([Base, "origin=" + o, "destination=" + d, "travelmode=" + mode], '&')
  {
    BaseHasNoAmpersand();
    ParamHasNo("origin=", o, '&');
    ParamHasNo("destination=", d, '&');
    ParamHasNo("travelmode=", mode, '&');
  }

  /** No part of the link holds a `&` of its own. */
  lemma PartsHaveNoAmpersand(origin: Place, destination: Place, m: WebMode, ws: seq<Place>, num: NumberFormat)
    ensures NoneContains([Base] + Params(origin, destination, m, ws, num), '&')
  {
    var o := LatLngText(origin, num);
    var d := LatLngText(destination, num);
    LatLngTextChars(origin, num);
    LatLngTextChars(destination, num);
    FrontHasNoAmpersand(o, d, GoogleMode(m));
    var front := [Base, "origin=" + o, "destination=" + d, "travelmode=" + GoogleMode(m)];
    if |ws| > 0 {
      var w := EncodeUriComponent(Join("|", LatLngTexts(ws, num)));
      EncodedHasNoAmpersand(Join("|", LatLngTexts(ws, num)));
      ParamHasNo("waypoints=", w, '&');
      assert [Base] + Params(origin, destination, m, ws, num) == front + ["waypoints=" + w];
    } else {
      assert [Base] + Params(origin, destination, m, ws, num) == front;
    }
  }

  /** The link is the base and the parameters joined with `&`. */
  lemma UrlJoin(origin: Place, destination: Place, m: WebMode, ws: seq<Place>, num: NumberFormat)
    ensures UrlOf(LatLngText(origin, num), LatLngText(destination, num), GoogleMode(m), WaypointsParam(ws, num))
      == Join("&", [Base] + Params(origin, destination, m, ws, num))
  {
    var o := LatLngText(origin, num);
    var d := LatLngText(destination, num);
    var parts := [Base] + Params(origin, destination, m, ws, num);
    if |ws| > 0 {
      var w := EncodeUriComponent(Join("|", LatLngTexts(ws, num)));
      UrlOfJoin(o, d, GoogleMode(m), w);
      assert parts == [Base, "origin=" + o, "destination=" + d, "travelmode=" + GoogleMode(m), "waypoints=" + w];
    } else {
      UrlOfJoin(o, d, GoogleMode(m), "");
      assert parts == [Base, "origin=" + o, "destination=" + d, "travelmode=" + GoogleMode(m)];
    }
  }

  /** The stops’ parameter decodes to the stops’ `lat,lng` texts joined with
      `|`, and splitting at `|` and then `,` gives each stop’s two numbers
      back, in order. */
  lemma WaypointsRoundTrip(ws: seq<Place>, num: NumberFormat)
    requires |ws| > 0
    ensures var joined := Join("|", LatLngTexts(ws, num));
      && DecodeAscii(EncodeUriComponent(joined)) == joined
      && Split(joined, '|') == LatLngTexts(ws, num)
      && forall i | 0 <= i < |ws| :: Split(Split(joined, '|')[i], ',') == [num(ws[i].lat), num(ws[i].lng)]
  {
    var texts := LatLngTexts(ws, num);
    forall k | 0 <= k < |texts| ensures IsAscii(texts[k]) && '|' !in texts[k] {
      LatLngTextChars(ws[k], num);
    }
    JoinAscii("|", texts);
    EncodeDecodeAscii(Join("|", texts));
    SplitJoin(texts, '|');
    forall i | 0 <= i < |ws| ensures Split(texts[i], ',') == [num(ws[i].lat), num(ws[i].lng)] {
      LatLngSplit(ws[i], num);
    }
  }

  /** A `lat,lng` text splits at `,` into its two numbers. */
  lemma LatLngSplit(p: Place, num: NumberFormat)
    ensures Split(LatLngText(p, num), ',') == [num(p.lat), num(p.lng)]
  {
    NumeralHasNo(num(p.lat), ',');
    NumeralHasNo(num(p.lng), ',');
    JoinPair(",", num(p.lat), num(p.lng));
    assert NoneContains([num(p.lat), num(p.lng)], ',');
    SplitJoin([num(p.lat), num(p.lng)], ',');
  }
}
