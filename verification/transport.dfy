/** The desktop application’s transport modes: an OSRM profile code, a
    Portuguese display name and an average speed in km/h. */
module TransportModes {
  import opened Wrappers

  datatype TransportMode = Driving | Walking | Cycling

  /** The declaration order, which `values()` follows. */
  const AllModes: seq<TransportMode> := [Driving, Walking, Cycling]

  /** The OSRM profile: one code per mode, no two alike. */
  function ApiCode(m: TransportMode): (s: string)
    ensures s == "car" <==> m == Driving
    ensures s == "foot" <==> m == Walking
    ensures s == "bike" <==> m == Cycling
  {
    match m
    case Driving => "car"
    case Walking => "foot"
    case Cycling => "bike"
  }

  /** The Portuguese name shown to the user: one per mode, no two alike. */
  function DisplayName(m: TransportMode): (s: string)
    ensures s == "Automóvel" <==> m == Driving
    ensures s == "A pé" <==> m == Walking
    ensures s == "Bicicleta" <==> m == Cycling
  {
    match m
    case Driving => "Automóvel"
    case Walking => "A pé"
    case Cycling => "Bicicleta"
  }

  /** Average speed in km/h. */
  function AverageSpeed(m: TransportMode): (v: real)
    ensures v > 0.0
  {
    match m
    case Driving => 50.0
    case Walking => 5.0
    case Cycling => 15.0
  }

  /** `toString()` */
  function ToString(m: TransportMode): (s: string)
    ensures s == DisplayName(m)
    ensures |s| > 0
  {
    DisplayName(m)
  }

  /** The first mode of `modes` whose code is `code`. */
  function FindByCode(modes: seq<TransportMode>, code: string): (r: Option<TransportMode>)
    ensures r.Some? ==> r.value in modes && ApiCode(r.value) == code
    ensures r.None? <==> forall i | 0 <= i < |modes| :: ApiCode(modes[i]) != code
  {
    if |modes| == 0 then None
    else if ApiCode(modes[0]) == code then Some(modes[0])
    else FindByCode(modes[1..], code)
  }

  /** `fromApiCode`: the mode with this code, or IllegalArgumentException. */
  function FromApiCode(code: string): (r: Result<TransportMode, string>)
    ensures r.Ok? ==> ApiCode(r.value) == code
    ensures r.Err? <==> code != "car" && code != "foot" && code != "bike"
    ensures r.Err? ==> r.error == "Código de API inválido: " + code
  {
    match FindByCode(AllModes, code)
    case Some(m) => Ok(m)
    case None =>
      assert ApiCode(AllModes[0]) != code && ApiCode(AllModes[1]) != code && ApiCode(AllModes[2]) != code;
      Err("Código de API inválido: " + code)
  }

  lemma AllModesComplete(m: TransportMode)
    ensures m in AllModes
  {
  }

  /** No two modes share a code, so the lookup is unambiguous. */
  lemma ApiCodesDistinct(a: TransportMode, b: TransportMode)
    requires ApiCode(a) == ApiCode(b)
    ensures a == b
  {
  }

  /** Looking a mode up by its own code gives the mode back. */
  lemma FromApiCodeRoundTrip(m: TransportMode)
    ensures FromApiCode(ApiCode(m)) == Ok(m)
  {
    var r := FromApiCode(ApiCode(m));
    ApiCodesDistinct(r.value, m);
  }
}
