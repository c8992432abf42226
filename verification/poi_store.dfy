/** The points-of-interest switch. */
module PoiStore {

  datatype PoiState = PoiState(enabled: bool)

  function Initial(): (s: PoiState)
    ensures !s.enabled
  {
    PoiState(false)
  }

  function Toggle(s: PoiState): (s': PoiState)
    ensures s'.enabled == !s.enabled
  {
    PoiState(!s.enabled)
  }

  function SetEnabled(s: PoiState, b: bool): (s': PoiState)
    ensures s'.enabled == b
  {
    PoiState(b)
  }

  /** Toggling twice restores the switch; setting is idempotent and
      toggling is setting the negation. */
  lemma ToggleLaws(s: PoiState, b: bool)
    ensures Toggle(Toggle(s)) == s
    ensures SetEnabled(SetEnabled(s, b), b) == SetEnabled(s, b)
    ensures Toggle(s) == SetEnabled(s, !s.enabled)
  {
  }
}
