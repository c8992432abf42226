/** The shared search box state. */
module SearchStore {
  import opened WebTypes

  datatype SearchState = SearchState(query: string, results: seq<Place>, isLoading: bool)

  function Initial(): (s: SearchState)
    ensures s.query == "" && s.results == [] && !s.isLoading
  {
    SearchState("", [], false)
  }

  function SetQuery(s: SearchState, q: string): (s': SearchState)
    ensures s'.query == q
    ensures s' == s.(query := q)
  {
    s.(query := q)
  }

  function SetResults(s: SearchState, rs: seq<Place>): (s': SearchState)
    ensures s'.results == rs
    ensures s' == s.(results := rs)
  {
    s.(results := rs)
  }

  function SetIsLoading(s: SearchState, b: bool): (s': SearchState)
    ensures s'.isLoading == b
    ensures s' == s.(isLoading := b)
  {
    s.(isLoading := b)
  }

  /** `clear`: all three fields back to their initial values. */
  function Clear(s: SearchState): (s': SearchState)
    ensures s'.query == "" && s'.results == [] && !s'.isLoading
  {
    SearchState("", [], false)
  }

  /** Clearing forgets everything: from any state it gives the initial
      one, so clearing twice is clearing once. */
  lemma ClearForgets(s: SearchState, t: SearchState)
    ensures Clear(s) == Initial() == Clear(t)
    ensures Clear(Clear(s)) == Clear(s)
  {
  }
}
