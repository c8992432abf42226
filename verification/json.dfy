/** A parsed JSON document as the clients see it: Jackson’s `JsonNode` on the
    desktop and plain objects in the browser. An absent key is simply not in
    the object’s map. */
module JsonValues {
  import opened Wrappers
  import opened Text

  datatype Json =
    | JNull
    | JBool(b: bool)
    | JNum(n: real)
    | JStr(s: string)
    | JArr(items: seq<Json>)
    | JObj(fields: map<string, Json>)

  /** `node.has(key)`: only objects have fields. */
  predicate Has(j: Json, key: string) {
    j.JObj? && key in j.fields
  }

  /** `node[key]`, absent when the node is not an object or lacks the key. */
  function Field(j: Json, key: string): (r: Option<Json>)
    ensures r.Some? <==> Has(j, key)
  {
    if Has(j, key) then Some(j.fields[key]) else None
  }

  /** A string-valued field, absent unless the value is a string. */
  function StringField(j: Json, key: string): (r: Option<string>)
    ensures r.Some? <==> Has(j, key) && j.fields[key].JStr?
  {
    if Has(j, key) && j.fields[key].JStr? then Some(j.fields[key].s) else None
  }

  /** Jackson’s `asText()`: a string’s own text, "null" for null, the
      literal for a boolean, the number’s text for a number, and "" for a
      container. How a number is printed is a parameter. */
  function AsText(j: Json, numberText: NumberFormat): (t: string)
    ensures j.JStr? ==> t == j.s
    ensures j.JArr? || j.JObj? ==> t == ""
  {
    match j
    case JNull => "null"
    case JBool(b) => if b then "true" else "false"
    case JNum(n) => numberText(n)
    case JStr(s) => s
    case JArr(_) => ""
    case JObj(_) => ""
  }

  /** Only the string "Ok" reads as the text "Ok". */
  lemma AsTextOk(j: Json, numberText: NumberFormat)
    ensures AsText(j, numberText) == "Ok" <==> j == JStr("Ok")
  {
    if j.JNum? {
      var t := numberText(j.n);
      assert |t| == 0 || IsNumeralChar(t[0]);
    }
  }

  /** Jackson’s `asDouble()`: a number’s value, a parsed string (0.0 when
      it does not parse), 1.0 or 0.0 for a boolean, and 0.0 otherwise. How a
      string is parsed is a parameter. */
  function AsDouble(j: Json, parse: string -> Option<real>): (d: real)
    ensures j.JNum? ==> d == j.n
    ensures j.JNull? || j.JArr? || j.JObj? ==> d == 0.0
  {
    match j
    case JNum(n) => n
    case JStr(s) => parse(s).GetOr(0.0)
    case JBool(b) => if b then 1.0 else 0.0
    case _ => 0.0
  }
}
