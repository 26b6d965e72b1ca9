/**
 * JSON-like values as the JavaScript frontend sees them after `JSON.parse` or in an
 * axios response body, and as the backend sees parsed request data.
 * Object members keep their insertion order; numbers are integers.
 */
module Json {
  import opened Common
  import opened Text

  datatype Json =
    | JUndefined
    | JNull
    | JBool(b: bool)
    | JNum(n: int)
    | JStr(s: string)
    | JArr(items: seq<Json>)
    | JObj(members: seq<(string, Json)>)

  /** JavaScript truthiness (arrays and objects are truthy even when empty). */
  predicate Truthy(j: Json)
  {
    match j
    case JUndefined => false
    case JNull => false
    case JBool(b) => b
    case JNum(n) => n != 0
    case JStr(s) => s != ""
    case JArr(_) => true
    case JObj(_) => true
  }

  /**
   * Property access `obj[key]` on an object: `JSON.parse` keeps the last of duplicate keys, so
   * the value is that of the last member with the key, else `undefined`.
   */
  function Get(members: seq<(string, Json)>, key: string): (r: Json)
    ensures r != JUndefined ==> exists i :: 0 <= i < |members| && members[i] == (key, r)
    ensures (forall i :: 0 <= i < |members| ==> members[i].0 != key) ==> r == JUndefined
    ensures forall i :: 0 <= i < |members| && members[i].0 == key && (forall j :: i < j < |members| ==> members[j].0 != key)
                        ==> r == members[i].1
  {
    if members == [] then JUndefined
    else if members[|members| - 1].0 == key then members[|members| - 1].1
    else Get(members[..|members| - 1], key)
  }

  /** `key in obj` for an object value. */
  predicate HasKey(members: seq<(string, Json)>, key: string)
  {
    exists i :: 0 <= i < |members| && members[i].0 == key
  }

  function IntToString(n: int): (s: string)
    ensures |s| >= 1
  {
    if n < 0 then "-" + NatToString(-n) else NatToString(n)
  }

  /** `String(v)` for the values the frontend stringifies. */
  function Display(j: Json): (s: string)
  {
    match j
    case JUndefined => "undefined"
    case JNull => "null"
    case JBool(b) => if b then "true" else "false"
    case JNum(n) => IntToString(n)
    case JStr(s) => s
    case JArr(items) => JoinDisplay(items)
    case JObj(_) => "[object Object]"
  }

  /** `String(array)`: elements joined by commas, with null and undefined shown as empty. */
  function JoinDisplay(items: seq<Json>): string
    decreases items
  {
    if items == [] then ""
    else
      var head := if items[0].JNull? || items[0].JUndefined? then "" else Display(items[0]);
      if |items| == 1 then head else head + "," + JoinDisplay(items[1..])
  }
}
