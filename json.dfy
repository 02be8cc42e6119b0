/**
  The values the client exchanges with the provider: request payloads (PHP
  arrays) and decoded responses (what `json_decode` yields without its
  associative flag, so JSON objects are objects, never arrays). Field access,
  truthiness and loose comparison follow PHP's rules for these values.
 */
module Json {
  import Text

  datatype Json =
    | JNull
    | JBool(b: bool)
    | JInt(i: int)
    | JStr(s: string)
    | JList(items: seq<Json>)
    | JObject(fields: map<string, Json>)

  /** `$j->key`: an absent property, or a property of a non-object, reads as null. */
  function Field(j: Json, key: string): Json
  {
    if j.JObject? && key in j.fields then j.fields[key] else JNull
  }

  /** `foreach ($j->key as ...)`: the entries of a list property; anything else iterates as none. */
  function ListItems(j: Json, key: string): seq<Json>
  {
    var list := Field(j, key);
    if list.JList? then list.items else []
  }

  /**
    PHP's conversion to bool, used by `if ($x)` and by `$x == true`.
    A decoded JSON object is an object and so always true.
   */
  predicate Truthy(j: Json)
  {
    match j
    case JNull => false
    case JBool(b) => b
    case JInt(i) => i != 0
    case JStr(s) => s != "" && s != "0"
    case JList(items) => items != []
    case JObject(_) => true
  }

  /**
    `$body != null` is false exactly for the values that loosely equal null:
    null, false, 0, "" and the empty array `array()` (a payload array is a
    JObject here). The string "0" is not among them.
   */
  predicate LooselyNull(j: Json)
  {
    match j
    case JNull => true
    case JBool(b) => !b
    case JInt(i) => i == 0
    case JStr(s) => s == ""
    case JList(items) => items == []
    case JObject(fields) => fields == map[]
  }

  /**
    `$x == 'literal'` for a non-empty, non-numeric literal: a string must
    match exactly, and boolean true matches any such literal (it converts to true).
   */
  predicate LooselyEqualsWord(j: Json, word: string)
    requires word != "" && word != "0"
  {
    j == JStr(word) || j == JBool(true)
  }

  /** The text `sprintf('%s', $x)` produces for a scalar. */
  function PhpString(j: Json): string
  {
    match j
    case JNull => ""
    case JBool(b) => if b then "1" else ""
    case JInt(i) => Text.IntString(i)
    case JStr(s) => s
    case JList(_) => "Array"
    case JObject(_) => ""
  }
}
