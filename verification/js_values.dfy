/** The JavaScript values that reach the engine as keys, values and pair elements:
    `undefined`, `null`, strings and `RegExp` objects. A regular expression is known by
    the identity of its object (`id`); two values with the same `id` are the same object
    and so agree on `source` and `flags`. */
module JsValues {

  datatype JsValue =
    | Undefined
    | Null
    | Str(s: string)
    | Regex(id: nat, source: string, flags: string)

  /** JavaScript truthiness: `undefined`, `null` and the empty string are falsy. */
  predicate Truthy(v: JsValue) {
    match v
    case Undefined => false
    case Null => false
    case Str(s) => |s| > 0
    case Regex(_, _, _) => true
  }

  /** `String(v)`, the conversion applied to a key spliced into the key pattern and to a
      replacement value. */
  function ToString(v: JsValue): (r: string)
    ensures v.Str? ==> r == v.s
    ensures !v.Str? ==> |r| > 0
    ensures v.Regex? ==>
      && |r| == |v.source| + |v.flags| + 2
      && r[0] == '/' && r[1..|v.source| + 1] == v.source && r[|v.source| + 1] == '/'
      && r[|v.source| + 2..] == v.flags
  {
    match v
    case Undefined => "undefined"
    case Null => "null"
    case Str(s) => s
    case Regex(_, source, flags) => "/" + source + "/" + flags
  }

  /** The falsy values among those modelled are exactly `undefined`, `null` and "". */
  lemma FalsyValues(v: JsValue)
    ensures !Truthy(v) <==> v == Undefined || v == Null || v == Str("")
  {
  }
}
