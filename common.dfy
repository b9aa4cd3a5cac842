/** Values shared by the modules of the splitter client: optional values (JavaScript's
    `null`/`undefined` against a present value) and the opaque JSON the service returns. */
module Common {

  datatype Option<+T> = None | Some(value: T)

  /** A JSON value received from the processing service. The client stores such values
      and sends them back; it never inspects them. */
  datatype Json =
    | JUndefined
    | JNull
    | JBool(b: bool)
    | JNumber(n: real)
    | JString(s: string)
    | JArray(items: seq<Json>)
    | JObject(fields: map<string, Json>)

  /** `p` is a prefix of `s` (`s.startsWith(p)`). */
  predicate StartsWith(s: string, p: string) {
    |p| <= |s| && s[..|p|] == p
  }

  /** JavaScript's `x || d` where `x` is an optional string: a missing or empty string is
      falsy, so the default is taken. */
  function OrElse(x: Option<string>, default: string): (r: string)
    ensures x.Some? && x.value != "" ==> r == x.value
    ensures x.None? || x.value == "" ==> r == default
  {
    if x.Some? && x.value != "" then x.value else default
  }
}
