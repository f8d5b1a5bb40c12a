/** Values of the loosely typed JavaScript world that the application passes around. */
module Js {

  /** `T | null | undefined`: the application never distinguishes null from undefined. */
  datatype Option<T> = None | Some(value: T) {
    function GetOr(default: T): T {
      match this
      case Some(v) => v
      case None => default
    }
  }

  /** A value, or the message of the `Error` thrown instead. */
  datatype Result<T> = Ok(value: T) | Failure(message: string)

  /** A field whose runtime value may be a string, a list of strings, or absent,
      whatever its declared TypeScript type says (`milkOptions`, `vibeTags`). */
  datatype Loose = Missing | Str(text: string) | List(items: seq<string>)

  /** JavaScript truthiness of an optional string: `null`, `undefined` and `""` are falsy. */
  predicate Truthy(s: Option<string>) {
    s.Some? && s.value != ""
  }

  /** `s || null` for an optional string. */
  function OrNull(s: Option<string>): (r: Option<string>)
    ensures r.Some? <==> Truthy(s)
    ensures r.Some? ==> r == s
  {
    if Truthy(s) then s else None
  }

  /** `s || null` for a string that is always present. */
  function NonEmptyOrNull(s: string): (r: Option<string>)
    ensures r.None? <==> s == ""
    ensures r.Some? ==> r.value == s
  {
    if s == "" then None else Some(s)
  }
}
