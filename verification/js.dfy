/**
 The few JavaScript value notions the two route handlers lean on: a value that
 may be absent (`undefined`/`null`), the truthiness of an optional string, and
 the value a `catch` clause receives.
 */
module Js {

  /** A field that is either absent (`undefined` or `null`) or holds a value. */
  datatype Option<+T> = None | Some(value: T)

  /** `if (s)` on an optional string: false for an absent value and for `""`. */
  predicate Truthy(s: Option<string>)
    ensures s == None ==> !Truthy(s)
    ensures s == Some("") ==> !Truthy(s)
    ensures s.Some? && |s.value| > 0 ==> Truthy(s)
  {
    s.Some? && s.value != ""
  }

  /** What a `catch (error)` clause can receive: an `Error` instance carrying a
      message, or any other thrown value. */
  datatype Thrown = ErrorInstance(message: string) | OtherValue

  /** `error instanceof Error ? error.message : fallback`. */
  function MessageOf(e: Thrown, fallback: string): (m: string)
    ensures e.ErrorInstance? ==> m == e.message
    ensures e.OtherValue? ==> m == fallback
  {
    match e
    case ErrorInstance(message) => message
    case OtherValue => fallback
  }
}
