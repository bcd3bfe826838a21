/** Optional values: a JavaScript property that may be absent (`undefined`). */
module Wrappers {

  datatype Option<+T> = None | Some(value: T)

  /** `o ?? d`: the value when present, the default otherwise. */
  function GetOr<T>(o: Option<T>, d: T): T
  {
    match o
    case Some(v) => v
    case None => d
  }

  /** `xs ?? []`: an absent list reads as the empty list. */
  function OrEmpty<T>(o: Option<seq<T>>): seq<T>
  {
    GetOr(o, [])
  }
}
