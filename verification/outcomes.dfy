/** Optional values and JavaScript-style failures (an `Error` carrying a message). */
module Outcomes {

  /** A value that may be missing, the way a lookup may yield `null`. */
  datatype Option<+T> = None | Some(value: T)

  /** Either a value or a thrown `Error` with its `message`. */
  datatype Result<+T> = Ok(value: T) | Err(message: string)

  /** A `catch (error) { throw new Error(message) }` block: every failure of `r`
      leaves with the same fixed `message`, whatever it carried before. */
  function Rewrap<T>(r: Result<T>, message: string): (w: Result<T>)
    ensures r.Ok? ==> w == r
    ensures r.Err? ==> w == Err(message)
  {
    match r
    case Ok(_) => r
    case Err(_) => Err(message)
  }
}
