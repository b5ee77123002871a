/** Optional values: JavaScript's `undefined`/`null` on one side, a present value on the other. */
module Options {

  datatype Option<+T> = None | Some(value: T) {

    /** The `??` operator: the value if present, otherwise the default. */
    function GetOr(default: T): T {
      match this
      case Some(v) => v
      case None => default
    }
  }

  /** The `||` operator on an optional string: a missing or empty string falls back to the default. */
  function OrString(s: Option<string>, default: string): (r: string)
    ensures r == default || (s.Some? && r == s.value && s.value != "")
    ensures s.Some? && s.value != "" ==> r == s.value
  {
    match s
    case Some(v) => if v != "" then v else default
    case None => default
  }
}
