/** Optional values: JavaScript's null/undefined and Go's nil, made explicit. */
module Wrappers {

  datatype Option<+T> = None | Some(value: T) {

    /** The value, or `default` when there is none (JavaScript's `x || default`). */
    function GetOr(default: T): T
    {
      match this
      case Some(v) => v
      case None => default
    }
  }

  /** A JavaScript string value that is truthy: present and non-empty. */
  predicate Truthy(o: Option<string>)
  {
    o.Some? && o.value != ""
  }

  /** What a request to the server comes back with: its value, or the
      failure with the server's message. */
  datatype Reply<T> = Answered(value: T) | Failed(message: string)
}
