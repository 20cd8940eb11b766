/**
 * The HTTP-facing collaborators the handlers touch: the per-request session
 * of martini-contrib/sessions, and what a handler writes as its response.
 */
module Web {
  import opened Wrappers

  newtype Int64 = x: int | -0x8000_0000_0000_0000 <= x < 0x8000_0000_0000_0000

  /** A value stored in a session, by the dynamic type a Go type assertion tests. */
  datatype Value = GoInt(i: Int64) | GoInt64(n: Int64) | GoString(s: string) | OtherValue

  /** sessions.Session: a mutable map from keys to values. */
  class Session {
    var values: map<string, Value>

    constructor (values: map<string, Value>)
      ensures this.values == values
    {
      this.values := values;
    }

    /** session.Get(key); None stands for Go's nil when the key is absent. */
    function Get(key: string): Option<Value>
      reads this
    {
      if key in values then Some(values[key]) else None
    }

    method Set(key: string, v: Value)
      modifies this
      ensures values == old(values)[key := v]
    {
      values := values[key := v];
    }

    method Delete(key: string)
      modifies this
      ensures values == old(values) - {key}
    {
      values := values - {key};
    }
  }

  /** What a handler wrote: nothing, a JSON body or a rendered page with a status, or a redirect. */
  datatype Response = Untouched | Json(code: int) | Html(code: int) | Redirect(location: string, code: int)
}
