/**
 * The shared mutable state the core touches: the browser's localStorage, the
 * router's navigation history and the log of requests handed to `fetch`.
 */
module Browser {
  import opened Wrappers
  import opened Http

  const AccessTokenKey := "access_token"
  const UserDataKey := "user_data"

  /** A call of the router's `navigate` (or a `<Navigate>` element). */
  datatype Navigation = Navigation(path: string, replace: bool, message: Option<string>)

  class Window {
    /** localStorage: key to stored string. */
    var storage: map<string, string>
    /** Every navigation performed, oldest first. */
    var history: seq<Navigation>
    /** Every request handed to `fetch`, oldest first. */
    var sent: seq<Request>

    constructor(stored: map<string, string>)
      ensures storage == stored && history == [] && sent == []
    {
      storage := stored;
      history := [];
      sent := [];
    }

    /** `localStorage.getItem(key)`: null when the key is absent. */
    function GetItem(key: string): (v: Option<string>)
      reads this
      ensures v.Some? <==> key in storage
      ensures v.Some? ==> v.value == storage[key]
    {
      if key in storage then Some(storage[key]) else None
    }

    /** `localStorage.removeItem(key)`. */
    method RemoveItem(key: string)
      modifies this
      ensures storage == old(storage) - {key}
      ensures history == old(history) && sent == old(sent)
    {
      storage := storage - {key};
    }

    /** `navigate(path, {replace, state: {message}})`. */
    method Navigate(n: Navigation)
      modifies this
      ensures history == old(history) + [n]
      ensures storage == old(storage) && sent == old(sent)
    {
      history := history + [n];
    }

    /** Records that the given requests were handed to `fetch`, in order. */
    method Send(requests: seq<Request>)
      modifies this
      ensures sent == old(sent) + requests
      ensures storage == old(storage) && history == old(history)
    {
      sent := sent + requests;
    }
  }
}
