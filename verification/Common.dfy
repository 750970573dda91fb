/** Types shared by the models of the login service. */
module Common {

  datatype Option<+T> = None | Some(value: T)
  {
    function GetOr(fallback: T): T { if Some? then value else fallback }
  }

  datatype Result<+T, +E> = Ok(value: T) | Err(error: E)

  /** The two realms of the service: a session belongs to exactly one of them. */
  datatype Realm = Admin | Mumin

  function Elems<T>(s: seq<T>): set<T>
  {
    set x | x in s
  }
}
