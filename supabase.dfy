/**
 * What the loaders see of Supabase: the credential check and the client
 * construction of `get_supabase_client`, the three remote calls they make,
 * and the store as an oracle that answers each call, given every call made
 * before it, with success or an exception. The network and the client
 * library are not modelled; the oracle, and the given outcome of
 * `create_client`, stand for them.
 */
module Supabase {
  import opened Records

  /** The two settings `os.getenv` returns: absent, or a string. */
  datatype Option<T> = None | Some(value: T)

  /**
   * What the client setup meets: the two settings, and how
   * `create_client(url, key)` ends when it is reached (it returns a client,
   * or raises, for instance on a malformed URL).
   */
  datatype Env = Env(url: Option<string>, key: Option<string>, connect: Reply)

  /** Python's `not v` for an optional string: absent or empty. */
  predicate Falsy(v: Option<string>) {
    v.None? || v.value == ""
  }

  /** The client handle: the URL and key it was built from. */
  datatype Client = Client(url: string, key: string)

  /** The exceptions that reach the loaders' handlers. */
  datatype Error =
    | MissingCredentials        // the ValueError of get_supabase_client
    | Remote(cause: string)     // an exception raised by create_client or execute()

  datatype Result<T> = Ok(value: T) | Err(error: Error)

  /**
   * `get_supabase_client()`: raises the `ValueError` when the URL or the key
   * is absent or empty; otherwise `create_client` is reached with exactly
   * those two values, and its exception, if it raises, propagates.
   */
  function GetSupabaseClient(env: Env): (r: Result<Client>)
    ensures r.Err? <==> Falsy(env.url) || Falsy(env.key) || env.connect.Raised?
    ensures (r.Err? && r.error == MissingCredentials) <==> Falsy(env.url) || Falsy(env.key)
    ensures r.Err? && r.error.Remote? ==> env.connect.Raised? && r.error.cause == env.connect.cause
    ensures r.Ok? ==> r.value.url == env.url.value && r.value.key == env.key.value &&
                      r.value.url != "" && r.value.key != ""
  {
    if Falsy(env.url) || Falsy(env.key) then Err(MissingCredentials)
    else if env.connect.Raised? then Err(Remote(env.connect.cause))
    else Ok(Client(env.url.value, env.key.value))
  }

  /** A remote call, with what it sends. */
  datatype Call =
    | Rpc(procedure: string)                         // supabase.rpc(name, {...}).execute()
    | Insert(table: string, records: seq<Row>)       // .table(t).insert(records).execute()
    | Upsert(table: string, records: seq<Row>)       // .table(t).upsert(records).execute()

  /** How a call ended: it returned, or it raised an exception with a message. */
  datatype Reply = Done | Raised(cause: string)

  /**
   * The remote store: its answer to a call, given all the calls made before
   * it in the run. Any behaviour of a remote table (duplicate keys after a
   * partial run, transient errors, a missing RPC function) is one such
   * function.
   */
  type Store = (seq<Call>, Call) -> Reply
}
