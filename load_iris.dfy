/**
 * load_iris.py: provisioning the `iris_data` table through an RPC whose
 * failure is only reported, loading the staged rows with null cleaning and
 * the shared batch loop, and the script's entry point, which runs the two in
 * that order.
 */
module IrisLoad {
  import opened Records
  import opened Batching
  import opened Supabase
  import opened Log
  import opened Loader

  const DefaultTable := "iris_data"
  const ExecuteSql := "execute_sql"

  /**
   * `create_table_if_not_exists()`: the client is built first and outside
   * the `try`, so missing credentials, or a `create_client` that raises,
   * raise to the caller before anything is printed or called. Otherwise
   * exactly one RPC is made, and whatever it does the function returns
   * normally: the RPC's exception is printed and swallowed.
   */
  function CreateTableIfNotExists(store: Store, history: seq<Call>, env: Env): (r: Result<seq<Event>>)
    ensures r.Err? <==> Falsy(env.url) || Falsy(env.key) || env.connect.Raised?
    ensures r.Err? ==> (r.error == MissingCredentials <==> Falsy(env.url) || Falsy(env.key))
    ensures r.Err? && r.error.Remote? ==> r.error.cause == env.connect.cause
    ensures r.Ok? ==>
              && |r.value| == 3
              && r.value[0] == Printed(TryingRpc)
              && r.value[1].Called? && r.value[1].call == Rpc(ExecuteSql)
              && Answered(store, history, r.value)
              && CallsOf(r.value) == [Rpc(ExecuteSql)]
              && InsertedRecords(r.value) == [] && Reported(r.value) == []
              && (r.value[1].reply.Done? ==> r.value[2] == Printed(TableReady))
              && (r.value[1].reply.Raised? ==> r.value[2] == Printed(RpcFailed(r.value[1].reply.cause)))
  {
    match GetSupabaseClient(env)
    case Err(e) => Err(e)
    case Ok(_) =>
      var rpc := Rpc(ExecuteSql);
      var reply := store(history, rpc);
      var ev := [Printed(TryingRpc), Called(rpc, reply),
                 Printed(if reply.Done? then TableReady else RpcFailed(reply.cause))];
      assert ev == [ev[0]] + ([ev[1]] + [ev[2]]);
      FiltersCons(ev[0], [ev[1]] + [ev[2]]);
      FiltersCons(ev[1], [ev[2]]);
      FiltersOfOne(ev[0]);
      FiltersOfOne(ev[1]);
      FiltersOfOne(ev[2]);
      assert ev[..1] == [ev[0]];
      assert history + CallsOf(ev[..1]) == history;
      Ok(ev)
  }

  /**
   * `load_to_supabase(staged_path, table_name)` over the staged frame `df`:
   * say where it looks, return when the file is missing, then (inside the
   * outer `try`) build the client, clean the nulls, announce the row count
   * and run the batch loop; the outer handler prints whatever escaped it.
   */
  method LoadToSupabase(store: Store, history: seq<Call>, env: Env, fileExists: bool, table: string, df: Frame)
    returns (events: seq<Event>)
    ensures events == LoadToTable(store, history, env, fileExists, table, CleanNulls(df).rows)
    ensures !fileExists ==> events == [Printed(Searching), Printed(NotFound)]
    ensures !fileExists || Falsy(env.url) || Falsy(env.key) || env.connect.Raised? ==> CallsOf(events) == []
  {
    LoadGuards(store, history, env, fileExists, table, CleanNulls(df).rows);
    events := [Printed(Searching)];
    if !fileExists {
      events := events + [Printed(NotFound)];
      return;
    }
    var client := GetSupabaseClient(env);
    if client.Err? {
      events := events + [Printed(LoadError(client.error))];
      return;
    }
    var cleaned := CleanNulls(df);
    var records := cleaned.rows;
    events := events + [Printed(Loading(|records|))];
    var run := RunBatches(store, history, table, records);
    events := events + run.events;
    if run.outcome.Completed? {
      events := events + [Printed(Finished)];
    } else {
      events := events + [Printed(LoadError(Remote(run.outcome.cause)))];
    }
  }

  /**
   * The script's entry point: create the table, then load the staged iris
   * file into `iris_data`. Missing credentials, or a client construction
   * that raises, make the first step raise, and the script stops there with
   * nothing printed; otherwise the load starts with the store having seen
   * the one RPC.
   */
  method RunScript(store: Store, env: Env, fileExists: bool, df: Frame) returns (r: Result<seq<Event>>)
    ensures r.Err? <==> Falsy(env.url) || Falsy(env.key) || env.connect.Raised?
    ensures r.Err? ==> (r.error == MissingCredentials <==> Falsy(env.url) || Falsy(env.key))
    ensures r.Err? && r.error.Remote? ==> r.error.cause == env.connect.cause
    ensures r.Ok? ==>
              r.value == CreateTableIfNotExists(store, [], env).value +
                         LoadToTable(store, [Rpc(ExecuteSql)], env, fileExists, DefaultTable, CleanNulls(df).rows)
  {
    var created := CreateTableIfNotExists(store, [], env);
    if created.Err? {
      return Err(created.error);
    }
    var loaded := LoadToSupabase(store, CallsOf(created.value), env, fileExists, DefaultTable, df);
    r := Ok(created.value + loaded);
  }

  /**
   * With credentials, the script's run is the table creation followed by a
   * full load: "FINISHED" is printed exactly when the file is there and every
   * batch was written, whatever the RPC did, and then the inserts sent are
   * the batches of the cleaned rows.
   */
  lemma ScriptFinished(store: Store, env: Env, fileExists: bool, df: Frame)
    requires GetSupabaseClient(env).Ok?
    ensures var ev := CreateTableIfNotExists(store, [], env).value +
                      LoadToTable(store, [Rpc(ExecuteSql)], env, fileExists, DefaultTable, CleanNulls(df).rows);
            var run := RunFrom(store, [Rpc(ExecuteSql)], DefaultTable, CleanNulls(df).rows, 0);
            && (Printed(Finished) in ev <==> fileExists && run.outcome.Completed?)
            && (Printed(Finished) in ev ==> InsertedRecords(ev) == Batches(CleanNulls(df).rows))
  {
    var created := CreateTableIfNotExists(store, [], env).value;
    var load := LoadToTable(store, [Rpc(ExecuteSql)], env, fileExists, DefaultTable, CleanNulls(df).rows);
    LoadFinished(store, [Rpc(ExecuteSql)], env, fileExists, DefaultTable, CleanNulls(df).rows);
    InsertedRecordsAppend(created, load);
    assert Printed(Finished) !in created;
  }
}
