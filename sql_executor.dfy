/** What the rest of the program sees of
    src/MultiServerSqlExecutor.Core/Services/SqlExecutor.cs: running the
    query on every server and collecting the tables into a dictionary keyed
    by server name. The network and the concurrency are not modelled; each
    server's outcome is given by a function. */
module SqlExecutor {
  import opened Wrappers
  import opened Models
  import opened DataTables
  import opened Reconciliation

  /** What one server returns for the query: its table, or None when the
      connection or the query fails. */
  type Runner = ServerConnection -> Option<Table>

  /** Every table a server returns is well formed. */
  ghost predicate RunsWellFormed(run: Runner)
  {
    forall s :: run(s).Some? ==> WellFormed(run(s).value)
  }

  /** ExecuteOnAllAsync: the results keyed by server name, in server order;
      None when any server fails (Task.WhenAll fails as a whole) or when two
      servers share a name exactly (ToDictionary throws). */
  function ExecuteOnAll(servers: seq<ServerConnection>, run: Runner): (r: Option<seq<ServerResult>>)
    requires RunsWellFormed(run)
    ensures r.Some? ==> |r.value| == |servers| && AllWellFormed(r.value)
    ensures r.Some? ==> forall i :: 0 <= i < |servers| ==>
      r.value[i].server == servers[i].name && Some(r.value[i].table) == run(servers[i])
    ensures r.None? <==>
      (exists i :: 0 <= i < |servers| && run(servers[i]).None?)
      || exists i, j :: 0 <= i < j < |servers| && servers[i].name == servers[j].name
  {
    if (forall i :: 0 <= i < |servers| ==> run(servers[i]).Some?)
       && (forall i, j :: 0 <= i < j < |servers| ==> servers[i].name != servers[j].name)
    then Some(seq(|servers|, i requires 0 <= i < |servers| => ServerResult(servers[i].name, run(servers[i]).value)))
    else None
  }
}
