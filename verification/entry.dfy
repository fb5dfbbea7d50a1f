/**
 The entry point `load_data` (main.py:89-120) with its external calls as
 parameters: the environment is a record of four optional strings, the
 warehouse query is a function from project and query text to rows (nothing
 when the query fails), and commit outcomes are indexed by commit number.
 */
module Entry {
  import opened Wrappers
  import opened Transfer

  /** The four environment variables the function reads (main.py:100-103). */
  datatype Env = Env(
    projectId: Option<string>,
    query: Option<string>,
    collection: Option<string>,
    idField: Option<string>)

  /** The warehouse: the rows a query returns, or nothing when it fails. */
  type Warehouse = (string, string) -> Option<seq<Row>>

  /** How a run ends. `Pushed` carries the commits attempted; when the last of
      them raised, the exception leaves `load_data` as well. */
  datatype RunResult =
    | MissingConfig
    | NoData
    | Pushed(commits: seq<Commit>)

  /** A variable counts as set when it is present and not empty. */
  predicate IsSet(v: Option<string>) {
    v.Some? && v.value != ""
  }

  predicate Configured(env: Env) {
    IsSet(env.projectId) && IsSet(env.query) && IsSet(env.collection) && IsSet(env.idField)
  }

  /** `load_data`: abort when any variable is unset (main.py:106-108), abort
      when the query fails (main.py:114-117), otherwise push the rows. */
  function LoadData(env: Env, warehouse: Warehouse, outcome: CommitOutcomes): (r: RunResult)
    ensures r.MissingConfig? <==> !Configured(env)
    ensures r.NoData? <==> Configured(env) && warehouse(env.projectId.value, env.query.value).None?
    ensures r.Pushed? ==>
              && Configured(env)
              && warehouse(env.projectId.value, env.query.value).Some?
              && r.commits == Push(warehouse(env.projectId.value, env.query.value).value,
                                   env.collection.value, env.idField.value, outcome)
    ensures r.Pushed? ==>
              r.commits == Attempted(Committed(StagedWrites(warehouse(env.projectId.value, env.query.value).value,
                                                            env.collection.value, env.idField.value),
                                               outcome))
  {
    if !Configured(env) then MissingConfig
    else
      match warehouse(env.projectId.value, env.query.value)
      case None => NoData
      case Some(rows) =>
        PushCommitsChunks(rows, env.collection.value, env.idField.value, outcome);
        Pushed(Push(rows, env.collection.value, env.idField.value, outcome))
  }

  /** With a variable unset, the result is the same whatever the warehouse
      would return and whatever the commits would do: no query runs and no
      write is staged. */
  lemma MissingConfigRunsNothing(env: Env, warehouse1: Warehouse, warehouse2: Warehouse,
                                 outcome1: CommitOutcomes, outcome2: CommitOutcomes)
    requires !Configured(env)
    ensures LoadData(env, warehouse1, outcome1) == LoadData(env, warehouse2, outcome2) == MissingConfig
  {
  }
}
