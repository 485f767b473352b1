/** migrate_env_configuration itself: one transaction, then two file replacements. */
module MigrationRun {
  import opened Outcomes
  import opened EnvFile
  import opened PoolMigration
  import opened ConfigMigration

  class Deployment {
    var rows: Rows
    var secrets: File
    var env: File

    ghost function State(): World
      reads this
    {
      World(rows, secrets, env)
    }

    constructor (w: World)
      ensures State() == w
    {
      rows, secrets, env := w.rows, w.secrets, w.env;
    }

    /**
     Runs until done or until `steps` durable steps have been made: the commit, the replacement of the secrets
     file, the replacement of the env file.  A dry run and a refused one change nothing.
     */
    method Migrate(c: Catalog, os: map<string, string>, apply: bool, trim: bool, steps: nat)
      returns (outcome: Result<World, MigrationError>)
      requires Ready(State())
      modifies this
      ensures outcome == PlanOf(c, old(State()), os, trim)
      ensures State() == if apply && outcome.Success? then After(old(State()), outcome.value, steps) else old(State())
    {
      var start := World(rows, secrets, env);
      var problem := Problem(c, start, os);
      if problem.Some? {
        return Failure(problem.value);
      }
      var effective := Effective(start, os);
      var target := Target(c, start, os, trim);
      outcome := Success(target);
      if !apply || steps == 0 {
        return;
      }
      Commit(c, effective);
      if steps == 1 {
        return;
      }
      if target.secrets != secrets {
        secrets := target.secrets;
      }
      if steps == 2 {
        return;
      }
      if target.env != env {
        env := target.env;
      }
    }

    /** The body of the transaction. */
    method Commit(c: Catalog, effective: Values)
      requires Candidates(c, effective).Some?
      modifies this`rows
      ensures rows == TargetRows(c, old(rows), effective)
    {
      var storage := StorageRows(rows);
      var transaction := Insert(rows, Additions(c, Candidates(c, effective).value, rows));
      rows := Delete(transaction, storage);
    }
  }

  /** One plain insert at a time: none of them meets an existing row. */
  method Insert(rows: Rows, additions: Rows) returns (result: Rows)
    requires rows.Keys !! additions.Keys
    ensures result == rows + additions
  {
    result := rows;
    var todo := additions.Keys;
    while todo != {}
      invariant todo <= additions.Keys && result.Keys == rows.Keys + (additions.Keys - todo)
      invariant forall id :: id in result ==> result[id] == if id in additions then additions[id] else rows[id]
    {
      var id :| id in todo;
      assert id !in result;
      result, todo := result[id := additions[id]], todo - {id};
    }
  }

  method Delete(rows: Rows, deleted: set<RowId>) returns (result: Rows)
    ensures result == rows - deleted
  {
    result := rows;
    var todo := deleted;
    while todo != {}
      invariant todo <= deleted && result.Keys == rows.Keys - (deleted - todo)
      invariant forall id :: id in result ==> result[id] == rows[id]
    {
      var id :| id in todo;
      result, todo := result - {id}, todo - {id};
    }
  }
}
