/** A connection to a database file, updated in place: the helpers of the
    persistence module as methods, each proved to do what the corresponding
    function of `Transactions` says. */
module Store {
  import opened Wrappers
  import opened Sql
  import QueryText
  import Schema
  import T = Transactions

  class Connection {
    /** What the database file holds. */
    var committed: Db
    /** What this connection sees: the file plus its open transaction. */
    var working: Db
    /** Whether each coming attempt of a retrying helper finds the file locked. */
    var contention: seq<bool>

    function State(): T.Conn
      reads this
    {
      T.Conn(committed, working, contention)
    }

    /** sqlite3.connect(path): nothing is pending on a new connection. */
    constructor (file: Db, locks: seq<bool>)
      ensures committed == file && working == file && contention == locks
    {
      committed := file;
      working := file;
      contention := locks;
    }

    /** connection.commit() */
    method Commit()
      modifies this
      ensures State() == T.Commit(old(State()))
    {
      committed := working;
    }

    /** connection.rollback() */
    method Rollback()
      modifies this
      ensures State() == T.Rollback(old(State()))
    {
      working := committed;
    }

    /** table_exists: asks the file, through a connection of its own, so it
        sees what is committed and none of this connection's pending writes. */
    method TableExists() returns (exists_: bool)
      ensures exists_ == Schema.TableExists(committed)
    {
      exists_ := "records" in committed;
    }

    /** create_schema: both CREATE TABLE IF NOT EXISTS statements and a commit,
        run through a connection of its own while this one has nothing pending. */
    method CreateSchema(layout: Schema.Layout)
      requires working == committed
      modifies this
      ensures committed == working == Schema.CreateSchema(old(committed), layout)
      ensures contention == old(contention)
    {
      committed := Schema.CreateSchema(committed, layout);
      working := committed;
    }

    /** record_exists: true exactly when some records row carries the name;
        fails like SQLite when the table or column is missing. Changes nothing. */
    method RecordExists(name: string) returns (r: Result<bool, ExecError>)
      ensures r.Ok? <==> "records" in working && HasColumn(working["records"], "file_name")
      ensures r.Ok? ==> (r.value <==> Named(working, name))
      ensures r.Err? ==> IsOperational(r.error)
      ensures r == Sql.RecordExists(working, name)
    {
      r := Sql.RecordExists(working, name);
      if r.Ok? {
        RecordExistsIffNamed(working, name);
      }
    }

    /** cursor.execute(statement, args) on this connection, outside the helpers. */
    method CursorExecute(op: Op, args: seq<Val>) returns (r: Result<Done, ExecError>)
      modifies this
      ensures (State(), r) == T.CursorExecute(old(State()), op, args)
    {
      var locked := contention != [] && contention[0];
      if contention != [] {
        contention := contention[1..];
      }
      if locked {
        return Err(Locked);
      }
      r := Apply(working, op, args);
      if r.Ok? {
        working := r.value.db;
      }
    }

    /** execute_query(self, query, params): execute, commit, and report the
        new row id for an insert; on an OperationalError roll back and call
        itself again, dropping the inner call's result. */
    method ExecuteQuery(q: T.Query, params: Option<seq<Val>>) returns (outcome: T.Outcome)
      modifies this
      ensures (State(), outcome) == T.ExecuteQuery(old(State()), q, params)
      decreases |contention|, if working == committed then 0 else 1
    {
      var locked := contention != [] && contention[0];
      if contention != [] {
        contention := contention[1..];
      }
      if locked {
        Rollback();
        outcome := ExecuteQuery(q, params);
        if outcome.Returned? {
          outcome := T.Returned(None);
        }
        return;
      }
      match Apply(working, q.op, T.Args(params))
      case Ok(d) =>
        working := d.db;
        Commit();
        outcome := T.Returned(if QueryText.IsInsert(q.text) then d.rowId else None);
      case Err(e) =>
        if !IsOperational(e) {
          outcome := T.Raised(e);
        } else if working == committed {
          outcome := T.Diverges;
        } else {
          Rollback();
          outcome := ExecuteQuery(q, params);
          if outcome.Returned? {
            outcome := T.Returned(None);
          }
        }
    }

    /** executemany_query(self, query, params): run the statement once per
        tuple and commit; on an OperationalError roll back and call itself again. */
    method ExecuteManyQuery(q: T.Query, argsList: seq<seq<Val>>) returns (outcome: T.Outcome)
      modifies this
      ensures (State(), outcome) == T.ExecuteMany(old(State()), q, argsList)
      decreases |contention|, if working == committed then 0 else 1
    {
      var locked := contention != [] && contention[0];
      if contention != [] {
        contention := contention[1..];
      }
      if locked {
        Rollback();
        outcome := ExecuteManyQuery(q, argsList);
        return;
      }
      match ApplyMany(working, q.op, argsList)
      case Applied(db) =>
        working := db;
        Commit();
        outcome := T.Returned(None);
      case Halted(e, partial) =>
        if !IsOperational(e) {
          working := partial;
          outcome := T.Raised(e);
        } else if working == committed {
          outcome := T.Diverges;
        } else {
          Rollback();
          outcome := ExecuteManyQuery(q, argsList);
        }
    }
  }
}
