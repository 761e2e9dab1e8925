/** One connection to a database file, as a value, and the two retrying
    helpers `execute_query` and `executemany_query` as functions of it.

    `committed` is what the file holds; `working` is what the connection sees,
    its open transaction included. `contention` says, attempt by attempt,
    whether the database is locked by another writer when the helper tries;
    past its end nothing is locked. A lock, like any sqlite3.OperationalError,
    makes the helper roll back and call itself again with the same arguments.
    A missing table or column fails the same way on every attempt, so the
    helper never returns: the outcome `Diverges` stands for that endless
    retrying. */
module Transactions {
  import opened Wrappers
  import opened Sql
  import QueryText

  datatype Conn = Conn(committed: Db, working: Db, contention: seq<bool>)

  /** A statement as the helpers receive it: its text, and what it does. */
  datatype Query = Query(text: string, op: Op)

  /** How a helper call ends: it returns (with execute_query's result), it
      raises an error it does not catch, or it retries forever. */
  datatype Outcome = Returned(rowId: Option<nat>) | Raised(error: ExecError) | Diverges

  /** connection.commit(): the open transaction reaches the file. */
  function Commit(c: Conn): Conn {
    c.(committed := c.working)
  }

  /** connection.rollback(): the open transaction is dropped. */
  function Rollback(c: Conn): Conn {
    c.(working := c.committed)
  }

  /** The database is locked for the coming attempt. */
  predicate LockedNow(c: Conn) {
    c.contention != [] && c.contention[0]
  }

  /** One attempt has been made. */
  function Draw(c: Conn): Conn {
    c.(contention := if c.contention == [] then [] else c.contention[1..])
  }

  /** `if params:` — a tuple runs with its values, None and () run the
      statement with no values at all. */
  function Args(params: Option<seq<Val>>): seq<Val> {
    if params.Some? && params.value != [] then params.value else []
  }

  /** A retried call's own result is dropped: the caller gets None. */
  function Retried(r: (Conn, Outcome)): (Conn, Outcome) {
    (r.0, if r.1.Returned? then Returned(None) else r.1)
  }

  /** execute_query(connection, query, params). */
  function ExecuteQuery(c: Conn, q: Query, params: Option<seq<Val>>): (r: (Conn, Outcome))
    ensures r.1.Returned? && r.1.rowId.Some? ==> QueryText.IsInsert(q.text)
    ensures r.1.Returned? ==> r.0.committed == r.0.working
    decreases |c.contention|, if c.working == c.committed then 0 else 1
  {
    if LockedNow(c) then
      Retried(ExecuteQuery(Rollback(Draw(c)), q, params))
    else
      var c1 := Draw(c);
      match Apply(c1.working, q.op, Args(params))
      case Ok(d) =>
        (Commit(c1.(working := d.db)), Returned(if QueryText.IsInsert(q.text) then d.rowId else None))
      case Err(e) =>
        if !IsOperational(e) then (c1, Raised(e))
        else if c1.working == c1.committed then (c1, Diverges)
        else Retried(ExecuteQuery(Rollback(c1), q, params))
  }

  /** executemany_query(connection, query, params). */
  function ExecuteMany(c: Conn, q: Query, argsList: seq<seq<Val>>): (r: (Conn, Outcome))
    ensures r.1.Returned? ==> r.1 == Returned(None) && r.0.committed == r.0.working
    decreases |c.contention|, if c.working == c.committed then 0 else 1
  {
    if LockedNow(c) then
      ExecuteMany(Rollback(Draw(c)), q, argsList)
    else
      var c1 := Draw(c);
      match ApplyMany(c1.working, q.op, argsList)
      case Applied(db) => (Commit(c1.(working := db)), Returned(None))
      case Halted(e, partial) =>
        if !IsOperational(e) then (c1.(working := partial), Raised(e))
        else if c1.working == c1.committed then (c1, Diverges)
        else ExecuteMany(Rollback(c1), q, argsList)
  }

  /** A bare cursor.execute: one attempt, no commit, no retry. A lock is an
      OperationalError the caller sees; a successful statement stays in the
      open transaction. */
  function CursorExecute(c: Conn, op: Op, args: seq<Val>): (r: (Conn, Result<Done, ExecError>))
    ensures r.0.committed == c.committed
    ensures r.1.Err? ==> r.0.working == c.working
    ensures r.1.Ok? ==> !LockedNow(c) && r.1 == Apply(c.working, op, args) && r.0.working == r.1.value.db
    ensures LockedNow(c) ==> r.1 == Err(Locked)
    ensures r.0.contention == Draw(c).contention
  {
    var c1 := Draw(c);
    if LockedNow(c) then (c1, Err(Locked))
    else
      match Apply(c1.working, op, args)
      case Ok(d) => (c1.(working := d.db), Ok(d))
      case Err(e) => (c1, Err(e))
  }

  /** How many attempts in a row will find the database locked. */
  function LeadingLocks(s: seq<bool>): (k: nat)
    ensures k <= |s| && forall i :: 0 <= i < k ==> s[i]
    ensures k < |s| ==> !s[k]
  {
    if s != [] && s[0] then 1 + LeadingLocks(s[1..]) else 0
  }

  /** The oracle after `n` attempts. */
  function Drop(s: seq<bool>, n: nat): seq<bool> {
    if n >= |s| then [] else s[n..]
  }

  /** The connection as the first unlocked attempt finds it: rolled back if
      any attempt was locked before it. */
  function FirstFree(c: Conn): (d: Conn)
    ensures !LockedNow(d)
  {
    var k := LeadingLocks(c.contention);
    var start := if k == 0 then c else Rollback(c);
    start.(contention := c.contention[k..])
  }

  /** Closed form of the lock retries of execute_query: the call behaves as
      its first unlocked attempt on the rolled-back connection, except that a
      retried call returns None. */
  lemma {:induction false} ExecuteQueryAfterLocks(c: Conn, q: Query, params: Option<seq<Val>>)
    ensures var r := ExecuteQuery(FirstFree(c), q, params);
            ExecuteQuery(c, q, params) == if LeadingLocks(c.contention) == 0 then r else Retried(r)
    decreases |c.contention|
  {
    if LockedNow(c) {
      var c' := Rollback(Draw(c));
      ExecuteQueryAfterLocks(c', q, params);
      assert c.contention[1..][LeadingLocks(c'.contention)..] == c.contention[LeadingLocks(c.contention)..];
      assert FirstFree(c') == FirstFree(c);
    } else {
      assert c.contention[0..] == c.contention;
    }
  }

  /** The same for executemany_query. */
  lemma {:induction false} ExecuteManyAfterLocks(c: Conn, q: Query, argsList: seq<seq<Val>>)
    ensures ExecuteMany(c, q, argsList) == ExecuteMany(FirstFree(c), q, argsList)
    decreases |c.contention|
  {
    if LockedNow(c) {
      var c' := Rollback(Draw(c));
      ExecuteManyAfterLocks(c', q, argsList);
      assert c.contention[1..][LeadingLocks(c'.contention)..] == c.contention[LeadingLocks(c.contention)..];
      assert FirstFree(c') == FirstFree(c);
    } else {
      assert c.contention[0..] == c.contention;
    }
  }

  /** The state a first unlocked attempt starts from. */
  function AttemptBase(c: Conn): Db {
    if LeadingLocks(c.contention) == 0 then c.working else c.committed
  }

  /** On success execute_query commits: the file holds the statement's effect
      on the state the attempt started from. It returns the new row id exactly
      when the text passes the insert test and no attempt was locked. It made
      exactly one attempt more than the number of locked ones. */
  lemma {:induction false} ExecuteQuerySucceeds(c: Conn, q: Query, params: Option<seq<Val>>)
    requires Apply(AttemptBase(c), q.op, Args(params)).Ok?
    ensures var d := Apply(AttemptBase(c), q.op, Args(params)).value;
            var k := LeadingLocks(c.contention);
            && ExecuteQuery(c, q, params).0 == Conn(d.db, d.db, Drop(c.contention, k + 1))
            && ExecuteQuery(c, q, params).1
                 == Returned(if QueryText.IsInsert(q.text) && k == 0 then d.rowId else None)
  {
    ExecuteQueryAfterLocks(c, q, params);
    FirstAttempt(c);
  }

  /** The first unlocked attempt starts from AttemptBase, leaves the file as
      it was, and has used up one draw more than the locked ones. */
  lemma FirstAttempt(c: Conn)
    ensures var c1 := Draw(FirstFree(c));
            && c1.working == AttemptBase(c)
            && c1.committed == c.committed
            && c1.contention == Drop(c.contention, LeadingLocks(c.contention) + 1)
  {
    var k := LeadingLocks(c.contention);
    if k + 1 <= |c.contention| {
      assert c.contention[k..][1..] == c.contention[k + 1..];
    }
  }

  /** A statement that fails with an error other than OperationalError (a
      UNIQUE violation, a wrong number of bindings) is not retried: it raises
      after one unlocked attempt, and the file is unchanged. */
  lemma ExecuteQueryRaises(c: Conn, q: Query, params: Option<seq<Val>>)
    requires Apply(AttemptBase(c), q.op, Args(params)).Err?
    requires !IsOperational(Apply(AttemptBase(c), q.op, Args(params)).error)
    ensures var r := ExecuteQuery(c, q, params);
            && r.1 == Raised(Apply(AttemptBase(c), q.op, Args(params)).error)
            && r.0.committed == c.committed
            && r.0.working == AttemptBase(c)
            && r.0.contention == Drop(c.contention, LeadingLocks(c.contention) + 1)
  {
    ExecuteQueryAfterLocks(c, q, params);
    FirstAttempt(c);
  }

  /** A missing table or column is an OperationalError that no retry can
      cure: with nothing pending, execute_query never returns, whatever the
      locks. The retries have no bound, and nothing reaches the file. */
  lemma ExecuteQueryDiverges(c: Conn, q: Query, params: Option<seq<Val>>)
    requires c.working == c.committed && Prepare(c.committed, q.op).Some?
    ensures var r := ExecuteQuery(c, q, params);
            r.1 == Diverges && r.0.committed == r.0.working == c.committed
  {
    ExecuteQueryAfterLocks(c, q, params);
    FirstAttempt(c);
  }

  /** The call returns only if some attempt is unlocked, and every locked
      attempt before it leaves no trace: for any number of locks, the file
      ends as if the first attempt had been the unlocked one. */
  lemma {:induction false} LocksLeaveNoTrace(c: Conn, q: Query, params: Option<seq<Val>>, n: nat)
    requires c.working == c.committed
    ensures var locked := c.(contention := seq(n, _ => true) + c.contention);
            && LeadingLocks(locked.contention) == n + LeadingLocks(c.contention)
            && ExecuteQuery(locked, q, params).0 == ExecuteQuery(c, q, params).0
    decreases n
  {
    var locked := c.(contention := seq(n, _ => true) + c.contention);
    if n > 0 {
      var rest := c.(contention := seq(n - 1, _ => true) + c.contention);
      assert locked.contention[1..] == rest.contention;
      assert Rollback(Draw(locked)) == rest;
      LocksLeaveNoTrace(c, q, params, n - 1);
    } else {
      assert locked == c;
    }
  }

  /** None and () as params are the same call: the statement runs without
      values, so one with placeholders fails with a binding error. */
  lemma FalsyParams(c: Conn, q: Query)
    requires Prepare(AttemptBase(c), q.op) == None && Placeholders(q.op) > 0
    ensures ExecuteQuery(c, q, None) == ExecuteQuery(c, q, Some([]))
    ensures ExecuteQuery(c, q, None).1 == Raised(BindingCount(Placeholders(q.op), 0))
  {
    ExecuteQueryRaises(c, q, None);
    ExecuteQueryRaises(c, q, Some([]));
  }

  /** executemany_query commits all its rows at once on its first unlocked
      attempt; locked attempts before it were rolled back, so each row is
      stored exactly once. */
  lemma ExecuteManySucceeds(c: Conn, q: Query, argsList: seq<seq<Val>>)
    requires ApplyMany(AttemptBase(c), q.op, argsList).Applied?
    ensures var db := ApplyMany(AttemptBase(c), q.op, argsList).db;
            var k := LeadingLocks(c.contention);
            ExecuteMany(c, q, argsList) == (Conn(db, db, Drop(c.contention, k + 1)), Returned(None))
  {
    ExecuteManyAfterLocks(c, q, argsList);
    FirstAttempt(c);
  }

  /** With a missing table or column and nothing pending, executemany_query
      never returns. */
  lemma ExecuteManyDiverges(c: Conn, q: Query, argsList: seq<seq<Val>>)
    requires c.working == c.committed && Prepare(c.committed, q.op).Some?
    ensures ExecuteMany(c, q, argsList).1 == Diverges
  {
    ExecuteManyAfterLocks(c, q, argsList);
  }
}
