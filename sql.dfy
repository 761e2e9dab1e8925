/** The relational store as values: tables of rows, the two kinds of statement
    the core hands to SQLite (an INSERT with a column list, and the UPDATE
    that marks a record as backed up), the lookups it runs, and the error
    classes SQLite raises for them. */
module Sql {
  import opened Wrappers

  /** A column value. Floats (durations, probabilities) stay opaque reals. */
  datatype Val = Null | Int(i: int) | Real(r: real) | Text(s: string)

  /** A row: its INTEGER PRIMARY KEY and the columns it carries. */
  datatype Row = Row(id: nat, cols: map<string, Val>)

  /** A column that a row does not carry reads as NULL. */
  function Get(row: Row, column: string): Val {
    if column in row.cols then row.cols[column] else Null
  }

  /** A table: its declared columns (the rowid `id` is not among them), the
      columns declared UNIQUE, and its rows in insertion order. */
  datatype Table = Table(columns: seq<string>, unique: set<string>, rows: seq<Row>)

  /** A database file: its tables by name. */
  type Db = map<string, Table>

  /** What executing a statement can raise. `Locked`, `NoSuchTable` and
      `NoSuchColumn` are sqlite3.OperationalError; `UniqueViolation` is an
      IntegrityError; `BindingCount` a ProgrammingError. */
  datatype ExecError =
    | Locked
    | NoSuchTable(table: string)
    | NoSuchColumn
    | UniqueViolation
    | BindingCount(expected: nat, supplied: nat)

  /** The class of errors the retry wrappers catch. */
  predicate IsOperational(e: ExecError) {
    e.Locked? || e.NoSuchTable? || e.NoSuchColumn?
  }

  /** The statements the core executes through a cursor. */
  datatype Op =
    | Insert(table: string, columns: seq<string>)
      // update records set backup = 'yes', backup_path = ? where file_name = ?
    | MarkBackedUp

  /** The state after a statement and the cursor's lastrowid. */
  datatype Done = Done(db: Db, rowId: Option<nat>)

  predicate Distinct(s: seq<string>) {
    forall i, j :: 0 <= i < j < |s| ==> s[i] != s[j]
  }

  /** The named columns of an INSERT bound, in order, to its arguments. */
  function Bind(columns: seq<string>, args: seq<Val>): map<string, Val>
    decreases |columns|
  {
    if columns == [] || args == [] then map[]
    else Bind(columns[1..], args[1..])[columns[0] := args[0]]
  }

  /** Binding sets exactly the named columns. */
  lemma {:induction false} BindKeys(columns: seq<string>, args: seq<Val>)
    requires |columns| == |args|
    ensures forall c :: c in Bind(columns, args) <==> c in columns
    decreases |columns|
  {
    if columns != [] {
      BindKeys(columns[1..], args[1..]);
    }
  }

  /** A column the INSERT does not name is not set: it reads as NULL. */
  lemma {:induction false} BindOutside(columns: seq<string>, args: seq<Val>, c: string)
    requires c !in columns
    ensures c !in Bind(columns, args)
    decreases |columns|
  {
    if columns != [] && args != [] {
      assert c != columns[0];
      assert c !in columns[1..];
      BindOutside(columns[1..], args[1..], c);
    }
  }

  /** Every bound column reads back the argument at its position. */
  lemma {:induction false} BindReadsBack(columns: seq<string>, args: seq<Val>, i: nat)
    requires |columns| == |args| && Distinct(columns) && i < |columns|
    ensures columns[i] in Bind(columns, args) && Bind(columns, args)[columns[i]] == args[i]
    decreases i
  {
    if i > 0 {
      assert columns[0] != columns[i];
      assert Distinct(columns[1..]) by {
        forall a, b | 0 <= a < b < |columns[1..]| ensures columns[1..][a] != columns[1..][b] {
          assert columns[1..][a] == columns[a + 1] && columns[1..][b] == columns[b + 1];
        }
      }
      BindReadsBack(columns[1..], args[1..], i - 1);
      assert columns[1..][i - 1] == columns[i];
    }
  }

  /** The largest rowid in use, 0 for an empty table. */
  function MaxId(rows: seq<Row>): (m: nat)
    ensures forall i :: 0 <= i < |rows| ==> rows[i].id <= m
    ensures rows == [] ==> m == 0
    ensures rows != [] ==> exists i :: 0 <= i < |rows| && rows[i].id == m
  {
    if rows == [] then 0
    else
      var m := MaxId(rows[..|rows| - 1]);
      if rows[|rows| - 1].id > m then rows[|rows| - 1].id else m
  }

  /** The rowid SQLite gives a new row: one more than the largest in use. */
  function NextId(rows: seq<Row>): nat {
    MaxId(rows) + 1
  }

  /** A new row's id is fresh, and the next one follows it directly. */
  lemma NextIdFresh(rows: seq<Row>, cols: map<string, Val>)
    ensures forall i :: 0 <= i < |rows| ==> rows[i].id < NextId(rows)
    ensures NextId(rows + [Row(NextId(rows), cols)]) == NextId(rows) + 1
  {
    assert (rows + [Row(NextId(rows), cols)])[..|rows|] == rows;
  }

  /** True when the row repeats a non-NULL value of a UNIQUE column. */
  predicate Clashes(t: Table, row: Row) {
    exists i, c :: 0 <= i < |t.rows| && c in t.unique && Get(row, c) != Null && Get(t.rows[i], c) == Get(row, c)
  }

  /** What preparing a statement checks: its table and columns exist. */
  function Prepare(db: Db, op: Op): Option<ExecError> {
    match op
    case Insert(name, columns) =>
      if name !in db then Some(NoSuchTable(name))
      else if exists c :: c in columns && c !in db[name].columns then Some(NoSuchColumn)
      else None
    case MarkBackedUp =>
      if "records" !in db then Some(NoSuchTable("records"))
      else if !(HasColumn(db["records"], "file_name") && HasColumn(db["records"], "backup")
                && HasColumn(db["records"], "backup_path")) then Some(NoSuchColumn)
      else None
  }

  predicate HasColumn(t: Table, c: string) {
    c in t.columns
  }

  /** The number of `?` placeholders of a statement. */
  function Placeholders(op: Op): nat {
    match op
    case Insert(_, columns) => |columns|
    case MarkBackedUp => 2
  }

  /** The marking UPDATE applied to one row; `file_name = NULL` matches nothing. */
  function Mark(r: Row, path: Val, name: Val): Row {
    if name != Null && Get(r, "file_name") == name
    then Row(r.id, r.cols["backup" := Text("yes")]["backup_path" := path])
    else r
  }

  function MarkRows(rows: seq<Row>, path: Val, name: Val): seq<Row> {
    seq(|rows|, i requires 0 <= i < |rows| => Mark(rows[i], path, name))
  }

  /** Tables and their declared columns are the same: DML leaves the schema alone. */
  ghost predicate SameSchema(db: Db, db': Db) {
    db'.Keys == db.Keys &&
    forall n :: n in db ==> db'[n].columns == db[n].columns && db'[n].unique == db[n].unique
  }

  /** Executing a prepared statement with its bound arguments. */
  function Execute(db: Db, op: Op, args: seq<Val>): (r: Result<Done, ExecError>)
    requires Prepare(db, op) == None
    ensures r.Ok? ==> SameSchema(db, r.value.db)
    ensures r.Err? ==> !IsOperational(r.error)
  {
    if |args| != Placeholders(op) then Err(BindingCount(Placeholders(op), |args|))
    else
      match op
      case Insert(name, columns) =>
        var t := db[name];
        var row := Row(NextId(t.rows), Bind(columns, args));
        if Clashes(t, row) then Err(UniqueViolation)
        else Ok(Done(db[name := t.(rows := t.rows + [row])], Some(row.id)))
      case MarkBackedUp =>
        var t := db["records"];
        Ok(Done(db["records" := t.(rows := MarkRows(t.rows, args[0], args[1]))], None))
  }

  lemma PrepareSchemaOnly(db: Db, db': Db, op: Op)
    requires SameSchema(db, db')
    ensures Prepare(db', op) == Prepare(db, op)
  {
  }

  /** One cursor.execute: prepare, then bind and run. */
  function Apply(db: Db, op: Op, args: seq<Val>): Result<Done, ExecError> {
    match Prepare(db, op)
    case Some(e) => Err(e)
    case None => Execute(db, op, args)
  }

  /** The state after cursor.executemany: all rows applied, or the first
      error and the rows applied before it (still uncommitted). */
  datatype Batch = Applied(db: Db) | Halted(error: ExecError, partial: Db)

  /** cursor.executemany: the statement is prepared once, then run per argument tuple. */
  function ApplyMany(db: Db, op: Op, argsList: seq<seq<Val>>): Batch {
    match Prepare(db, op)
    case Some(e) => Halted(e, db)
    case None => ExecuteAll(db, op, argsList)
  }

  function ExecuteAll(db: Db, op: Op, argsList: seq<seq<Val>>): (b: Batch)
    requires Prepare(db, op) == None
    ensures b.Applied? ==> SameSchema(db, b.db)
    ensures b.Halted? ==> !IsOperational(b.error)
    decreases |argsList|
  {
    if argsList == [] then Applied(db)
    else
      match Execute(db, op, argsList[0])
      case Err(e) => Halted(e, db)
      case Ok(d) =>
        PrepareSchemaOnly(db, d.db, op);
        ExecuteAll(d.db, op, argsList[1..])
  }

  /** `select exists (select file_name from records where file_name = ?)`. */
  function RecordExists(db: Db, name: string): Result<bool, ExecError> {
    if "records" !in db then Err(NoSuchTable("records"))
    else if !HasColumn(db["records"], "file_name") then Err(NoSuchColumn)
    else Ok(AnyNamed(db["records"].rows, Text(name)))
  }

  /** The scan behind record_exists. */
  function AnyNamed(rows: seq<Row>, v: Val): (r: bool)
    ensures r <==> exists i :: 0 <= i < |rows| && Get(rows[i], "file_name") == v
  {
    if rows == [] then false
    else Get(rows[0], "file_name") == v || AnyNamed(rows[1..], v)
  }

  /** Some records row has `file_name == name`, and record_exists can see it. */
  ghost predicate Named(db: Db, name: string) {
    "records" in db && HasColumn(db["records"], "file_name") &&
    exists i :: 0 <= i < |db["records"].rows| && Get(db["records"].rows[i], "file_name") == Text(name)
  }

  /** Every table keeps its schema and its earlier rows, in order. */
  ghost predicate Extends(db: Db, db': Db) {
    SameSchema(db, db') &&
    forall n :: n in db ==> db[n].rows <= db'[n].rows
  }

  lemma ExtendsTransitive(a: Db, b: Db, c: Db)
    requires Extends(a, b) && Extends(b, c)
    ensures Extends(a, c)
  {
  }

  lemma NamedKept(db: Db, db': Db, name: string)
    requires Extends(db, db') && Named(db, name)
    ensures Named(db', name)
  {
    var rows, rows' := db["records"].rows, db'["records"].rows;
    var i :| 0 <= i < |rows| && Get(rows[i], "file_name") == Text(name);
    assert rows'[i] == rows[i];
  }

  /** record_exists answers exactly whether some row carries the name. */
  lemma RecordExistsIffNamed(db: Db, name: string)
    requires "records" in db && HasColumn(db["records"], "file_name")
    ensures RecordExists(db, name) == Ok(Named(db, name))
  {
  }

  /** The rows an INSERT adds, numbered on from `first`. */
  function NewRows(first: nat, columns: seq<string>, argsList: seq<seq<Val>>): seq<Row> {
    seq(|argsList|, k requires 0 <= k < |argsList| => Row(first + k, Bind(columns, argsList[k])))
  }

  /** A successful INSERT appends exactly one row, carrying the bound values,
      under a fresh rowid that it reports; every other table is untouched. */
  lemma {:induction false} InsertAppends(db: Db, name: string, columns: seq<string>, args: seq<Val>)
    requires Apply(db, Insert(name, columns), args).Ok?
    ensures name in db && |args| == |columns|
    ensures var d := Apply(db, Insert(name, columns), args).value;
            var rows := db[name].rows;
            && name in d.db
            && d.db[name].rows == rows + [Row(NextId(rows), Bind(columns, args))]
            && d.rowId == Some(NextId(rows))
            && (forall i :: 0 <= i < |rows| ==> rows[i].id < NextId(rows))
            && (forall n :: n in db && n != name ==> d.db[n] == db[n])
            && Extends(db, d.db)
  {
    NextIdFresh(db[name].rows, Bind(columns, args));
  }

  /** An INSERT whose UNIQUE column repeats a stored value fails with an
      IntegrityError and changes nothing. */
  lemma {:induction false} DuplicateUniqueRejected(db: Db, name: string, columns: seq<string>, args: seq<Val>, j: nat, i: nat)
    requires name in db && Prepare(db, Insert(name, columns)) == None
    requires |args| == |columns| && Distinct(columns) && j < |columns|
    requires columns[j] in db[name].unique && args[j] != Null
    requires i < |db[name].rows| && Get(db[name].rows[i], columns[j]) == args[j]
    ensures Apply(db, Insert(name, columns), args) == Err(UniqueViolation)
  {
    BindReadsBack(columns, args, j);
    var row := Row(NextId(db[name].rows), Bind(columns, args));
    assert Get(row, columns[j]) == args[j];
    assert Clashes(db[name], row);
  }

  lemma {:induction false} NewRowsCons(first: nat, columns: seq<string>, argsList: seq<seq<Val>>)
    requires argsList != []
    ensures NewRows(first, columns, argsList)
         == [Row(first, Bind(columns, argsList[0]))] + NewRows(first + 1, columns, argsList[1..])
  {
    var all := NewRows(first, columns, argsList);
    var rest := NewRows(first + 1, columns, argsList[1..]);
    assert |all| == |[Row(first, Bind(columns, argsList[0]))] + rest|;
    forall k | 0 <= k < |all| ensures all[k] == ([Row(first, Bind(columns, argsList[0]))] + rest)[k] {
      if k > 0 {
        assert argsList[1..][k - 1] == argsList[k];
      }
    }
  }

  /** One INSERT into a table without UNIQUE columns always succeeds. */
  lemma InsertStep(db: Db, name: string, columns: seq<string>, args: seq<Val>)
    requires name in db && db[name].unique == {}
    requires Prepare(db, Insert(name, columns)) == None && |args| == |columns|
    ensures var rows := db[name].rows;
            Execute(db, Insert(name, columns), args)
              == Ok(Done(db[name := db[name].(rows := rows + [Row(NextId(rows), Bind(columns, args))])], Some(NextId(rows))))
  {
    assert !Clashes(db[name], Row(NextId(db[name].rows), Bind(columns, args)));
  }

  /** executemany of an INSERT into a table without UNIQUE columns appends
      one row per argument tuple, in order, with consecutive fresh rowids. */
  lemma {:induction false} InsertManyAppends(db: Db, name: string, columns: seq<string>, argsList: seq<seq<Val>>)
    returns (b: Batch)
    requires name in db && db[name].unique == {}
    requires Prepare(db, Insert(name, columns)) == None
    requires forall k :: 0 <= k < |argsList| ==> |argsList[k]| == |columns|
    ensures b == ExecuteAll(db, Insert(name, columns), argsList)
    ensures b.Applied? && name in b.db
    ensures b.db[name].rows == db[name].rows + NewRows(NextId(db[name].rows), columns, argsList)
    ensures NextId(b.db[name].rows) == NextId(db[name].rows) + |argsList|
    decreases |argsList|
  {
    var rows := db[name].rows;
    if argsList == [] {
      b := Applied(db);
      assert NewRows(NextId(rows), columns, argsList) == [];
    } else {
      var db1 := InsertFirst(db, name, columns, argsList);
      b := InsertManyAppends(db1, name, columns, argsList[1..]);
      RowsCons(rows, db1[name].rows, b.db[name].rows, columns, argsList);
    }
  }

  lemma {:induction false} RowsCons(rows: seq<Row>, rows1: seq<Row>, rows2: seq<Row>, columns: seq<string>, argsList: seq<seq<Val>>)
    requires argsList != []
    requires rows1 == rows + [Row(NextId(rows), Bind(columns, argsList[0]))]
    requires NextId(rows1) == NextId(rows) + 1
    requires rows2 == rows1 + NewRows(NextId(rows1), columns, argsList[1..])
    ensures rows2 == rows + NewRows(NextId(rows), columns, argsList)
  {
    var first := NextId(rows);
    var row := Row(first, Bind(columns, argsList[0]));
    var added := NewRows(first + 1, columns, argsList[1..]);
    assert rows2 == (rows + [row]) + added;
    NewRowsCons(first, columns, argsList);
    ConcatAssoc(rows, [row], added);
  }

  lemma ConcatAssoc(a: seq<Row>, b: seq<Row>, c: seq<Row>)
    ensures (a + b) + c == a + (b + c)
  {
  }

  /** ... and touches no other table. */
  lemma {:induction false} InsertManyOnlyThatTable(db: Db, name: string, columns: seq<string>, argsList: seq<seq<Val>>)
    requires name in db && db[name].unique == {}
    requires Prepare(db, Insert(name, columns)) == None
    requires forall k :: 0 <= k < |argsList| ==> |argsList[k]| == |columns|
    ensures var b := ExecuteAll(db, Insert(name, columns), argsList);
            b.Applied? && name in b.db && b.db == db[name := db[name].(rows := b.db[name].rows)]
    decreases |argsList|
  {
    if argsList != [] {
      var db1 := InsertFirst(db, name, columns, argsList);
      InsertManyOnlyThatTable(db1, name, columns, argsList[1..]);
      var b := ExecuteAll(db1, Insert(name, columns), argsList[1..]);
      var t := db[name].(rows := b.db[name].rows);
      assert db1[name].(rows := b.db[name].rows) == t;
      assert b.db == db1[name := t];
      UpdateOverwrites(db, name, db1[name], t);
    }
  }

  /** A second update of the same table replaces the first. */
  lemma UpdateOverwrites(db: Db, name: string, first: Table, second: Table)
    ensures db[name := first][name := second] == db[name := second]
  {
    var a, b := db[name := first][name := second], db[name := second];
    assert a.Keys == b.Keys;
    assert forall n :: n in a ==> a[n] == b[n];
  }

  /** The first step of executemany, and the state it leaves. */
  lemma InsertFirst(db: Db, name: string, columns: seq<string>, argsList: seq<seq<Val>>) returns (db1: Db)
    requires name in db && db[name].unique == {}
    requires Prepare(db, Insert(name, columns)) == None
    requires argsList != [] && forall k :: 0 <= k < |argsList| ==> |argsList[k]| == |columns|
    ensures var rows := db[name].rows;
            && db1 == db[name := db[name].(rows := rows + [Row(NextId(rows), Bind(columns, argsList[0]))])]
            && Prepare(db1, Insert(name, columns)) == None
            && NextId(db1[name].rows) == NextId(rows) + 1
            && ExecuteAll(db, Insert(name, columns), argsList) == ExecuteAll(db1, Insert(name, columns), argsList[1..])
  {
    var rows := db[name].rows;
    InsertStep(db, name, columns, argsList[0]);
    db1 := db[name := db[name].(rows := rows + [Row(NextId(rows), Bind(columns, argsList[0]))])];
    NextIdFresh(rows, Bind(columns, argsList[0]));
    assert SameSchema(db, db1);
    PrepareSchemaOnly(db, db1, Insert(name, columns));
  }

  /** executemany of such an INSERT extends the database: schema and earlier rows kept. */
  lemma InsertManyExtends(db: Db, name: string, columns: seq<string>, argsList: seq<seq<Val>>)
    requires name in db && db[name].unique == {}
    requires Prepare(db, Insert(name, columns)) == None
    requires forall k :: 0 <= k < |argsList| ==> |argsList[k]| == |columns|
    ensures ExecuteAll(db, Insert(name, columns), argsList).Applied?
    ensures Extends(db, ExecuteAll(db, Insert(name, columns), argsList).db)
  {
    var _ := InsertManyAppends(db, name, columns, argsList);
    InsertManyOnlyThatTable(db, name, columns, argsList);
  }

  /** The marking UPDATE touches exactly the rows named `name`: those get
      backup 'yes' and the given path, and all other rows stay as they were. */
  lemma MarkTouchesOnlyNamedRows(db: Db, path: string, name: string)
    requires Prepare(db, MarkBackedUp) == None
    ensures var r := Apply(db, MarkBackedUp, [Text(path), Text(name)]);
            var rows := db["records"].rows;
            && r.Ok?
            && SameSchema(db, r.value.db)
            && (forall n :: n in db && n != "records" ==> r.value.db[n] == db[n])
            && |r.value.db["records"].rows| == |rows|
            && forall i :: 0 <= i < |rows| ==>
                 var after := r.value.db["records"].rows[i];
                 && after.id == rows[i].id
                 && (Get(rows[i], "file_name") == Text(name) ==>
                       Get(after, "backup") == Text("yes") && Get(after, "backup_path") == Text(path)
                       && forall c :: c != "backup" && c != "backup_path" ==> Get(after, c) == Get(rows[i], c))
                 && (Get(rows[i], "file_name") != Text(name) ==> after == rows[i])
  {
  }
}
