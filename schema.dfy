/** The two schemas `create_schema` lays down: the current one, and the older
    one of the top-level helper module (a `record_night` column, no backup
    columns). Both create `records` and `annotations` only if absent. */
module Schema {
  import opened Sql

  /** Declared columns of `records` in the current schema (after the rowid). */
  const RecordColumns: seq<string> :=
    ["file_name", "location_id", "serial", "record_time", "duration", "class_name",
     "recording_night", "validated", "id_correct", "comments", "backup", "backup_path", "record_path"]

  /** Declared columns of `records` in the older schema. */
  const LegacyRecordColumns: seq<string> :=
    ["file_name", "location_id", "serial", "record_time", "record_night", "duration", "class_name"]

  /** Declared columns of `annotations` (both schemas). */
  const AnnotationColumns: seq<string> :=
    ["record_id", "start_time", "end_time", "low_freq", "high_freq", "spp_class",
     "class_prob", "det_prob", "individual", "event"]

  datatype Layout = Current | Legacy

  /** `records`, empty, with `file_name` declared UNIQUE. */
  function RecordsTable(layout: Layout): Table {
    Table(if layout == Current then RecordColumns else LegacyRecordColumns, {"file_name"}, [])
  }

  /** `annotations`, empty; its foreign key is declared but not enforced. */
  function AnnotationsTable(): Table {
    Table(AnnotationColumns, {}, [])
  }

  /** Both CREATE TABLE IF NOT EXISTS statements, then commit. */
  function CreateSchema(db: Db, layout: Layout): (db': Db)
    ensures "records" in db' && "annotations" in db'
    ensures db'.Keys == db.Keys + {"records", "annotations"}
    ensures forall n :: n in db ==> db'[n] == db[n]
    ensures "records" !in db ==> db'["records"] == RecordsTable(layout)
    ensures "annotations" !in db ==> db'["annotations"] == AnnotationsTable()
  {
    var withRecords := if "records" in db then db else db["records" := RecordsTable(layout)];
    if "annotations" in withRecords then withRecords else withRecords["annotations" := AnnotationsTable()]
  }

  /** table_exists: the sqlite_master lookup for a table named `records`. */
  predicate TableExists(db: Db) {
    "records" in db
  }

  /** A second call changes nothing, whichever layout either call uses. */
  lemma CreateSchemaIdempotent(db: Db, first: Layout, second: Layout)
    ensures CreateSchema(CreateSchema(db, first), second) == CreateSchema(db, first)
  {
  }

  /** After create_schema the records table exists, so it is not created again. */
  lemma CreateSchemaMakesTableExist(db: Db, layout: Layout)
    ensures TableExists(CreateSchema(db, layout))
    ensures SameSchema(db, CreateSchema(db, layout)) <==> "records" in db && "annotations" in db
  {
  }

  /** table_exists looks for `records` alone. The scripts' guard (create
      the schema only when it fails) therefore leaves a file that holds
      `records` but no `annotations` without an annotations table, where
      create_schema itself would have added one. */
  lemma GuardLooksOnlyAtRecords(db: Db, layout: Layout)
    requires "records" in db && "annotations" !in db
    ensures TableExists(db)
    ensures var guarded := if TableExists(db) then db else CreateSchema(db, layout);
            "annotations" !in guarded && "annotations" in CreateSchema(db, layout)
  {
  }

  /** The older `records` has a unique `file_name` and a `record_night`
      column, and none of `backup`, `backup_path`, `record_path`; the current
      one has all three backup columns. */
  lemma LayoutColumns()
    ensures "file_name" in RecordsTable(Legacy).unique && "file_name" in RecordsTable(Current).unique
    ensures HasColumn(RecordsTable(Legacy), "record_night")
    ensures !HasColumn(RecordsTable(Legacy), "backup")
    ensures !HasColumn(RecordsTable(Legacy), "backup_path")
    ensures !HasColumn(RecordsTable(Legacy), "record_path")
    ensures HasColumn(RecordsTable(Current), "backup") && HasColumn(RecordsTable(Current), "backup_path")
    ensures HasColumn(RecordsTable(Current), "record_path")
    ensures !HasColumn(RecordsTable(Current), "record_night")
  {
  }
}
