/** The per-file loop both ingestion scripts run inside `with
    sqlite3.connect(db_path) as conn:`, on a connection updated in place, and
    proved to end as the `Ingestion.IngestAll` fold says. */
module IngestionLoop {
  import opened Wrappers
  import opened Sql
  import Schema
  import Paths
  import T = Transactions
  import I = Ingestion
  import Store

  /** What leaving the loop early does to the connection: an uncaught error
      makes the `with` block roll back; an endless retry leaves it as it is. */
  method Settle(conn: Store.Connection, o: T.Outcome) returns (status: I.Status)
    requires !o.Returned?
    modifies conn
    ensures I.Run(conn.State(), status) == I.Settle(old(conn.State()), o)
  {
    if o.Raised? {
      conn.Rollback();
      status := I.Crashed(I.StoreError(o.error));
    } else {
      status := I.Hung;
    }
  }

  /** One pass of the loop body for the file `file`. */
  method IngestFile(conn: Store.Connection, layout: Schema.Layout, location: string, file: Paths.Path,
                    p: I.Prediction, meta: Option<I.Metadata>) returns (status: I.Status)
    modifies conn
    ensures I.Run(conn.State(), status) == I.IngestFile(old(conn.State()), layout, location, file, p, meta)
  {
    var found := conn.RecordExists(Paths.Name(file));
    if found.Err? {
      conn.Rollback();
      return I.Crashed(I.StoreError(found.error));
    }
    if found.value {
      return I.Running;
    }
    if meta.None? {
      conn.Rollback();
      return I.Crashed(I.MetadataMissing);
    }
    var lastRowId := conn.ExecuteQuery(I.RecordQuery(layout), Some(I.RecordArgs(layout, p, location, meta.value, file)));
    if !lastRowId.Returned? {
      status := Settle(conn, lastRowId);
      return;
    }
    if |p.annotations| > 0 {
      var o := conn.ExecuteManyQuery(I.AnnotationQuery(), I.AnnotationRows(lastRowId.rowId, p.annotations));
      if !o.Returned? {
        status := Settle(conn, o);
        return;
      }
    }
    conn.Commit();
    status := I.Running;
  }

  /** `for count, f in enumerate(audio_files, start=1):` up to the first
      uncaught error or endless retry. */
  method IngestFiles(conn: Store.Connection, layout: Schema.Layout, location: string, files: seq<Paths.Path>,
                     detect: Paths.Path -> I.Prediction, guano: Paths.Path -> Option<I.Metadata>)
    returns (status: I.Status)
    modifies conn
    ensures I.Run(conn.State(), status)
         == I.IngestAll(I.Run(old(conn.State()), I.Running), layout, location, files, detect, guano)
  {
    ghost var goal := I.IngestAll(I.Run(conn.State(), I.Running), layout, location, files, detect, guano);
    assert files[0..] == files;
    var i := 0;
    while i < |files|
      invariant 0 <= i <= |files|
      invariant I.IngestAll(I.Run(conn.State(), I.Running), layout, location, files[i..], detect, guano) == goal
    {
      var f := files[i];
      assert files[i..][1..] == files[i + 1..];
      status := IngestFile(conn, layout, location, f, detect(f), guano(f));
      if !status.Running? {
        return;
      }
      i := i + 1;
    }
    status := I.Running;
  }
}
