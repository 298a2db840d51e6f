/**
  The job's in-memory table cache (`storagetooling_tables_cache`): one list of
  rows per table, filled by `__read_sql_tables_to_cache` with a full re-read
  of the store. The reconcilers search this cache, not the store, to decide
  what to insert, so the cache and the store are modelled together.
*/
module Cache {
  import opened Records
  import opened SqlText
  import opened StoreModel
  import opened Writer

  /** The store and the table cache as values. */
  datatype World = World(db: Db, cache: map<string, seq<Row>>)

  /** A world after a step, and whether the step went through; a step that
      did not go through ends the job's pass (an uncaught exception). */
  datatype Step = Step(w: World, ok: bool)

  /** `getattr(storagetooling_tables_cache, table)`; a table never loaded reads as empty. */
  function Cached(cache: map<string, seq<Row>>, table: string): seq<Row>
  {
    if table in cache then cache[table] else []
  }

  /** The cached list of `table` holds exactly the store's rows. */
  predicate InSync(w: World, table: string)
  {
    Cached(w.cache, table) == TableRows(w.db, table)
  }

  /** A store step, the cache left as it is. */
  function OnDb(w: World, e: DbStep): (r: Step)
    ensures r.w.cache == w.cache && r.w.db == e.db && r.ok == e.ok
  {
    Step(World(e.db, w.cache), e.ok)
  }

  /** `__read_sql_tables_to_cache(table, conn)`: SELECT every row of the
      table and replace the cached list with them. */
  function ReloadSpec(w: World, table: string): Step
  {
    var e := Exec(w.db, Select(table));
    if e.ok then Step(World(e.db, w.cache[table := TableRows(e.db, table)]), true)
    else OnDb(w, e)
  }

  /** A reload reads without writing: the store's tables are as they were,
      one SELECT is logged, and on success the table is in sync with the
      store while every other cached table is as it was. */
  lemma ReloadSyncs(w: World, table: string)
    ensures var r := ReloadSpec(w, table);
      && (r.ok <==> table !in w.db.refused)
      && r.w.db.tables == w.db.tables && r.w.db.nextId == w.db.nextId && r.w.db.refused == w.db.refused
      && r.w.db.log == w.db.log + [if r.ok then Executed(Select(table)) else Rejected(Select(table))]
      && (r.ok ==> InSync(r.w, table))
      && (forall t :: t != table ==> Cached(r.w.cache, t) == Cached(w.cache, t))
      && (!r.ok ==> r.w.cache == w.cache)
  {
  }

  /** Reloading a table twice in a row leaves the cache as one reload does. */
  lemma ReloadTwice(w: World, table: string)
    requires table !in w.db.refused
    ensures var r := ReloadSpec(w, table);
      ReloadSpec(r.w, table).w.cache == r.w.cache
  {
    var r := ReloadSpec(w, table);
    assert r.w.db.tables == w.db.tables;
  }

  /** A store step that keeps the other tables as they were keeps them in sync. */
  lemma SyncKept(w: World, w': World, table: string)
    requires InSync(w, table) && Cached(w'.cache, table) == Cached(w.cache, table)
    requires TableRows(w'.db, table) == TableRows(w.db, table)
    ensures InSync(w', table)
  {
  }

  /** `insert_data_to_table` in the world. */
  function InsertStep(w: World, table: string, record: Record): Step
  {
    OnDb(w, InsertOneSpec(w.db, table, record))
  }

  /** Insert a record, then reload its table if the insert went through. */
  function InsertReload(w: World, table: string, record: Record): Step
  {
    var i := InsertStep(w, table, record);
    if i.ok then ReloadSpec(i.w, table) else i
  }

  /** Inserting a non-empty record without store-filled columns and
      reloading goes through exactly when the table is not refused; the
      store then gains the record's row at the end of the table, the log the
      INSERT, its commit and the SELECT, and the cache holds the table's rows;
      nothing else changes. */
  lemma InsertReloaded(w: World, table: string, record: Record)
    requires |record| > 0 && forall i :: 0 <= i < |record| ==> !StoreFilled(record[i].0)
    ensures var r := InsertReload(w, table, record);
      && r.w.db.refused == w.db.refused
      && (r.ok <==> table !in w.db.refused)
      && (r.ok ==> r.w.db.log == w.db.log + [Executed(InsertOneStatement(table, record)), Committed, Executed(Select(table))])
      && (r.ok ==> InSync(r.w, table))
      && (r.ok ==> TableRows(r.w.db, table) == TableRows(w.db, table) + [WrittenRow(record, w.db.nextId)])
      && (r.ok ==> forall t :: t != table ==> TableRows(r.w.db, t) == TableRows(w.db, t))
      && (r.ok ==> forall t :: t != table ==> Cached(r.w.cache, t) == Cached(w.cache, t))
      && (!r.ok ==> r.w.cache == w.cache && r.w.db.tables == w.db.tables)
      && (!r.ok ==> r.w.db.log == w.db.log + [Rejected(InsertOneStatement(table, record))])
  {
    if table in w.db.refused {
      InsertRefused(w, table, record);
    } else {
      InsertAccepted(w, table, record);
    }
  }

  /** `InsertReloaded` for a table the store refuses. */
  lemma InsertRefused(w: World, table: string, record: Record)
    requires |record| > 0 && forall i :: 0 <= i < |record| ==> !StoreFilled(record[i].0)
    requires table in w.db.refused
    ensures var r := InsertReload(w, table, record);
      && !r.ok && r.w.db.refused == w.db.refused
      && r.w.cache == w.cache && r.w.db.tables == w.db.tables
      && r.w.db.log == w.db.log + [Rejected(InsertOneStatement(table, record))]
  {
    InsertOneEffect(w.db, table, record);
  }

  /** `InsertReloaded` for a table the store takes. */
  lemma InsertAccepted(w: World, table: string, record: Record)
    requires |record| > 0 && forall i :: 0 <= i < |record| ==> !StoreFilled(record[i].0)
    requires table !in w.db.refused
    ensures var r := InsertReload(w, table, record);
      && r.ok && r.w.db.refused == w.db.refused
      && r.w.db.log == w.db.log + [Executed(InsertOneStatement(table, record)), Committed, Executed(Select(table))]
      && InSync(r.w, table)
      && TableRows(r.w.db, table) == TableRows(w.db, table) + [WrittenRow(record, w.db.nextId)]
      && (forall t :: t != table ==> TableRows(r.w.db, t) == TableRows(w.db, t))
      && (forall t :: t != table ==> Cached(r.w.cache, t) == Cached(w.cache, t))
  {
    InsertOneEffect(w.db, table, record);
    var i := InsertStep(w, table, record);
    ReloadSyncs(i.w, table);
    var s := InsertOneStatement(table, record);
    assert w.db.log + [Executed(s), Committed] + [Executed(Select(table))]
        == w.db.log + [Executed(s), Committed, Executed(Select(table))];
  }

  /** The job's cache object. */
  class TableCache {
    var tables: map<string, seq<Row>>

    constructor ()
      ensures tables == map[]
    {
      tables := map[];
    }

    /** `__read_sql_tables_to_cache`. */
    method ReadTable(store: Store, table: string) returns (ok: bool)
      modifies this, store
      ensures Step(World(store.State(), tables), ok) == ReloadSpec(World(old(store.State()), old(tables)), table)
    {
      ok := store.Execute(Sql(Select(table)), Select(table));
      if ok {
        tables := tables[table := TableRows(store.State(), table)];
      }
    }
  }

  /** The world as the store and the cache hold it. */
  function WorldOf(store: Store, cache: TableCache): World
    reads store, cache
  {
    World(store.State(), cache.tables)
  }
}
