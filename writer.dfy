/**
  The statement builders and writers of the sync job: `insert_data_to_table`,
  `insert_data_to_table_batch`, `update_data_table` and `__clear_table`.
  Each method is proved equal to a spec function on the store's value; the
  lemmas state what those spec functions promise.
*/
module Writer {
  import opened Records
  import opened SqlText
  import opened StoreModel

  /** The batch size every caller uses (the default `tranaction_block_size`). */
  const DefaultBlockSize: nat := 250

  /** Columns the INSERT builders leave out, for the store to fill. */
  predicate StoreFilled(column: string)
  {
    column == "datecreated" || column == "ID"
  }

  /** The pairs of a record that an INSERT writes, in record order. */
  function Kept(r: Record): (k: Record)
    ensures |k| <= |r|
    ensures forall i :: 0 <= i < |k| ==> !StoreFilled(k[i].0) && k[i] in r
  {
    if r == [] then []
    else if StoreFilled(r[0].0) then Kept(r[1..])
    else [r[0]] + Kept(r[1..])
  }

  /** Keeping distributes over concatenation, so `Kept` drops exactly the
      store-filled pairs and keeps every other pair once, in order. */
  lemma {:induction false} KeptAppend(a: Record, b: Record)
    ensures Kept(a + b) == Kept(a) + Kept(b)
  {
    if a != [] {
      assert (a + b)[0] == a[0];
      assert (a + b)[1..] == a[1..] + b;
      KeptAppend(a[1..], b);
      if StoreFilled(a[0].0) {
        assert Kept(a + b) == Kept(a[1..] + b);
      } else {
        assert Kept(a + b) == [a[0]] + Kept(a[1..] + b);
      }
    } else {
      assert a + b == b;
    }
  }

  lemma KeptOne(p: (string, string))
    ensures Kept([p]) == if StoreFilled(p.0) then [] else [p]
  {
  }

  /** One more pair of the record: the columns and escaped values grow by
      that pair exactly when it is not store-filled. */
  lemma KeptStep(r: Record, i: nat)
    requires i < |r|
    ensures !StoreFilled(r[i].0) ==> Kept(r[..i + 1]) == Kept(r[..i]) + [r[i]]
    ensures !StoreFilled(r[i].0) ==> Keys(Kept(r[..i + 1])) == Keys(Kept(r[..i])) + [r[i].0]
    ensures !StoreFilled(r[i].0) ==> EscapedValues(Kept(r[..i + 1])) == EscapedValues(Kept(r[..i])) + [Escape(r[i].1)]
    ensures StoreFilled(r[i].0) ==> Kept(r[..i + 1]) == Kept(r[..i])
  {
    assert r[..i + 1] == r[..i] + [r[i]];
    KeptAppend(r[..i], [r[i]]);
    KeptOne(r[i]);
    if !StoreFilled(r[i].0) {
      var k := Kept(r[..i]);
      assert Keys(k + [r[i]]) == Keys(k) + [r[i].0];
      assert EscapedValues(k + [r[i]]) == EscapedValues(k) + [Escape(r[i].1)];
    }
  }

  /** The escaped values of a record's kept pairs, one per kept column. */
  function EscapedValues(k: Record): (vs: seq<string>)
    ensures |vs| == |k|
  {
    seq(|k|, i requires 0 <= i < |k| => Escape(k[i].1))
  }

  /** The statement `insert_data_to_table` issues for one record. */
  function InsertOneStatement(table: string, record: Record): Statement
  {
    InsertOne(table, Keys(Kept(record)), EscapedValues(Kept(record)))
  }

  /** The columns of the single-row INSERT skip `datecreated` and `ID`; the
      values stand in column order, one per column, each with every quote
      doubled and read back by the store as the record's value; and the store
      accepts the statement exactly when the table is not refused and some
      column is left. */
  lemma InsertOneShape(table: string, record: Record, d: Db)
    ensures var s := InsertOneStatement(table, record);
      && |s.columns| == |s.values| == |Kept(record)|
      && (forall j :: 0 <= j < |s.columns| ==> !StoreFilled(s.columns[j]))
      && (forall j :: 0 <= j < |s.columns| ==> (s.columns[j], Unescape(s.values[j])) in record)
      && (Accepts(d, s) <==> table !in d.refused && |Kept(record)| > 0)
  {
    var s := InsertOneStatement(table, record);
    forall j | 0 <= j < |s.values|
      ensures WellQuoted(s.values[j]) && Unescape(s.values[j]) == Kept(record)[j].1
    {
      EscapeWellQuoted(Kept(record)[j].1);
      UnescapeEscape(Kept(record)[j].1);
    }
  }

  /** A record without store-filled columns is written whole. */
  lemma {:induction false} KeptAll(r: Record)
    requires forall i :: 0 <= i < |r| ==> !StoreFilled(r[i].0)
    ensures Kept(r) == r
  {
    if r != [] {
      KeptAll(r[1..]);
    }
  }

  /** The store reads each escaped value back as the record's value for that
      column, the first occurrence of a column winning as in `Lookup`. */
  lemma {:induction false} DecodedEscaped(r: Record)
    ensures forall c :: Get(Decoded(Keys(r), EscapedValues(r)), c) == Lookup(r, c)
  {
    if r != [] {
      DecodedEscaped(r[1..]);
      assert Keys(r)[1..] == Keys(r[1..]);
      assert EscapedValues(r)[1..] == EscapedValues(r[1..]);
      UnescapeEscape(r[0].1);
    }
  }

  /** The row a single-row INSERT of `r` creates under identity `id`. */
  function WrittenRow(r: Record, id: nat): Row
  {
    NewRow(Keys(Kept(r)), EscapedValues(Kept(r)), id)
  }

  /** The row a single-row INSERT of a record without store-filled columns
      creates holds, in every column but the identity, the record's value. */
  lemma WrittenRowHolds(r: Record, id: nat)
    requires forall i :: 0 <= i < |r| ==> !StoreFilled(r[i].0)
    ensures forall c :: c != "ID" ==> Get(WrittenRow(r, id), c) == Lookup(r, c)
  {
    KeptAll(r);
    DecodedEscaped(r);
  }

  /** `insert_data_to_table`: execute, then commit if the store accepted. */
  function InsertOneSpec(d: Db, table: string, record: Record): DbStep
  {
    var e := Exec(d, InsertOneStatement(table, record));
    if e.ok then DbStep(CommitDb(e.db), true) else e
  }

  /** A single-row INSERT of a non-empty record without store-filled
      columns goes through exactly when its table is not refused; it then
      appends the record's row under the next identity and logs the
      statement and a commit; otherwise it logs the refusal and changes no
      table. */
  lemma InsertOneEffect(d: Db, table: string, record: Record)
    requires |record| > 0 && forall i :: 0 <= i < |record| ==> !StoreFilled(record[i].0)
    ensures var r := InsertOneSpec(d, table, record);
      && r.db.refused == d.refused
      && (r.ok <==> table !in d.refused)
      && (r.ok ==> r.db.log == d.log + [Executed(InsertOneStatement(table, record)), Committed])
      && (r.ok ==> r.db.tables == d.tables[table := TableRows(d, table) + [WrittenRow(record, d.nextId)]])
      && (r.ok ==> r.db.nextId == d.nextId + 1)
      && (!r.ok ==> r.db.log == d.log + [Rejected(InsertOneStatement(table, record))])
      && (!r.ok ==> r.db.tables == d.tables && r.db.nextId == d.nextId)
  {
    var s := InsertOneStatement(table, record);
    assert Accepts(d, s) <==> table !in d.refused by {
      KeptAll(record);
      InsertOneShape(table, record, d);
    }
    if table !in d.refused {
      var e := Exec(d, s);
      assert e.db.tables == Apply(d, s).tables && e.db.nextId == d.nextId + 1;
      assert e.db.log + [Committed] == d.log + [Executed(s), Committed];
    }
  }

  /** The record as `insert_data_to_table` leaves it: each kept value that
      holds a quote is replaced by its escaped form. */
  function Rewritten(r: Record): (w: Record)
    ensures |w| == |r|
  {
    seq(|r|, i requires 0 <= i < |r| => if StoreFilled(r[i].0) then r[i] else (r[i].0, Escape(r[i].1)))
  }

  method InsertDataToTable(store: Store, table: string, record: Record) returns (ok: bool, written: Record)
    modifies store
    ensures DbStep(store.State(), ok) == InsertOneSpec(old(store.State()), table, record)
    ensures written == Rewritten(record)
  {
    ghost var d0 := store.State();
    var columns: seq<string> := [];
    var values: seq<string> := [];
    written := record;
    for i := 0 to |record|
      invariant store.State() == d0
      invariant |written| == |record|
      invariant columns == Keys(Kept(record[..i]))
      invariant values == EscapedValues(Kept(record[..i]))
      invariant forall k :: 0 <= k < i ==> written[k] == Rewritten(record)[k]
      invariant forall k :: i <= k < |record| ==> written[k] == record[k]
    {
      var (column, value) := record[i];
      KeptStep(record, i);
      if !StoreFilled(column) {
        columns := columns + [column];
        var v := value;
        if Quote in value {
          v := Escape(value);
        } else {
          assert NoQuote(value);
          QuoteFreeUnchanged(value);
        }
        written := written[i := (column, v)];
        values := values + [v];
      }
    }
    assert record[..|record|] == record;
    assert written == Rewritten(record);
    var s := InsertOne(table, columns, values);
    assert s == InsertOneStatement(table, record);
    ok := store.Execute(Sql(s), s);
    ghost var e := Exec(d0, s);
    assert store.State() == e.db && ok == e.ok;
    if ok {
      store.Commit();
    }
  }

  /** `update_data_table`: one UPDATE setting the given columns on the rows
      matching `whereColumn = 'whereValue'`, committed if accepted. */
  function UpdateSpec(d: Db, table: string, sets: seq<(string, string)>, whereColumn: string, whereValue: string): DbStep
  {
    var e := Exec(d, Update(table, sets, whereColumn, whereValue));
    if e.ok then DbStep(CommitDb(e.db), true) else e
  }

  /** The UPDATE goes through exactly when its table is not refused, it
      sets some column, and every literal is well formed; it then assigns the
      matching rows of its table and logs the statement and a commit. */
  lemma UpdateEffect(d: Db, table: string, sets: seq<(string, string)>, whereColumn: string, whereValue: string)
    ensures var r := UpdateSpec(d, table, sets, whereColumn, whereValue);
      var s := Update(table, sets, whereColumn, whereValue);
      && r.db.refused == d.refused
      && (r.ok <==> table !in d.refused && |sets| > 0 && WellQuoted(whereValue)
                    && forall i :: 0 <= i < |sets| ==> WellQuoted(sets[i].1))
      && (r.ok ==> r.db.tables == d.tables[table := Updated(TableRows(d, table), sets, whereColumn, Unescape(whereValue))])
      && (r.ok ==> r.db.log == d.log + [Executed(s), Committed])
      && (!r.ok ==> r.db.tables == d.tables && r.db.log == d.log + [Rejected(s)])
  {
  }

  method UpdateDataTable(store: Store, table: string, sets: seq<(string, string)>, whereColumn: string, whereValue: string)
    returns (ok: bool)
    modifies store
    ensures DbStep(store.State(), ok) == UpdateSpec(old(store.State()), table, sets, whereColumn, whereValue)
  {
    var assignments: seq<string> := [];
    for i := 0 to |sets|
      invariant assignments == SetText(sets)[..i]
    {
      assignments := assignments + ["[" + sets[i].0 + "] = '" + sets[i].1 + "'\r\n"];
    }
    assert assignments == SetText(sets);
    var text := "UPDATE [dbo].[" + table + "]\r\nSET " + Join(",", assignments) + "WHERE " + whereColumn + " = '" + whereValue + "'";
    ok := store.Execute(text, Update(table, sets, whereColumn, whereValue));
    if ok {
      store.Commit();
    }
  }

  /** `__clear_table`: TRUNCATE and commit; the result says whether it went through. */
  function ClearSpec(d: Db, table: string): (r: DbStep)
    ensures r.ok <==> table !in d.refused
    ensures r.db.refused == d.refused && r.db.nextId == d.nextId
    ensures r.ok ==> TableRows(r.db, table) == [] && r.db.tables == d.tables[table := []]
    ensures r.ok ==> r.db.log == d.log + [Executed(Truncate(table)), Committed]
    ensures !r.ok ==> r.db.log == d.log + [Rejected(Truncate(table))] && r.db.tables == d.tables
  {
    var e := Exec(d, Truncate(table));
    if e.ok then DbStep(CommitDb(e.db), true) else e
  }

  method ClearTable(store: Store, table: string) returns (ok: bool)
    modifies store
    ensures DbStep(store.State(), ok) == ClearSpec(old(store.State()), table)
  {
    var s := Truncate(table);
    ok := store.Execute("TRUNCATE TABLE [dbo].[" + table + "]", s);
    if ok {
      store.Commit();
    }
  }
}
