/**
  `insert_data_to_table_batch`: the multi-row INSERT writer. It takes its
  columns from the first record, appends one parenthesised value row per
  record to a text block, and flushes the block (execute, then commit) each
  time it holds `tranaction_block_size` rows, then flushes what is left.
  Values are written as they are: this writer doubles no quotes.
*/
module BatchWriter {
  import opened Records
  import opened SqlText
  import opened StoreModel
  import opened Blocks
  import opened Writer

  /** An element of the list handed to the batch writer: a formatted record,
      or the exception object a formatter returned in its place (the job
      gathers its formatters with `return_exceptions=True`). */
  type Entry = Result<Record>

  /** Every one of the columns is a key of the record. */
  predicate Covers(entry: Record, columns: seq<string>)
  {
    forall j :: 0 <= j < |columns| ==> columns[j] in Keys(entry)
  }

  /** `entry[column]` for each column, in column order. */
  function RowValues(entry: Record, columns: seq<string>): (vs: seq<string>)
    requires Covers(entry, columns)
    ensures |vs| == |columns|
  {
    seq(|columns|, j requires 0 <= j < |columns| => Lookup(entry, columns[j]).value)
  }

  /** Building the value row of an entry raises: a record without one of the
      columns (KeyError), or an exception object, which cannot be subscripted
      as soon as there is a column to read. */
  predicate RowFails(entry: Entry, columns: seq<string>)
  {
    if entry.Fail? then |columns| > 0 else !Covers(entry.value, columns)
  }

  function EntryRow(entry: Entry, columns: seq<string>): (vs: seq<string>)
    requires !RowFails(entry, columns)
    ensures |vs| == |columns|
  {
    if entry.Fail? then [] else RowValues(entry.value, columns)
  }

  predicate NoneFail(entries: seq<Entry>, columns: seq<string>)
  {
    forall k :: 0 <= k < |entries| ==> !RowFails(entries[k], columns)
  }

  /** The value rows of entries none of which fails, in entry order. */
  function EntryRows(entries: seq<Entry>, columns: seq<string>): (rows: seq<seq<string>>)
    requires NoneFail(entries, columns)
    ensures |rows| == |entries|
  {
    seq(|entries|, k requires 0 <= k < |entries| => EntryRow(entries[k], columns))
  }

  lemma EntryRowsCons(entries: seq<Entry>, columns: seq<string>, i: nat, f: nat)
    requires i < f <= |entries| && NoneFail(entries[i..f], columns)
    ensures NoneFail(entries[i + 1..f], columns)
    ensures EntryRows(entries[i..f], columns) == [EntryRow(entries[i], columns)] + EntryRows(entries[i + 1..f], columns)
  {
    var tail := entries[i + 1..f];
    forall k | 0 <= k < |tail| ensures tail[k] == entries[i..f][k + 1] && !RowFails(tail[k], columns) {
      assert !RowFails(entries[i..f][k + 1], columns);
    }
  }

  /** The columns of the batch: the first record's keys, less `datecreated` and `ID`. */
  function BatchColumns(entries: seq<Entry>): seq<string>
    requires |entries| > 0 && entries[0].Ok?
  {
    Keys(Kept(entries[0].value))
  }

  /** One block: execute the multi-row INSERT, then commit if accepted. */
  function BlockStep(d: Db, table: string, columns: seq<string>, block: seq<seq<string>>): DbStep
  {
    var e := Exec(d, InsertBlock(table, columns, block));
    if e.ok then DbStep(CommitDb(e.db), true) else e
  }

  /** Executes and commits each block in turn; stops at the first refusal,
      where the driver's exception ends the writer. */
  function Flush(d: Db, table: string, columns: seq<string>, blocks: seq<seq<seq<string>>>): DbStep
    decreases |blocks|
  {
    if blocks == [] then DbStep(d, true)
    else
      var e := BlockStep(d, table, columns, blocks[0]);
      if !e.ok then e else Flush(e.db, table, columns, blocks[1..])
  }

  /** The writer's loop from entry `i` on, with `pending` the value rows added
      since the last flush: a failing row ends the writer, a row that brings
      the count to a multiple of `b` flushes the block, and the rows left at
      the end are flushed as a last block. */
  function BatchFrom(d: Db, table: string, columns: seq<string>, entries: seq<Entry>, i: nat,
                     pending: seq<seq<string>>, b: nat): DbStep
    requires b > 0 && i <= |entries|
    decreases |entries| - i
  {
    if i == |entries| then
      if |pending| > 0 then BlockStep(d, table, columns, pending) else DbStep(d, true)
    else if RowFails(entries[i], columns) then DbStep(d, false)
    else
      var p := pending + [EntryRow(entries[i], columns)];
      if |p| % b == 0 then
        var e := BlockStep(d, table, columns, p);
        if e.ok then BatchFrom(e.db, table, columns, entries, i + 1, [], b) else e
      else BatchFrom(d, table, columns, entries, i + 1, p, b)
  }

  /** `insert_data_to_table_batch(table, entries, conn, b)`. An empty list or
      an exception object in first place raises before any statement, and so
      does a block size of zero, at the first `count % b`. */
  function BatchSpec(d: Db, table: string, entries: seq<Entry>, b: nat): DbStep
  {
    if |entries| == 0 || entries[0].Fail? || b == 0 then DbStep(d, false)
    else BatchFrom(d, table, BatchColumns(entries), entries, 0, [], b)
  }

  /** The log entries of a flush that the store accepts throughout: one
      execute and one commit per block. */
  function FlushEvents(table: string, columns: seq<string>, blocks: seq<seq<seq<string>>>): (es: seq<Event>)
    ensures |es| == 2 * |blocks|
  {
    if blocks == [] then []
    else [Executed(InsertBlock(table, columns, blocks[0])), Committed] + FlushEvents(table, columns, blocks[1..])
  }

  /** Value rows the store takes: one well-formed literal per column. */
  predicate RowsAccepted(columns: seq<string>, rows: seq<seq<string>>)
  {
    forall i :: 0 <= i < |rows| ==> |rows[i]| == |columns| && AllWellQuoted(rows[i])
  }

  predicate BlockAccepted(columns: seq<string>, block: seq<seq<string>>)
  {
    |columns| > 0 && |block| > 0 && RowsAccepted(columns, block)
  }

  lemma {:induction false} NewRowsAppend(columns: seq<string>, a: seq<seq<string>>, b: seq<seq<string>>, id: nat)
    ensures NewRows(columns, a + b, id) == NewRows(columns, a, id) + NewRows(columns, b, id + |a|)
  {
    if a == [] {
      assert a + b == b;
    } else {
      assert (a + b)[0] == a[0];
      assert (a + b)[1..] == a[1..] + b;
      NewRowsAppend(columns, a[1..], b, id + 1);
    }
  }

  lemma NewRowsFlatten(columns: seq<string>, blocks: seq<seq<seq<string>>>, id: nat)
    requires blocks != []
    ensures NewRows(columns, Flatten(blocks), id)
         == NewRows(columns, blocks[0], id) + NewRows(columns, Flatten(blocks[1..]), id + |blocks[0]|)
  {
    assert Flatten(blocks) == blocks[0] + Flatten(blocks[1..]);
    NewRowsAppend(columns, blocks[0], Flatten(blocks[1..]), id);
  }

  /** A block the store accepts appends one row per value row, in order,
      and logs one execute and one commit. */
  lemma BlockStepAccepted(d: Db, table: string, columns: seq<string>, block: seq<seq<string>>)
    requires table !in d.refused && BlockAccepted(columns, block)
    ensures var r := BlockStep(d, table, columns, block);
      && r.ok && r.db.refused == d.refused
      && r.db.log == d.log + [Executed(InsertBlock(table, columns, block)), Committed]
      && r.db.nextId == d.nextId + |block|
      && TableRows(r.db, table) == TableRows(d, table) + NewRows(columns, block, d.nextId)
  {
    var s := InsertBlock(table, columns, block);
    assert Accepts(d, s);
    var a := Apply(d, s);
    assert TableRows(a, table) == TableRows(d, table) + NewRows(columns, block, d.nextId);
  }

  /** The first block of an accepted flush: the store after it, from which
      the rest of the flush goes on. */
  lemma FlushStep(d: Db, table: string, columns: seq<string>, blocks: seq<seq<seq<string>>>) returns (c: Db)
    requires table !in d.refused && |blocks| > 0 && BlockAccepted(columns, blocks[0])
    ensures c.refused == d.refused && c.nextId == d.nextId + |blocks[0]|
    ensures c.log == d.log + [Executed(InsertBlock(table, columns, blocks[0])), Committed]
    ensures TableRows(c, table) == TableRows(d, table) + NewRows(columns, blocks[0], d.nextId)
    ensures Flush(d, table, columns, blocks) == Flush(c, table, columns, blocks[1..])
  {
    BlockStepAccepted(d, table, columns, blocks[0]);
    c := BlockStep(d, table, columns, blocks[0]).db;
  }

  /** When the table is not refused and every block is well formed, every
      block is executed and committed, in order. */
  lemma {:induction false} FlushAccepted(d: Db, table: string, columns: seq<string>, blocks: seq<seq<seq<string>>>)
    requires table !in d.refused
    requires forall k :: 0 <= k < |blocks| ==> BlockAccepted(columns, blocks[k])
    ensures Flush(d, table, columns, blocks).ok
    ensures Flush(d, table, columns, blocks).db.log == d.log + FlushEvents(table, columns, blocks)
    ensures Flush(d, table, columns, blocks).db.nextId == d.nextId + |Flatten(blocks)|
    decreases |blocks|
  {
    if blocks != [] {
      var c := FlushStep(d, table, columns, blocks);
      FlushAccepted(c, table, columns, blocks[1..]);
      assert Flatten(blocks) == blocks[0] + Flatten(blocks[1..]);
      ConcatAssoc(d.log, [Executed(InsertBlock(table, columns, blocks[0])), Committed], FlushEvents(table, columns, blocks[1..]));
    }
  }

  /** A flush leaves the set of refused tables as it was. */
  lemma {:induction false} FlushRefused(d: Db, table: string, columns: seq<string>, blocks: seq<seq<seq<string>>>)
    ensures Flush(d, table, columns, blocks).db.refused == d.refused
    decreases |blocks|
  {
    if blocks != [] {
      var e := BlockStep(d, table, columns, blocks[0]);
      if e.ok {
        FlushRefused(e.db, table, columns, blocks[1..]);
      }
    }
  }

  /** ... and the table gains one row per value row, in order. */
  lemma {:induction false} FlushRows(d: Db, table: string, columns: seq<string>, blocks: seq<seq<seq<string>>>)
    requires table !in d.refused
    requires forall k :: 0 <= k < |blocks| ==> BlockAccepted(columns, blocks[k])
    ensures TableRows(Flush(d, table, columns, blocks).db, table)
         == TableRows(d, table) + NewRows(columns, Flatten(blocks), d.nextId)
    decreases |blocks|
  {
    if blocks != [] {
      var c := FlushStep(d, table, columns, blocks);
      FlushRows(c, table, columns, blocks[1..]);
      RowsStep(TableRows(d, table), TableRows(c, table), TableRows(Flush(c, table, columns, blocks[1..]).db, table),
               columns, blocks, d.nextId, c.nextId);
    } else {
      assert TableRows(d, table) + [] == TableRows(d, table);
    }
  }

  /** The rows of one block followed by the rows of the rest are the rows of
      all blocks. */
  lemma RowsStep(before: seq<Row>, mid: seq<Row>, after: seq<Row>, columns: seq<string>,
                 blocks: seq<seq<seq<string>>>, id: nat, id': nat)
    requires blocks != [] && id' == id + |blocks[0]|
    requires mid == before + NewRows(columns, blocks[0], id)
    requires after == mid + NewRows(columns, Flatten(blocks[1..]), id')
    ensures after == before + NewRows(columns, Flatten(blocks), id)
  {
    NewRowsFlatten(columns, blocks, id);
    ConcatAssoc(before, NewRows(columns, blocks[0], id), NewRows(columns, Flatten(blocks[1..]), id'));
  }

  /** Splitting well-formed value rows into blocks gives well-formed, non-empty blocks. */
  lemma {:induction false} ChunksAccepted(columns: seq<string>, rows: seq<seq<string>>, b: nat)
    requires b > 0 && |columns| > 0 && RowsAccepted(columns, rows)
    ensures forall k :: 0 <= k < |Chunks(rows, b)| ==> BlockAccepted(columns, Chunks(rows, b)[k])
    decreases |rows|
  {
    if |rows| > b {
      ChunksAccepted(columns, rows[b..], b);
      var c := Chunks(rows, b);
      assert c == [rows[..b]] + Chunks(rows[b..], b);
      forall k | 0 <= k < |c| ensures BlockAccepted(columns, c[k]) {
        if k > 0 { assert c[k] == Chunks(rows[b..], b)[k - 1]; }
      }
    }
  }

  /** A full first block, then the flush of the rest. */
  lemma FlushHead(d: Db, table: string, columns: seq<string>, p: seq<seq<string>>, rest: seq<seq<string>>, b: nat)
    requires b > 0 && |p| == b
    ensures Flush(d, table, columns, Chunks(p + rest, b)) ==
      var e := BlockStep(d, table, columns, p);
      if e.ok then Flush(e.db, table, columns, Chunks(rest, b)) else e
  {
    ChunksHead(p + rest, b);
    assert (p + rest)[..b] == p && (p + rest)[b..] == rest;
    var c := Chunks(rest, b);
    assert ([p] + c)[0] == p && ([p] + c)[1..] == c;
  }

  /** The rows left at the end form one last block, or none. */
  lemma FlushTail(d: Db, table: string, columns: seq<string>, pending: seq<seq<string>>, b: nat)
    requires 0 < b && |pending| <= b
    ensures Flush(d, table, columns, Chunks(pending, b)) ==
      if |pending| > 0 then BlockStep(d, table, columns, pending) else DbStep(d, true)
  {
    if |pending| > 0 {
      var e := BlockStep(d, table, columns, pending);
      assert Chunks(pending, b) == [pending];
      if e.ok {
        assert Flush(e.db, table, columns, []) == DbStep(e.db, true);
      }
    }
  }

  /** With no failing row from entry `i` on, the writer's loop is the flush
      of the blocks of `b` rows into which the pending and remaining rows
      split. */
  lemma {:induction false} BatchFromChunks(d: Db, table: string, columns: seq<string>, entries: seq<Entry>, i: nat,
                                           pending: seq<seq<string>>, b: nat)
    requires b > 0 && i <= |entries| && |pending| < b
    requires NoneFail(entries[i..], columns)
    ensures BatchFrom(d, table, columns, entries, i, pending, b)
         == Flush(d, table, columns, Chunks(pending + EntryRows(entries[i..], columns), b))
    decreases |entries| - i
  {
    var rest := EntryRows(entries[i..], columns);
    if i == |entries| {
      assert pending + rest == pending;
      FlushTail(d, table, columns, pending, b);
    } else {
      EntryRowsCons(entries, columns, i, |entries|);
      assert entries[i..|entries|] == entries[i..] && entries[i + 1..|entries|] == entries[i + 1..];
      var p := pending + [EntryRow(entries[i], columns)];
      var rest' := EntryRows(entries[i + 1..], columns);
      ConcatAssoc(pending, [EntryRow(entries[i], columns)], rest');
      if |p| % b == 0 {
        FullBlock(|p|, b);
        var e := BlockStep(d, table, columns, p);
        FlushHead(d, table, columns, p, rest', b);
        if e.ok {
          BatchFromChunks(e.db, table, columns, entries, i + 1, [], b);
          assert [] + rest' == rest';
        }
      } else {
        FullBlock(|p|, b);
        BatchFromChunks(d, table, columns, entries, i + 1, p, b);
      }
    }
  }

  /** A batch the store accepts throughout: the writer issues one
      execute+commit pair per block of `b` value rows (ceil(n/b) blocks for n
      records, every block full but the last: `ChunkCount`, `ChunkSizes`), and
      the table gains one row per record, in record order. */
  lemma BatchAccepted(d: Db, table: string, entries: seq<Entry>, b: nat)
    requires |entries| > 0 && entries[0].Ok? && b > 0
    requires NoneFail(entries, BatchColumns(entries)) && |BatchColumns(entries)| > 0
    requires table !in d.refused
    requires RowsAccepted(BatchColumns(entries), EntryRows(entries, BatchColumns(entries)))
    ensures var columns := BatchColumns(entries);
      var rows := EntryRows(entries, columns);
      var r := BatchSpec(d, table, entries, b);
      && r.ok && r.db.refused == d.refused
      && r.db.log == d.log + FlushEvents(table, columns, Chunks(rows, b))
      && TableRows(r.db, table) == TableRows(d, table) + NewRows(columns, rows, d.nextId)
  {
    var columns := BatchColumns(entries);
    var rows := EntryRows(entries, columns);
    BatchSpecFlush(d, table, entries, b);
    FlushAll(d, table, columns, rows, b);
  }

  /** With no failing entry, the writer is the flush of the value rows in
      blocks of `b`. */
  lemma BatchSpecFlush(d: Db, table: string, entries: seq<Entry>, b: nat)
    requires |entries| > 0 && entries[0].Ok? && b > 0
    requires NoneFail(entries, BatchColumns(entries))
    ensures BatchSpec(d, table, entries, b)
         == Flush(d, table, BatchColumns(entries), Chunks(EntryRows(entries, BatchColumns(entries)), b))
  {
    var rows := EntryRows(entries, BatchColumns(entries));
    assert entries[0..] == entries;
    BatchFromChunks(d, table, BatchColumns(entries), entries, 0, [], b);
    assert [] + rows == rows;
  }

  /** Flushing well-formed rows in blocks of `b`: every block is executed and
      committed, and the table gains one row per value row, in order. */
  lemma FlushAll(d: Db, table: string, columns: seq<string>, rows: seq<seq<string>>, b: nat)
    requires b > 0 && |columns| > 0 && table !in d.refused && RowsAccepted(columns, rows)
    ensures var r := Flush(d, table, columns, Chunks(rows, b));
      && r.ok && r.db.refused == d.refused
      && r.db.log == d.log + FlushEvents(table, columns, Chunks(rows, b))
      && TableRows(r.db, table) == TableRows(d, table) + NewRows(columns, rows, d.nextId)
  {
    var blocks := Chunks(rows, b);
    FlushRefused(d, table, columns, blocks);
    ChunkFlatten(rows, b);
    ChunksAccepted(columns, rows, b);
    FlushAccepted(d, table, columns, blocks);
    FlushRows(d, table, columns, blocks);
  }

  /** The rows of the full blocks: all rows but those after the last full block. */
  function FullPart(rows: seq<seq<string>>, b: nat): (full: seq<seq<string>>)
    requires b > 0
    ensures |full| % b == 0 && full <= rows && |rows| - |full| < b
  {
    DivUnique(|rows| - |rows| % b, b, |rows| / b, 0);
    rows[..|rows| - |rows| % b]
  }

  lemma FullPartShort(rows: seq<seq<string>>, b: nat)
    requires 0 < b && |rows| < b
    ensures FullPart(rows, b) == []
  {
    DivUnique(|rows|, b, 0, |rows|);
  }

  lemma FullPartCons(p: seq<seq<string>>, rest: seq<seq<string>>, b: nat)
    requires b > 0 && |p| == b
    ensures FullPart(p + rest, b) == p + FullPart(rest, b)
  {
    DivStep(|rest|, b);
    var rows := p + rest;
    assert rows[..|rows| - |rows| % b] == p + rest[..|rest| - |rest| % b];
  }

  /** Flushing the full blocks of a full block followed by more rows: that
      block, then the full blocks of the rest. */
  lemma FullPartFlush(d: Db, table: string, columns: seq<string>, p: seq<seq<string>>, rest: seq<seq<string>>, b: nat)
    requires b > 0 && |p| == b
    ensures Flush(d, table, columns, Chunks(FullPart(p + rest, b), b)) ==
      var e := BlockStep(d, table, columns, p);
      if e.ok then Flush(e.db, table, columns, Chunks(FullPart(rest, b), b)) else e
  {
    FullPartCons(p, rest, b);
    FlushHead(d, table, columns, p, FullPart(rest, b), b);
  }

  /** Taking entry `i` into the pending rows leaves the rows to come as they were. */
  lemma PendingCons(entries: seq<Entry>, columns: seq<string>, pending: seq<seq<string>>, i: nat, f: nat)
    requires i < f <= |entries| && NoneFail(entries[i..f], columns)
    ensures NoneFail(entries[i + 1..f], columns)
    ensures pending + EntryRows(entries[i..f], columns)
         == (pending + [EntryRow(entries[i], columns)]) + EntryRows(entries[i + 1..f], columns)
  {
    EntryRowsCons(entries, columns, i, f);
    ConcatAssoc(pending, [EntryRow(entries[i], columns)], EntryRows(entries[i + 1..f], columns));
  }

  /** A failing row at entry `f`: the writer has flushed exactly the full
      blocks before it (stopping early if the store refuses one) and then
      ends with ok false; the rows after the last full block are never sent. */
  lemma {:induction false} BatchFromFails(d: Db, table: string, columns: seq<string>, entries: seq<Entry>, i: nat,
                                          pending: seq<seq<string>>, b: nat, f: nat)
    requires b > 0 && i <= f < |entries| && |pending| < b
    requires RowFails(entries[f], columns) && NoneFail(entries[i..f], columns)
    ensures BatchFrom(d, table, columns, entries, i, pending, b)
         == DbStep(Flush(d, table, columns, Chunks(FullPart(pending + EntryRows(entries[i..f], columns), b), b)).db, false)
    decreases f - i
  {
    if i == f {
      assert pending + EntryRows(entries[i..f], columns) == pending;
      FullPartShort(pending, b);
    } else {
      PendingCons(entries, columns, pending, i, f);
      var p := pending + [EntryRow(entries[i], columns)];
      var rest := EntryRows(entries[i + 1..f], columns);
      FullBlock(|p|, b);
      if |p| % b == 0 {
        FullPartFlush(d, table, columns, p, rest, b);
        var e := BlockStep(d, table, columns, p);
        if e.ok {
          BatchFromFails(e.db, table, columns, entries, i + 1, [], b, f);
          assert [] + rest == rest;
        }
      } else {
        BatchFromFails(d, table, columns, entries, i + 1, p, b, f);
      }
    }
  }

  /** A failing entry ends the writer with ok false. */
  lemma BatchFails(d: Db, table: string, entries: seq<Entry>, b: nat, f: nat)
    requires |entries| > 0 && entries[0].Ok? && b > 0
    requires f < |entries| && RowFails(entries[f], BatchColumns(entries))
    requires NoneFail(entries[..f], BatchColumns(entries))
    ensures BatchSpec(d, table, entries, b)
         == DbStep(Flush(d, table, BatchColumns(entries), Chunks(FullPart(EntryRows(entries[..f], BatchColumns(entries)), b), b)).db, false)
  {
    assert entries[0..f] == entries[..f];
    BatchFromFails(d, table, BatchColumns(entries), entries, 0, [], b, f);
    assert [] + EntryRows(entries[..f], BatchColumns(entries)) == EntryRows(entries[..f], BatchColumns(entries));
  }

  /** Within one block, the writer's test `count % b == 0 and count != 0`
      holds exactly when the block has reached `b` rows. */
  lemma FullBlock(count: nat, b: nat)
    requires 0 < count <= b
    ensures (count % b == 0) <==> count == b
  {
    if count < b {
      DivUnique(count, b, 0, count);
    } else {
      DivUnique(count, b, 1, 0);
    }
  }

  /** The INSERT columns of a record: its keys, less `datecreated` and `ID`. */
  method ColumnsOf(record: Record) returns (columns: seq<string>)
    ensures columns == Keys(Kept(record))
  {
    columns := [];
    for i := 0 to |record|
      invariant columns == Keys(Kept(record[..i]))
    {
      KeptStep(record, i);
      if !StoreFilled(record[i].0) {
        columns := columns + [record[i].0];
      }
    }
    assert record[..|record|] == record;
  }

  /** One value row: `'{entry[column]}'` for each column, or the exception
      that reading a column raises. */
  method RowOf(entry: Entry, columns: seq<string>) returns (ok: bool, values: seq<string>)
    ensures ok <==> !RowFails(entry, columns)
    ensures ok ==> values == EntryRow(entry, columns)
  {
    values := [];
    for j := 0 to |columns|
      invariant entry.Fail? ==> j == 0 && values == []
      invariant entry.Ok? ==> forall k :: 0 <= k < j ==> columns[k] in Keys(entry.value)
      invariant entry.Ok? ==> |values| == j && forall k :: 0 <= k < j ==> Lookup(entry.value, columns[k]) == Some(values[k])
    {
      if entry.Fail? {
        return false, [];
      }
      var v := Lookup(entry.value, columns[j]);
      if v.None? {
        assert !Covers(entry.value, columns);
        return false, [];
      }
      values := values + [v.value];
      assert values[j] == v.value;
    }
    ok := true;
    if entry.Ok? {
      assert values == RowValues(entry.value, columns);
    }
  }

  /** The text of a non-empty block with its final `,\r\n` cut off is the
      multi-row INSERT of exactly the pending rows. */
  lemma BlockText(table: string, columns: seq<string>, pending: seq<seq<string>>)
    requires |pending| >= 1
    ensures var block := BlockHeader(table, columns) + Terminated(",\r\n", RowTexts(pending));
      |block| >= 3 && block[..|block| - 3] == Sql(InsertBlock(table, columns, pending))
  {
    TerminatedIsJoinPlusSep(",\r\n", RowTexts(pending));
    var block := BlockHeader(table, columns) + Terminated(",\r\n", RowTexts(pending));
    assert block == Sql(InsertBlock(table, columns, pending)) + ",\r\n";
  }

  lemma PendingStep(pending: seq<seq<string>>, values: seq<string>)
    ensures Terminated(",\r\n", RowTexts(pending + [values]))
         == Terminated(",\r\n", RowTexts(pending)) + RowText(values) + ",\r\n"
  {
    assert RowTexts(pending + [values]) == RowTexts(pending) + [RowText(values)];
    TerminatedAppend(",\r\n", RowTexts(pending), RowText(values));
  }

  /** Flushing the block: cut the final `,\r\n`, execute, commit if accepted. */
  method FlushPending(store: Store, table: string, columns: seq<string>, block: string, pending: seq<seq<string>>)
    returns (ok: bool)
    requires |pending| >= 1
    requires block == BlockHeader(table, columns) + Terminated(",\r\n", RowTexts(pending))
    modifies store
    ensures DbStep(store.State(), ok) == BlockStep(old(store.State()), table, columns, pending)
  {
    BlockText(table, columns, pending);
    var text := block[..|block| - 3];
    ok := store.Execute(text, InsertBlock(table, columns, pending));
    if ok {
      store.Commit();
    }
  }

  /** One entry of the batch: append its value row to the block, and flush
      the block when the count reaches a multiple of the block size. */
  method AddEntry(store: Store, table: string, columns: seq<string>, entry: Entry, block: string,
                  pending: seq<seq<string>>, count: nat, blockSize: nat,
                  ghost entries: seq<Entry>, ghost i: nat, ghost target: DbStep)
    returns (ok: bool, block': string, pending': seq<seq<string>>, count': nat)
    requires blockSize > 0 && i < |entries| && entries[i] == entry && count == |pending|
    requires block == BlockHeader(table, columns) + Terminated(",\r\n", RowTexts(pending))
    requires BatchFrom(store.State(), table, columns, entries, i, pending, blockSize) == target
    modifies store
    ensures ok ==> BatchFrom(store.State(), table, columns, entries, i + 1, pending', blockSize) == target
    ensures ok ==> block' == BlockHeader(table, columns) + Terminated(",\r\n", RowTexts(pending')) && count' == |pending'|
    ensures !ok ==> DbStep(store.State(), ok) == target
  {
    var rowOk, values := RowOf(entry, columns);
    if !rowOk {
      return false, block, pending, count;
    }
    PendingStep(pending, values);
    ConcatAssoc4(BlockHeader(table, columns), Terminated(",\r\n", RowTexts(pending)), RowText(values), ",\r\n");
    block' := block + RowText(values) + ",\r\n";
    pending' := pending + [values];
    count' := count + 1;
    ok := true;
    if count' % blockSize == 0 && count' != 0 {
      ok := FlushPending(store, table, columns, block', pending');
      block' := BlockHeader(table, columns);
      pending' := [];
      count' := 0;
    }
  }

  method InsertDataToTableBatch(store: Store, table: string, entries: seq<Entry>, blockSize: nat) returns (ok: bool)
    modifies store
    ensures DbStep(store.State(), ok) == BatchSpec(old(store.State()), table, entries, blockSize)
  {
    if |entries| == 0 || entries[0].Fail? || blockSize == 0 {
      return false;
    }
    ghost var target := BatchSpec(store.State(), table, entries, blockSize);
    var columns := ColumnsOf(entries[0].value);
    var header := BlockHeader(table, columns);
    var block := header;
    var pending: seq<seq<string>> := [];
    var count: nat := 0;
    for i := 0 to |entries|
      invariant block == header + Terminated(",\r\n", RowTexts(pending)) && count == |pending|
      invariant BatchFrom(store.State(), table, columns, entries, i, pending, blockSize) == target
    {
      ok, block, pending, count := AddEntry(store, table, columns, entries[i], block, pending, count, blockSize,
                                            entries, i, target);
      if !ok {
        return;
      }
    }
    if count > 0 {
      ok := FlushPending(store, table, columns, block, pending);
    } else {
      ok := true;
    }
  }
}
