/**
  `update_customer_data`: the customer refresh. The customer dump is
  formatted record by record, the `customers` table is cleared, the formatted
  records are written in blocks of 250 and the table is read back into the
  cache.
*/
module Customers {
  import opened Records
  import opened SqlText
  import opened StoreModel
  import opened Writer
  import opened BatchWriter
  import opened Blocks
  import opened Cache
  import opened Formatters

  /** The formatted customers, in dump order, each a record or the exception
      its formatting raised (the fan-out gathers exceptions as results). */
  function CustomerEntries(customers: seq<Record>): (es: seq<Entry>)
    ensures |es| == |customers| && forall i :: 0 <= i < |customers| ==> es[i] == FormatCustomer(customers[i])
  {
    seq(|customers|, i requires 0 <= i < |customers| => FormatCustomer(customers[i]))
  }

  /** `update_customer_data(conn)`: a failed clear ends the pass before any
      insert; an empty dump writes nothing; otherwise the batch writer runs,
      then the table is reloaded. */
  function CustomersSpec(w: World, customers: seq<Record>): Step
  {
    var c := ClearSpec(w.db, "customers");
    if !c.ok then Step(World(c.db, w.cache), false)
    else if |customers| == 0 then Step(World(c.db, w.cache), true)
    else
      var b := BatchSpec(c.db, "customers", CustomerEntries(customers), DefaultBlockSize);
      if !b.ok then Step(World(b.db, w.cache), false)
      else ReloadSpec(World(b.db, w.cache), "customers")
  }

  method UpdateCustomerData(store: Store, cache: TableCache, customers: seq<Record>) returns (ok: bool)
    modifies store, cache
    ensures Step(WorldOf(store, cache), ok) == CustomersSpec(old(WorldOf(store, cache)), customers)
  {
    var results := CustomerEntries(customers);
    var cleared := ClearTable(store, "customers");
    if !cleared {
      return false;
    }
    if |results| > 0 {
      ok := InsertDataToTableBatch(store, "customers", results, DefaultBlockSize);
      if !ok {
        return;
      }
      ok := cache.ReadTable(store, "customers");
    } else {
      ok := true;
    }
  }

  /* ---------------- what the refresh does ---------------- */

  /** The value row the batch writer builds for a formatted customer. */
  function CustomerValues(customer: Record): seq<string>
    requires FormatCustomer(customer).Ok?
  {
    Values(FormatCustomer(customer).value)
  }

  /** A formatted customer has the customer columns, and its value row is
      its values in column order. */
  lemma CustomerRow(customer: Record)
    requires FormatCustomer(customer).Ok?
    ensures var r := FormatCustomer(customer).value;
      && Keys(Kept(r)) == CustomerColumns
      && Covers(r, CustomerColumns)
      && RowValues(r, CustomerColumns) == CustomerValues(customer)
  {
    CustomerKeysOf(customer);
    ColumnsRow(FormatCustomer(customer).value);
  }

  /** A record with the customer columns is written whole and reads back its
      own values. */
  lemma ColumnsRow(r: Record)
    requires Keys(r) == CustomerColumns
    ensures Keys(Kept(r)) == CustomerColumns && Covers(r, CustomerColumns) && RowValues(r, CustomerColumns) == Values(r)
  {
    assert forall i, j :: 0 <= i < j < |r| ==> r[i].0 != r[j].0 by {
      assert forall i :: 0 <= i < |r| ==> r[i].0 == CustomerColumns[i];
    }
    assert forall i :: 0 <= i < |r| ==> !StoreFilled(r[i].0) by {
      assert forall i :: 0 <= i < |r| ==> r[i].0 == CustomerColumns[i];
    }
    DistinctRow(r);
  }

  /** A record with distinct keys, none filled by the store, is written
      whole and reads back its own values. */
  lemma DistinctRow(r: Record)
    requires forall i, j :: 0 <= i < j < |r| ==> r[i].0 != r[j].0
    requires forall i :: 0 <= i < |r| ==> !StoreFilled(r[i].0)
    ensures Keys(Kept(r)) == Keys(r) && Covers(r, Keys(r)) && RowValues(r, Keys(r)) == Values(r)
  {
    assert forall i, j :: 0 <= i < j < |r| ==> Keys(r)[i] != Keys(r)[j] by {
      forall i, j | 0 <= i < j < |r| ensures Keys(r)[i] != Keys(r)[j] {
        assert r[i].0 != r[j].0;
      }
    }
    RowValuesOwn(r);
    KeptAll(r);
  }

  /** A record whose keys are distinct reads back its own values. */
  lemma RowValuesOwn(r: Record)
    requires forall i, j :: 0 <= i < j < |r| ==> Keys(r)[i] != Keys(r)[j]
    ensures Covers(r, Keys(r)) && RowValues(r, Keys(r)) == Values(r)
  {
    assert Covers(r, Keys(r)) by {
      KeysCovered(r);
    }
    assert RowValues(r, Keys(r)) == Values(r) by {
      var ks := Keys(r);
      var rv := RowValues(r, ks);
      var vs := Values(r);
      OwnLookups(r);
      forall j | 0 <= j < |r| ensures rv[j] == vs[j] {
        assert rv[j] == Lookup(r, ks[j]).value;
      }
      SameStrings(rv, vs);
    }
  }

  /** Two value rows that agree at every position are equal. Stated for
      strings apart from `SameItems`: the elements are then compared as
      strings, not as boxed values, which the proof above depends on. */
  lemma SameStrings(a: seq<string>, b: seq<string>)
    requires |a| == |b| && forall j :: 0 <= j < |a| ==> a[j] == b[j]
    ensures a == b
  {
  }

  /** Two sequences that agree at every position are equal. */
  lemma SameItems<T>(a: seq<T>, b: seq<T>)
    requires |a| == |b| && forall j :: 0 <= j < |a| ==> a[j] == b[j]
    ensures a == b
  {
  }

  /** Each key of a record with distinct keys looks up its own value. */
  lemma OwnLookups(r: Record)
    requires forall i, j :: 0 <= i < j < |r| ==> Keys(r)[i] != Keys(r)[j]
    ensures forall j :: 0 <= j < |r| ==> Lookup(r, Keys(r)[j]) == Some(Values(r)[j])
  {
    forall j | 0 <= j < |r| ensures Lookup(r, Keys(r)[j]) == Some(Values(r)[j]) {
      assert forall i :: 0 <= i < j ==> r[i].0 != r[j].0 by {
        forall i | 0 <= i < j ensures r[i].0 != r[j].0 {
          assert Keys(r)[i] != Keys(r)[j];
        }
      }
      LookupAt(r, j);
    }
  }

  /** A record holds each of its own keys. */
  lemma KeysCovered(r: Record)
    ensures Covers(r, Keys(r))
  {
  }

  /** When every customer formats, the batch columns are the customer
      columns and each value row is the formatted customer's values. */
  lemma CustomerRows(customers: seq<Record>)
    requires |customers| > 0
    requires forall i :: 0 <= i < |customers| ==> FormatCustomer(customers[i]).Ok?
    ensures var entries := CustomerEntries(customers);
      && BatchColumns(entries) == CustomerColumns
      && NoneFail(entries, CustomerColumns)
      && forall i :: 0 <= i < |customers| ==> EntryRows(entries, CustomerColumns)[i] == CustomerValues(customers[i])
  {
    var entries := CustomerEntries(customers);
    forall i | 0 <= i < |customers|
      ensures !RowFails(entries[i], CustomerColumns)
      ensures EntryRow(entries[i], CustomerColumns) == CustomerValues(customers[i])
    {
      CustomerRow(customers[i]);
    }
    CustomerRow(customers[0]);
  }

  /** The two identifiers the refresh writes unescaped hold no quote. */
  predicate QuoteFreeIds(customer: Record)
  {
    && (Lookup(customer, "ID").Some? ==> NoQuote(Lookup(customer, "ID").value))
    && (Lookup(customer, "STACKNUMBER").Some? ==> NoQuote(Lookup(customer, "STACKNUMBER").value))
  }

  /** The value rows of the dump, in dump order. */
  function CustomerRowsOf(customers: seq<Record>): (rows: seq<seq<string>>)
    requires forall i :: 0 <= i < |customers| ==> FormatCustomer(customers[i]).Ok?
    ensures |rows| == |customers|
  {
    seq(|customers|, i requires 0 <= i < |customers| => CustomerValues(customers[i]))
  }

  /** A formatted customer with quote-free identifiers is a row of four
      literals the store takes. */
  lemma CustomerValuesAccepted(customer: Record)
    requires FormatCustomer(customer).Ok? && QuoteFreeIds(customer)
    ensures |CustomerValues(customer)| == |CustomerColumns| && AllWellQuoted(CustomerValues(customer))
  {
    var r := FormatCustomer(customer).value;
    assert |r| == 4 && WellQuoted(r[1].1) && NoQuote(r[0].1) && NoQuote(r[2].1) && NoQuote(r[3].1) by {
      CustomerFormatted(customer);
    }
    FourValuesAccepted(r);
  }

  /** Four values whose first, third and fourth hold no quote and whose
      second is well quoted are all well quoted. */
  lemma FourValuesAccepted(r: Record)
    requires |r| == 4 && WellQuoted(r[1].1) && NoQuote(r[0].1) && NoQuote(r[2].1) && NoQuote(r[3].1)
    ensures AllWellQuoted(Values(r))
  {
    QuoteFreeUnchanged(r[0].1);
    QuoteFreeUnchanged(r[2].1);
    QuoteFreeUnchanged(r[3].1);
    assert Values(r) == [r[0].1, r[1].1, r[2].1, r[3].1];
  }

  /** The row the store keeps for a formatted customer holds the customer's
      name as it was in the dump (the doubled quotes read back as one), its
      context and stack ids, `'1'` exactly for a live customer, and the
      identity it was given. */
  lemma CustomerRowDecoded(customer: Record, id: nat)
    requires FormatCustomer(customer).Ok? && QuoteFreeIds(customer)
    ensures var row := NewRow(CustomerColumns, CustomerValues(customer), id);
      && Get(row, "contextid") == Lookup(customer, "ID")
      && Get(row, "customer") == Lookup(customer, "NAME")
      && Get(row, "status") == Some(if Lookup(customer, "L") == Some("Y") then "1" else "0")
      && Get(row, "stackid") == Lookup(customer, "STACKNUMBER")
      && Get(row, "ID") == Some(NatText(id))
  {
    var r := FormatCustomer(customer).value;
    var vs := CustomerValues(customer);
    assert vs == [r[0].1, r[1].1, r[2].1, r[3].1];
    assert && Some(Unescape(vs[0])) == Lookup(customer, "ID")
           && Some(Unescape(vs[1])) == Lookup(customer, "NAME")
           && Unescape(vs[2]) == (if Lookup(customer, "L") == Some("Y") then "1" else "0")
           && Some(Unescape(vs[3])) == Lookup(customer, "STACKNUMBER") by {
      CustomerFormatted(customer);
      QuoteFreeUnchanged(r[0].1);
      QuoteFreeUnchanged(r[2].1);
      QuoteFreeUnchanged(r[3].1);
    }
    CustomerDecoded(vs, id);
  }

  /** The row the store keeps for a customer value row reads each column
      back from its literal. */
  lemma CustomerDecoded(vs: seq<string>, id: nat)
    requires |vs| == |CustomerColumns|
    ensures var row := NewRow(CustomerColumns, vs, id);
      && Get(row, "contextid") == Some(Unescape(vs[0]))
      && Get(row, "customer") == Some(Unescape(vs[1]))
      && Get(row, "status") == Some(Unescape(vs[2]))
      && Get(row, "stackid") == Some(Unescape(vs[3]))
  {
    NewRowAt(CustomerColumns, vs, id, 0);
    NewRowAt(CustomerColumns, vs, id, 1);
    NewRowAt(CustomerColumns, vs, id, 2);
    NewRowAt(CustomerColumns, vs, id, 3);
  }

  /** A clear the store refuses ends the refresh before any insert: only the
      refused TRUNCATE is logged and the tables and the cache are as they were. */
  lemma CustomersClearFailed(w: World, customers: seq<Record>)
    requires "customers" in w.db.refused
    ensures var r := CustomersSpec(w, customers);
      && !r.ok
      && r.w.db.log == w.db.log + [Rejected(Truncate("customers"))]
      && r.w.db.tables == w.db.tables && r.w.cache == w.cache
  {
  }

  /** A refresh the store accepts: the table is cleared, the dump is written
      in blocks of 250 rows, one execute and one commit per block, and read
      back; the store and the cache then hold one row per customer, in dump
      order, each the decoded formatted customer. */
  lemma CustomersRefreshed(w: World, customers: seq<Record>)
    requires |customers| > 0 && "customers" !in w.db.refused
    requires forall i :: 0 <= i < |customers| ==> FormatCustomer(customers[i]).Ok? && QuoteFreeIds(customers[i])
    ensures var r := CustomersSpec(w, customers);
      var rows := CustomerRowsOf(customers);
      && r.ok
      && r.w.db.log == w.db.log + [Executed(Truncate("customers")), Committed]
                        + FlushEvents("customers", CustomerColumns, Chunks(rows, DefaultBlockSize))
                        + [Executed(Select("customers"))]
      && InSync(r.w, "customers")
      && TableRows(r.w.db, "customers") == NewRows(CustomerColumns, rows, w.db.nextId)
  {
    var entries := CustomerEntries(customers);
    var rows := CustomerRowsOf(customers);
    assert && BatchColumns(entries) == CustomerColumns && NoneFail(entries, CustomerColumns)
           && EntryRows(entries, CustomerColumns) == rows by {
      CustomerRows(customers);
    }
    assert RowsAccepted(CustomerColumns, rows) by {
      forall i | 0 <= i < |rows| ensures |rows[i]| == |CustomerColumns| && AllWellQuoted(rows[i]) {
        CustomerValuesAccepted(customers[i]);
      }
    }
    ClearedBatchReloaded(w, entries, rows);
  }

  /** The clear, the batch of the given entries and the reload, when every
      row of the entries is one the store takes. */
  lemma ClearedBatchReloaded(w: World, entries: seq<Entry>, rows: seq<seq<string>>)
    requires |entries| > 0 && entries[0].Ok? && "customers" !in w.db.refused
    requires BatchColumns(entries) == CustomerColumns && NoneFail(entries, CustomerColumns)
    requires EntryRows(entries, CustomerColumns) == rows && RowsAccepted(CustomerColumns, rows)
    ensures var c := ClearSpec(w.db, "customers");
      var b := BatchSpec(c.db, "customers", entries, DefaultBlockSize);
      var r := ReloadSpec(World(b.db, w.cache), "customers");
      && c.ok && b.ok && r.ok
      && r.w.db.log == w.db.log + [Executed(Truncate("customers")), Committed]
                        + FlushEvents("customers", CustomerColumns, Chunks(rows, DefaultBlockSize))
                        + [Executed(Select("customers"))]
      && InSync(r.w, "customers")
      && TableRows(r.w.db, "customers") == NewRows(CustomerColumns, rows, w.db.nextId)
  {
    var c := ClearSpec(w.db, "customers");
    BatchAccepted(c.db, "customers", entries, DefaultBlockSize);
    var b := BatchSpec(c.db, "customers", entries, DefaultBlockSize);
    ReloadSyncs(World(b.db, w.cache), "customers");
  }

  /** Row `i` of the refreshed table is customer `i` of the dump. */
  lemma CustomerRefreshedRow(customers: seq<Record>, id: nat, i: nat)
    requires i < |customers|
    requires forall k :: 0 <= k < |customers| ==> FormatCustomer(customers[k]).Ok? && QuoteFreeIds(customers[k])
    ensures var row := NewRows(CustomerColumns, CustomerRowsOf(customers), id)[i];
      && Get(row, "customer") == Lookup(customers[i], "NAME")
      && Get(row, "contextid") == Lookup(customers[i], "ID")
      && Get(row, "status") == Some(if Lookup(customers[i], "L") == Some("Y") then "1" else "0")
      && Get(row, "stackid") == Lookup(customers[i], "STACKNUMBER")
  {
    NewRowsAt(CustomerColumns, CustomerRowsOf(customers), id, i);
    CustomerRowDecoded(customers[i], id + i);
  }

  /** A customer that does not format (a missing key) fails the refresh
      after the clear: the store is the cleared store after the flush of the
      full blocks of 250 rows before that customer (stopping at a refused
      block), the table is not read back and the cache is as it was; with
      fewer than 250 customers before it, the table is left empty. */
  lemma CustomersFormatFailed(w: World, customers: seq<Record>, f: nat)
    requires "customers" !in w.db.refused
    requires f < |customers| && FormatCustomer(customers[f]).Fail?
    requires forall i :: 0 <= i < f ==> FormatCustomer(customers[i]).Ok?
    ensures var r := CustomersSpec(w, customers);
      var c := ClearSpec(w.db, "customers");
      var full := FullPart(CustomerRowsOf(customers[..f]), DefaultBlockSize);
      && !r.ok && r.w.cache == w.cache
      && r.w.db == Flush(c.db, "customers", CustomerColumns, Chunks(full, DefaultBlockSize)).db
      && (f < DefaultBlockSize ==>
            && TableRows(r.w.db, "customers") == []
            && r.w.db.log == w.db.log + [Executed(Truncate("customers")), Committed])
  {
    var c := ClearSpec(w.db, "customers");
    var rows := CustomerRowsOf(customers[..f]);
    if f > 0 {
      CustomerPrefix(customers, f);
      BatchFails(c.db, "customers", CustomerEntries(customers), DefaultBlockSize, f);
      PrefixRows(customers, f);
    } else {
      assert rows == [];
    }
    if f < DefaultBlockSize {
      FullPartShort(rows, DefaultBlockSize);
    }
  }

  /** The same failure when the customers before it have quote-free ids:
      every full block before it is written, so the log holds the clear and
      one INSERT and commit per full block, and the table holds exactly the
      rows of those blocks, in dump order. */
  lemma CustomersPartlyWritten(w: World, customers: seq<Record>, f: nat)
    requires "customers" !in w.db.refused
    requires f < |customers| && FormatCustomer(customers[f]).Fail?
    requires forall i :: 0 <= i < f ==> FormatCustomer(customers[i]).Ok? && QuoteFreeIds(customers[i])
    ensures var r := CustomersSpec(w, customers);
      var full := FullPart(CustomerRowsOf(customers[..f]), DefaultBlockSize);
      && !r.ok && r.w.cache == w.cache
      && r.w.db.log == w.db.log + [Executed(Truncate("customers")), Committed]
                        + FlushEvents("customers", CustomerColumns, Chunks(full, DefaultBlockSize))
      && TableRows(r.w.db, "customers") == NewRows(CustomerColumns, full, w.db.nextId)
  {
    var c := ClearSpec(w.db, "customers");
    var rows := CustomerRowsOf(customers[..f]);
    var full := FullPart(rows, DefaultBlockSize);
    CustomersFormatFailed(w, customers, f);
    assert RowsAccepted(CustomerColumns, full) by {
      forall i | 0 <= i < |full| ensures |full[i]| == |CustomerColumns| && AllWellQuoted(full[i]) {
        assert full[i] == rows[i] == CustomerValues(customers[i]);
        CustomerValuesAccepted(customers[i]);
      }
    }
    FlushAll(c.db, "customers", CustomerColumns, full, DefaultBlockSize);
    assert TableRows(c.db, "customers") == [];
  }

  /** The value rows of the customers before `f`, as the batch writer takes
      them from the entries of the whole dump. */
  lemma PrefixRows(customers: seq<Record>, f: nat)
    requires 0 < f <= |customers|
    requires forall i :: 0 <= i < f ==> FormatCustomer(customers[i]).Ok?
    ensures NoneFail(CustomerEntries(customers)[..f], CustomerColumns)
    ensures EntryRows(CustomerEntries(customers)[..f], CustomerColumns) == CustomerRowsOf(customers[..f])
  {
    var prefix := customers[..f];
    var es := CustomerEntries(prefix);
    assert es == CustomerEntries(customers)[..f] by {
      var all := CustomerEntries(customers)[..f];
      forall i | 0 <= i < |es| ensures es[i] == all[i] {
        assert prefix[i] == customers[i];
      }
      SameItems(es, all);
    }
    assert NoneFail(es, CustomerColumns) && EntryRows(es, CustomerColumns) == CustomerRowsOf(prefix) by {
      CustomerRows(prefix);
      var a := EntryRows(es, CustomerColumns);
      var b := CustomerRowsOf(prefix);
      forall i | 0 <= i < |a| ensures a[i] == b[i] {
      }
      SameItems(a, b);
    }
  }

  /** The customers before the first one that does not format give value
      rows; that one fails its row. */
  lemma CustomerPrefix(customers: seq<Record>, f: nat)
    requires 0 < f < |customers| && FormatCustomer(customers[f]).Fail?
    requires forall i :: 0 <= i < f ==> FormatCustomer(customers[i]).Ok?
    ensures var entries := CustomerEntries(customers);
      && entries[0].Ok? && BatchColumns(entries) == CustomerColumns
      && NoneFail(entries[..f], CustomerColumns) && RowFails(entries[f], CustomerColumns)
  {
    var entries := CustomerEntries(customers);
    CustomerRow(customers[0]);
    forall i | 0 <= i < f ensures !RowFails(entries[..f][i], CustomerColumns) {
      CustomerRow(customers[i]);
    }
  }
}
