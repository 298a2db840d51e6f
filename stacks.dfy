/**
  `update_stack_data`: the reconciliation of the stack records found by the
  DNS lookups with the `stacks`, `webpools` and `webs` tables. A stack is
  inserted when the cache does not hold it and otherwise has the location
  columns that differ updated; each of its two web pools is inserted when
  absent, and each web of a pool is inserted when the cache does not hold it.
*/
module Stacks {
  import opened Records
  import opened SqlText
  import opened StoreModel
  import opened Writer
  import opened Cache
  import opened Blocks

  /** One stack record of the lookups: the stack name, its three locations,
      and for the `prod` and `remote` locations the web pool name and the
      comma-separated list of its webs. */
  datatype StackSource = StackSource(
    stack: string,
    localLocation: string, prodLocation: string, remoteLocation: string,
    prodWebpoolName: string, prodWebpool: string,
    remoteWebpoolName: string, remoteWebpool: string)

  /** The location columns of a stack row, with the record's values. */
  function Locations(s: StackSource): Record
  {
    [("locallocation", s.localLocation), ("prodlocation", s.prodLocation), ("remotelocation", s.remoteLocation)]
  }

  /** The `stacks` row of a record. */
  function StackRecord(s: StackSource): Record
  {
    [("Stack", s.stack)] + Locations(s)
  }

  /** The pairs whose column the cached row does not hold with that value, in
      order: the SET list of the stack's UPDATE. */
  function Differing(row: Row, pairs: Record): (d: Record)
    ensures |d| <= |pairs|
  {
    if pairs == [] then []
    else DiffersAt(row, pairs[0]) + Differing(row, pairs[1..])
  }

  /** One pair of the SET list, when the cached row differs there. */
  function DiffersAt(row: Row, p: (string, string)): Record
  {
    if Get(row, p.0) != Some(p.1) then [p] else []
  }

  lemma DifferingThree(row: Row, a: (string, string), b: (string, string), c: (string, string))
    ensures Differing(row, [a, b, c]) == DiffersAt(row, a) + DiffersAt(row, b) + DiffersAt(row, c)
  {
    assert [a, b, c][1..] == [b, c];
    assert [b, c][1..] == [c];
    assert [c][1..] == [];
    assert Differing(row, [c]) == DiffersAt(row, c);
    assert Differing(row, [b, c]) == DiffersAt(row, b) + DiffersAt(row, c);
  }

  /** The stack part of one record: insert and reload when the cache has no
      row of that stack name, otherwise update the differing locations of
      the rows `WHERE stack = '<name>'`, issuing nothing when none differs. */
  function StackStep(w: World, s: StackSource): Step
  {
    var rows := Cached(w.cache, "stacks");
    match FirstWhere(rows, "Stack", s.stack)
    case None => InsertReload(w, "stacks", StackRecord(s))
    case Some(k) =>
      var sets := Differing(rows[k], Locations(s));
      if sets == [] then Step(w, true)
      else OnDb(w, UpdateSpec(w.db, "stacks", sets, "stack", s.stack))
  }

  /** A world after a step, with the identity found on the way. */
  datatype Resolved = Resolved(step: Step, id: string)

  /** The `webpools` row of a pool: its name and the stack's name. */
  function WebpoolRecord(name: string, stack: string): Record
  {
    [("name", name), ("stackid", stack)]
  }

  /** The identity of the web pool `name`: the first cached pool of that name,
      or else the pool inserted, reloaded and searched again (`[0]` of an
      empty list raises). */
  function WebpoolSpec(w: World, name: string, stack: string): Resolved
  {
    var rows := Cached(w.cache, "webpools");
    match FirstWhere(rows, "name", name)
    case Some(k) => Resolved(Step(w, true), IdOf(rows[k]))
    case None =>
      var l := InsertReload(w, "webpools", WebpoolRecord(name, stack));
      if !l.ok then Resolved(l, "")
      else
        var reloaded := Cached(l.w.cache, "webpools");
        match FirstWhere(reloaded, "name", name)
        case None => Resolved(Step(l.w, false), "")
        case Some(k) => Resolved(l, IdOf(reloaded[k]))
  }

  /** The `webs` row of a web. */
  function WebRecord(web: string, poolId: string): Record
  {
    [("name", web), ("webpoolid", poolId)]
  }

  /** One web: inserted when the cache holds no web of that name. */
  function WebStep(w: World, web: string, poolId: string): Step
  {
    if FirstWhere(Cached(w.cache, "webs"), "name", web).Some? then Step(w, true)
    else InsertStep(w, "webs", WebRecord(web, poolId))
  }

  /** The webs of a pool in list order; the cache is not reloaded between
      them, the first failing insert ends the loop. */
  function WebsSpec(w: World, webs: seq<string>, poolId: string): Step
    decreases |webs|
  {
    if webs == [] then Step(w, true)
    else
      var first := WebStep(w, webs[0], poolId);
      if first.ok then WebsSpec(first.w, webs[1..], poolId) else first
  }

  /** One location of a record: its web pool, then its webs, then a reload
      of the `webs` table. */
  function LocationSpec(w: World, stack: string, poolName: string, pool: string): Step
  {
    var p := WebpoolSpec(w, poolName, stack);
    if !p.step.ok then p.step
    else
      var ws := WebsSpec(p.step.w, Split(pool, ','), p.id);
      if ws.ok then ReloadSpec(ws.w, "webs") else ws
  }

  /** One record: the stack, then the `prod` location, then the `remote` one. */
  function RecordSpec(w: World, s: StackSource): Step
  {
    var st := StackStep(w, s);
    if !st.ok then st
    else
      var prod := LocationSpec(st.w, s.stack, s.prodWebpoolName, s.prodWebpool);
      if !prod.ok then prod
      else LocationSpec(prod.w, s.stack, s.remoteWebpoolName, s.remoteWebpool)
  }

  /** `update_stack_data`: the records in order, the first failure ending the pass. */
  function StacksSpec(w: World, sources: seq<StackSource>): Step
    decreases |sources|
  {
    if sources == [] then Step(w, true)
    else
      var first := RecordSpec(w, sources[0]);
      if first.ok then StacksSpec(first.w, sources[1..]) else first
  }

  /* ---------------- what a stack step does ---------------- */

  predicate DistinctColumns(r: Record)
  {
    forall i, j :: 0 <= i < j < |r| ==> r[i].0 != r[j].0
  }

  /** The SET list holds exactly the pairs whose column the cached row does
      not hold with that value; it is empty exactly when the row agrees on
      every pair. */
  lemma {:induction false} DifferingExact(row: Row, pairs: Record)
    ensures forall p :: p in Differing(row, pairs) <==> p in pairs && Get(row, p.0) != Some(p.1)
    ensures Differing(row, pairs) == [] <==> forall i :: 0 <= i < |pairs| ==> Get(row, pairs[i].0) == Some(pairs[i].1)
    decreases |pairs|
  {
    if pairs != [] {
      DifferingExact(row, pairs[1..]);
      assert forall p :: p in pairs <==> p == pairs[0] || p in pairs[1..];
      assert forall i :: 0 < i < |pairs| ==> pairs[i] == pairs[1..][i - 1];
    }
  }

  /** No column is set twice. */
  lemma {:induction false} DifferingDistinct(row: Row, pairs: Record)
    requires DistinctColumns(pairs)
    ensures DistinctColumns(Differing(row, pairs))
    decreases |pairs|
  {
    if pairs != [] {
      DifferingDistinct(row, pairs[1..]);
      DifferingExact(row, pairs[1..]);
      var rest := Differing(row, pairs[1..]);
      forall i | 0 <= i < |rest| ensures rest[i].0 != pairs[0].0 {
        assert rest[i] in pairs[1..];
      }
    }
  }

  lemma LocationsDistinct(s: StackSource)
    ensures DistinctColumns(Locations(s))
  {
  }

  /** A stack the cache holds is never inserted: when its cached row agrees
      on all three locations nothing is issued, otherwise one UPDATE of the
      `stacks` rows `WHERE stack = '<name>'` sets exactly the locations that
      differ, each once, to the record's values, and the cache is not reloaded. */
  lemma StackSeen(w: World, s: StackSource)
    requires FirstWhere(Cached(w.cache, "stacks"), "Stack", s.stack).Some?
    ensures var rows := Cached(w.cache, "stacks");
      var row := rows[FirstWhere(rows, "Stack", s.stack).value];
      var sets := Differing(row, Locations(s));
      var update := Update("stacks", sets, "stack", s.stack);
      var r := StackStep(w, s);
      && (forall p :: p in sets <==> p in Locations(s) && Get(row, p.0) != Some(p.1))
      && DistinctColumns(sets)
      && r.w.cache == w.cache
      && (sets == [] ==> r == Step(w, true))
      && (sets != [] ==>
            && (r.ok <==> "stacks" !in w.db.refused && WellQuoted(s.stack) && forall i :: 0 <= i < |sets| ==> WellQuoted(sets[i].1))
            && r.w.db.log == w.db.log + if r.ok then [Executed(update), Committed] else [Rejected(update)])
  {
    var rows := Cached(w.cache, "stacks");
    var row := rows[FirstWhere(rows, "Stack", s.stack).value];
    DifferingExact(row, Locations(s));
    LocationsDistinct(s);
    DifferingDistinct(row, Locations(s));
    UpdateEffect(w.db, "stacks", Differing(row, Locations(s)), "stack", s.stack);
  }

  /** The record's `stacks` row has no column the store fills. */
  lemma StackRecordPlain(s: StackSource)
    ensures forall i :: 0 <= i < |StackRecord(s)| ==> !StoreFilled(StackRecord(s)[i].0)
    ensures Keys(Kept(StackRecord(s))) == ["Stack", "locallocation", "prodlocation", "remotelocation"]
  {
    KeptAll(StackRecord(s));
  }

  /** A stack the cache does not hold is inserted and the `stacks` table
      reloaded, with no UPDATE: the store gains one row holding the record's
      values, and the cache then holds the store's rows. */
  lemma StackUnseen(w: World, s: StackSource)
    requires FirstWhere(Cached(w.cache, "stacks"), "Stack", s.stack).None?
    ensures var r := StackStep(w, s);
      var rows := TableRows(r.w.db, "stacks");
      && (r.ok <==> "stacks" !in w.db.refused)
      && (r.ok ==> r.w.db.log == w.db.log + [Executed(InsertOneStatement("stacks", StackRecord(s))), Committed, Executed(Select("stacks"))])
      && (r.ok ==> InSync(r.w, "stacks"))
      && (r.ok ==> rows == TableRows(w.db, "stacks") + [WrittenRow(StackRecord(s), w.db.nextId)])
      && (forall c :: c != "ID" ==> Get(WrittenRow(StackRecord(s), w.db.nextId), c) == Lookup(StackRecord(s), c))
  {
    StackRecordPlain(s);
    assert StackStep(w, s) == InsertReload(w, "stacks", StackRecord(s));
    InsertReloaded(w, "stacks", StackRecord(s));
    WrittenRowHolds(StackRecord(s), w.db.nextId);
  }

  /** The row the store creates for a new stack holds the stack name and
      agrees with the record on every location. */
  lemma StackRowAgrees(s: StackSource, id: nat)
    ensures Get(WrittenRow(StackRecord(s), id), "Stack") == Some(s.stack)
    ensures Differing(WrittenRow(StackRecord(s), id), Locations(s)) == []
  {
    var row := WrittenRow(StackRecord(s), id);
    StackRecordLookups(s);
    StackRecordPlain(s);
    WrittenRowHolds(StackRecord(s), id);
    assert forall i :: 0 <= i < |Locations(s)| ==> Get(row, Locations(s)[i].0) == Some(Locations(s)[i].1);
    DifferingExact(row, Locations(s));
  }

  /** The record's `stacks` row gives each of its columns its value. */
  lemma StackRecordLookups(s: StackSource)
    ensures Lookup(StackRecord(s), "Stack") == Some(s.stack)
    ensures forall i :: 0 <= i < |Locations(s)| ==> Lookup(StackRecord(s), Locations(s)[i].0) == Some(Locations(s)[i].1)
  {
    var r := StackRecord(s);
    assert DistinctColumns(r);
    LookupAt(r, 0);
    forall i | 0 <= i < |Locations(s)| ensures Lookup(r, Locations(s)[i].0) == Some(Locations(s)[i].1) {
      assert Locations(s)[i] == r[i + 1];
      LookupAt(r, i + 1);
    }
  }

  /** Setting location columns leaves the stack names where they were, so
      the search for a stack finds the same row after the UPDATE. */
  lemma UpdateKeepsStack(rows: seq<Row>, s: StackSource, sets: seq<(string, string)>, name: string, value: string)
    requires forall i :: 0 <= i < |sets| ==> sets[i] in Locations(s)
    ensures FirstWhere(Updated(rows, sets, "stack", value), "Stack", name) == FirstWhere(rows, "Stack", name)
  {
    var rows' := Updated(rows, sets, "stack", value);
    forall j | 0 <= j < |rows| ensures Get(rows'[j], "Stack") == Get(rows[j], "Stack") {
      UpdatedAt(rows, sets, "stack", value, j);
      SetColumnsOther(rows[j], sets, "Stack");
    }
    FirstWhereSame(rows', rows, "Stack", name);
  }

  /** Once the differing locations of a stack's row are set from quote-free
      values, the row agrees with the record on every location. */
  lemma UpdatedRowAgrees(row: Row, s: StackSource)
    requires NoQuote(s.localLocation) && NoQuote(s.prodLocation) && NoQuote(s.remoteLocation)
    ensures Differing(SetColumns(row, Differing(row, Locations(s))), Locations(s)) == []
  {
    var locs := Locations(s);
    var sets := Differing(row, locs);
    var row' := SetColumns(row, sets);
    DifferingExact(row, locs);
    LocationsDistinct(s);
    DifferingDistinct(row, locs);
    forall i | 0 <= i < |locs| ensures Get(row', locs[i].0) == Some(locs[i].1) {
      var p := locs[i];
      assert NoQuote(p.1);
      QuoteFreeUnchanged(p.1);
      if p in sets {
        var j :| 0 <= j < |sets| && sets[j] == p;
        SetColumnsAt(row, sets, j);
      } else {
        forall j | 0 <= j < |sets| ensures sets[j].0 != p.0 {
          assert sets[j] in locs;
        }
        SetColumnsOther(row, sets, p.0);
      }
    }
    DifferingExact(row', locs);
  }

  /** `WHERE stack = '<name>'` matches a row whose `Stack` is the name. */
  lemma StackMatches(row: Row, name: string)
    requires Get(row, "Stack") == Some(name)
    ensures Matches(row, "stack", name)
  {
    assert Lower("Stack") == Lower("stack");
  }

  /** Reconciling a stack is idempotent: with the cache in step with the
      store and quote-free values, once the stack has been reconciled and its
      table reloaded, reconciling it again issues nothing. */
  lemma StackIdempotent(w: World, s: StackSource)
    requires InSync(w, "stacks")
    requires NoQuote(s.stack) && NoQuote(s.localLocation) && NoQuote(s.prodLocation) && NoQuote(s.remoteLocation)
    requires StackStep(w, s).ok && ReloadSpec(StackStep(w, s).w, "stacks").ok
    ensures var l := ReloadSpec(StackStep(w, s).w, "stacks");
      StackStep(l.w, s) == Step(l.w, true)
  {
    if FirstWhere(Cached(w.cache, "stacks"), "Stack", s.stack).None? {
      InsertedStackSettled(w, s);
    } else {
      UpdatedStackSettled(w, s);
    }
  }

  /** `StackIdempotent` for a stack the cache did not hold: the reloaded
      cache finds the inserted row, which agrees on all three locations. */
  lemma InsertedStackSettled(w: World, s: StackSource)
    requires FirstWhere(Cached(w.cache, "stacks"), "Stack", s.stack).None?
    requires InSync(w, "stacks")
    requires NoQuote(s.stack) && NoQuote(s.localLocation) && NoQuote(s.prodLocation) && NoQuote(s.remoteLocation)
    requires StackStep(w, s).ok && ReloadSpec(StackStep(w, s).w, "stacks").ok
    ensures var l := ReloadSpec(StackStep(w, s).w, "stacks");
      StackStep(l.w, s) == Step(l.w, true)
  {
    var rows := Cached(w.cache, "stacks");
    var r := StackStep(w, s);
    ReloadSyncs(r.w, "stacks");
    StackUnseen(w, s);
    StackRowAgrees(s, w.db.nextId);
    FirstWhereAppend(rows, WrittenRow(StackRecord(s), w.db.nextId), "Stack", s.stack);
  }

  /** `StackIdempotent` for a stack the cache held: the UPDATE left the
      first matching row agreeing on all three locations. */
  lemma UpdatedStackSettled(w: World, s: StackSource)
    requires FirstWhere(Cached(w.cache, "stacks"), "Stack", s.stack).Some?
    requires InSync(w, "stacks")
    requires NoQuote(s.stack) && NoQuote(s.localLocation) && NoQuote(s.prodLocation) && NoQuote(s.remoteLocation)
    requires StackStep(w, s).ok && ReloadSpec(StackStep(w, s).w, "stacks").ok
    ensures var l := ReloadSpec(StackStep(w, s).w, "stacks");
      StackStep(l.w, s) == Step(l.w, true)
  {
    var rows := Cached(w.cache, "stacks");
    var k := FirstWhere(rows, "Stack", s.stack).value;
    var r := StackStep(w, s);
    var l := ReloadSpec(r.w, "stacks");
    ReloadSyncs(r.w, "stacks");
    var rows' := Cached(l.w.cache, "stacks");
    assert rows' == TableRows(r.w.db, "stacks");
    StackSeen(w, s);
    var sets := Differing(rows[k], Locations(s));
    if sets != [] {
      UpdateEffect(w.db, "stacks", sets, "stack", s.stack);
      QuoteFreeUnchanged(s.stack);
      assert rows' == Updated(rows, sets, "stack", s.stack);
      UpdateKeepsStack(rows, s, sets, s.stack, s.stack);
      UpdatedAt(rows, sets, "stack", s.stack, k);
      StackMatches(rows[k], s.stack);
      UpdatedRowAgrees(rows[k], s);
    }
  }

  /* ---------------- what a location step does ---------------- */

  /** A pool the cache holds is used as it is. A pool it does not hold is
      inserted and the `webpools` table reloaded, which goes through exactly
      when that table is not refused; and whenever the step goes through,
      the search in the reloaded cache finds the pool, so the `[0]` never
      raises, and the identity is that of the first cached pool of the name. */
  lemma WebpoolResolved(w: World, name: string, stack: string)
    ensures var r := WebpoolSpec(w, name, stack);
      var rows := Cached(w.cache, "webpools");
      var found := FirstWhere(rows, "name", name);
      && (found.Some? ==> r == Resolved(Step(w, true), IdOf(rows[found.value])))
      && (found.None? ==> (r.step.ok <==> "webpools" !in w.db.refused))
      && (found.None? && r.step.ok ==>
            r.step.w.db.log == w.db.log + [Executed(InsertOneStatement("webpools", WebpoolRecord(name, stack))), Committed, Executed(Select("webpools"))])
      && (r.step.ok ==>
            var rows' := Cached(r.step.w.cache, "webpools");
            var found' := FirstWhere(rows', "name", name);
            found'.Some? && r.id == IdOf(rows'[found'.value]))
  {
    var rows := Cached(w.cache, "webpools");
    if FirstWhere(rows, "name", name).None? {
      var record := WebpoolRecord(name, stack);
      InsertReloaded(w, "webpools", record);
      var l := InsertReload(w, "webpools", record);
      if l.ok {
        var written := WrittenRow(record, w.db.nextId);
        WrittenRowHolds(record, w.db.nextId);
        LookupAt(record, 0);
        assert Get(written, "name") == Some(name);
        FirstWhereAppend(TableRows(w.db, "webpools"), written, "name", name);
      }
    }
  }

  /** The webs of a list the cache does not hold, in list order; a web
      listed twice is there twice, as the cache is not reloaded between webs. */
  function Absent(webs: seq<string>, rows: seq<Row>): (a: seq<string>)
    ensures |a| <= |webs|
  {
    if webs == [] then []
    else (if FirstWhere(rows, "name", webs[0]).None? then [webs[0]] else []) + Absent(webs[1..], rows)
  }

  /** The log of inserting each web of a list into the pool. */
  function WebEvents(webs: seq<string>, poolId: string): seq<Event>
  {
    if webs == [] then []
    else [Executed(InsertOneStatement("webs", WebRecord(webs[0], poolId))), Committed] + WebEvents(webs[1..], poolId)
  }

  /** The webs loop leaves the cache and the refused tables as they were. */
  lemma {:induction false} WebsKeepCache(w: World, webs: seq<string>, poolId: string)
    ensures var r := WebsSpec(w, webs, poolId);
      r.w.cache == w.cache && r.w.db.refused == w.db.refused
    decreases |webs|
  {
    if webs != [] {
      var first := WebStep(w, webs[0], poolId);
      WebStepEffect(w, webs[0], poolId);
      if first.ok {
        WebsKeepCache(first.w, webs[1..], poolId);
      }
    }
  }

  /** The webs loop fails exactly when some web is absent from the cache and
      the `webs` table is refused. */
  lemma {:induction false} WebsFail(w: World, webs: seq<string>, poolId: string)
    ensures WebsSpec(w, webs, poolId).ok <==> Absent(webs, Cached(w.cache, "webs")) == [] || "webs" !in w.db.refused
    decreases |webs|
  {
    if webs != [] {
      var first := WebStep(w, webs[0], poolId);
      WebStepEffect(w, webs[0], poolId);
      if first.ok {
        WebsFail(first.w, webs[1..], poolId);
      }
    }
  }

  /** Webs are insert-if-absent only: one INSERT and commit per list entry
      the cache does not hold, in list order, and nothing else is issued; a
      web listed twice is inserted twice, as the cache is not reloaded
      between webs. */
  lemma {:induction false} WebsInserted(w: World, webs: seq<string>, poolId: string)
    requires WebsSpec(w, webs, poolId).ok
    ensures WebsSpec(w, webs, poolId).w.db.log == w.db.log + WebEvents(Absent(webs, Cached(w.cache, "webs")), poolId)
    decreases |webs|
  {
    if webs != [] {
      var rows := Cached(w.cache, "webs");
      var first := WebStep(w, webs[0], poolId);
      WebStepEffect(w, webs[0], poolId);
      WebsInserted(first.w, webs[1..], poolId);
      AbsentCons(webs, rows);
      if FirstWhere(rows, "name", webs[0]).None? {
        WebEventsCons(webs[0], Absent(webs[1..], rows), poolId);
        ConcatAssoc(w.db.log, WebEvents([webs[0]], poolId), WebEvents(Absent(webs[1..], rows), poolId));
      }
    }
  }

  /** The absent webs, one web at a time. */
  lemma AbsentCons(webs: seq<string>, rows: seq<Row>)
    requires webs != []
    ensures Absent(webs, rows) ==
      if FirstWhere(rows, "name", webs[0]).None? then [webs[0]] + Absent(webs[1..], rows) else Absent(webs[1..], rows)
  {
  }

  /** The log of the webs inserted, one web at a time. */
  lemma WebEventsCons(web: string, rest: seq<string>, poolId: string)
    ensures WebEvents([web] + rest, poolId) == WebEvents([web], poolId) + WebEvents(rest, poolId)
    ensures WebEvents([web], poolId) == [Executed(InsertOneStatement("webs", WebRecord(web, poolId))), Committed]
  {
    assert ([web] + rest)[1..] == rest;
  }

  /** One web: nothing when the cache holds it, else one INSERT and commit,
      which go through exactly when the `webs` table is not refused. */
  lemma WebStepEffect(w: World, web: string, poolId: string)
    ensures var r := WebStep(w, web, poolId);
      && r.w.cache == w.cache
      && r.w.db.refused == w.db.refused
      && (FirstWhere(Cached(w.cache, "webs"), "name", web).Some? ==> r == Step(w, true))
      && (FirstWhere(Cached(w.cache, "webs"), "name", web).None? ==>
            && (r.ok <==> "webs" !in w.db.refused)
            && (r.ok ==> r.w.db.log == w.db.log + [Executed(InsertOneStatement("webs", WebRecord(web, poolId))), Committed]))
  {
    InsertOneEffect(w.db, "webs", WebRecord(web, poolId));
  }

  /* ---------------- the reconciler ---------------- */

  /** The three column checks against the cached row, building the SET list. */
  method ChangedColumns(entry: Row, s: StackSource) returns (sets: seq<(string, string)>)
    ensures sets == Differing(entry, Locations(s))
  {
    sets := [];
    if Get(entry, "locallocation") != Some(s.localLocation) {
      sets := sets + [("locallocation", s.localLocation)];
    }
    if Get(entry, "prodlocation") != Some(s.prodLocation) {
      sets := sets + [("prodlocation", s.prodLocation)];
    }
    if Get(entry, "remotelocation") != Some(s.remoteLocation) {
      sets := sets + [("remotelocation", s.remoteLocation)];
    }
    DifferingThree(entry, Locations(s)[0], Locations(s)[1], Locations(s)[2]);
  }

  method UpdateStack(store: Store, cache: TableCache, s: StackSource) returns (ok: bool)
    modifies store, cache
    ensures Step(WorldOf(store, cache), ok) == StackStep(old(WorldOf(store, cache)), s)
  {
    var rows := Cached(cache.tables, "stacks");
    var found := FirstWhere(rows, "Stack", s.stack);
    if found.None? {
      var written;
      ok, written := InsertDataToTable(store, "stacks", StackRecord(s));
      if ok {
        ok := cache.ReadTable(store, "stacks");
      }
    } else {
      var sets := ChangedColumns(rows[found.value], s);
      if sets != [] {
        ok := UpdateDataTable(store, "stacks", sets, "stack", s.stack);
      } else {
        ok := true;
      }
    }
  }

  method ResolveWebpool(store: Store, cache: TableCache, name: string, stack: string) returns (ok: bool, id: string)
    modifies store, cache
    ensures Resolved(Step(WorldOf(store, cache), ok), id) == WebpoolSpec(old(WorldOf(store, cache)), name, stack)
  {
    var found := FirstWhere(Cached(cache.tables, "webpools"), "name", name);
    if found.Some? {
      return true, IdOf(Cached(cache.tables, "webpools")[found.value]);
    }
    var written;
    ok, written := InsertDataToTable(store, "webpools", WebpoolRecord(name, stack));
    if !ok {
      return false, "";
    }
    ok := cache.ReadTable(store, "webpools");
    if !ok {
      return false, "";
    }
    var rows := Cached(cache.tables, "webpools");
    found := FirstWhere(rows, "name", name);
    if found.None? {
      return false, "";
    }
    id := IdOf(rows[found.value]);
  }

  method InsertWebs(store: Store, cache: TableCache, webs: seq<string>, poolId: string) returns (ok: bool)
    modifies store
    ensures Step(WorldOf(store, cache), ok) == WebsSpec(old(WorldOf(store, cache)), webs, poolId)
  {
    var i := 0;
    while i < |webs|
      invariant 0 <= i <= |webs|
      invariant WebsSpec(WorldOf(store, cache), webs[i..], poolId) == WebsSpec(old(WorldOf(store, cache)), webs, poolId)
    {
      assert webs[i..][1..] == webs[i + 1..];
      if FirstWhere(Cached(cache.tables, "webs"), "name", webs[i]).None? {
        var inserted, written := InsertDataToTable(store, "webs", WebRecord(webs[i], poolId));
        if !inserted {
          return false;
        }
      }
      i := i + 1;
    }
    ok := true;
  }

  method UpdateLocation(store: Store, cache: TableCache, stack: string, poolName: string, pool: string) returns (ok: bool)
    modifies store, cache
    ensures Step(WorldOf(store, cache), ok) == LocationSpec(old(WorldOf(store, cache)), stack, poolName, pool)
  {
    var poolId;
    ok, poolId := ResolveWebpool(store, cache, poolName, stack);
    if !ok {
      return;
    }
    ok := InsertWebs(store, cache, Split(pool, ','), poolId);
    if !ok {
      return;
    }
    ok := cache.ReadTable(store, "webs");
  }

  method UpdateStackRecord(store: Store, cache: TableCache, s: StackSource) returns (ok: bool)
    modifies store, cache
    ensures Step(WorldOf(store, cache), ok) == RecordSpec(old(WorldOf(store, cache)), s)
  {
    ok := UpdateStack(store, cache, s);
    if !ok {
      return;
    }
    ok := UpdateLocation(store, cache, s.stack, s.prodWebpoolName, s.prodWebpool);
    if !ok {
      return;
    }
    ok := UpdateLocation(store, cache, s.stack, s.remoteWebpoolName, s.remoteWebpool);
  }

  /** `update_stack_data(conn)`. */
  method UpdateStackData(store: Store, cache: TableCache, sources: seq<StackSource>) returns (ok: bool)
    modifies store, cache
    ensures Step(WorldOf(store, cache), ok) == StacksSpec(old(WorldOf(store, cache)), sources)
  {
    var i := 0;
    while i < |sources|
      invariant 0 <= i <= |sources|
      invariant StacksSpec(WorldOf(store, cache), sources[i..]) == StacksSpec(old(WorldOf(store, cache)), sources)
    {
      assert sources[i..][1..] == sources[i + 1..];
      ok := UpdateStackRecord(store, cache, sources[i]);
      if !ok {
        return;
      }
      i := i + 1;
    }
    ok := true;
  }
}
