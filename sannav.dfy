/**
  `update_sannav_data`: the SAN switch-port refresh. Missing port keys get
  defaults, every name the ports use is inserted into its ID table when the
  cache does not hold it, each port is formatted against the reloaded cache,
  and the `activezones` edges and the `sannaventities` rows are written in
  blocks.
*/
module SanNav {
  import opened Records
  import opened SqlText
  import opened StoreModel
  import opened Writer
  import opened BatchWriter
  import opened Blocks
  import opened Cache
  import opened Formatters

  /* ---------------- defaults ---------------- */

  /** The fields with `key` set to `'none'` when the port has no such key. */
  function WithDefault(fields: Record, key: string): Record
  {
    if Lookup(fields, key).Some? then fields else fields + [(key, "none")]
  }

  /** The port keys that default to `'none'`, in the refresh's order. */
  const DefaultedKeys: seq<string> := ["zoneAlias", "entitytype", "remoteNodeWwn"]

  /** The defaults the refresh gives a port before anything else:
      `zoneAlias`, `entitytype` and `remoteNodeWwn` default to `'none'`, the
      active zone list to the one-name list `['none']`. */
  function FillDefaults(port: SwitchPort): SwitchPort
  {
    var fields := WithDefault(WithDefault(port.fields, "zoneAlias"), "entitytype");
    var zones := if port.activeZones.Some? then port.activeZones else Some(["none"]);
    SwitchPort(WithDefault(fields, "remoteNodeWwn"), zones)
  }

  /** A defaulted key reads `'none'` when it was missing and as before
      otherwise; every other key, and a zone list the port had, is kept. */
  lemma DefaultsFilled(port: SwitchPort)
    ensures var r := FillDefaults(port);
      && (forall k :: k in DefaultedKeys ==>
            Lookup(r.fields, k) == if Lookup(port.fields, k).Some? then Lookup(port.fields, k) else Some("none"))
      && (forall k :: k !in DefaultedKeys ==> Lookup(r.fields, k) == Lookup(port.fields, k))
      && r.activeZones == if port.activeZones.Some? then port.activeZones else Some(["none"])
  {
    var f1 := WithDefault(port.fields, "zoneAlias");
    var f2 := WithDefault(f1, "entitytype");
    forall k ensures Lookup(FillDefaults(port).fields, k) ==
      if k in DefaultedKeys && Lookup(port.fields, k).None? then Some("none") else Lookup(port.fields, k)
    {
      DefaultStep(port.fields, "zoneAlias", k);
      DefaultStep(f1, "entitytype", k);
      DefaultStep(f2, "remoteNodeWwn", k);
    }
  }

  lemma DefaultStep(fields: Record, key: string, k: string)
    ensures Lookup(WithDefault(fields, key), k) ==
      if k == key && Lookup(fields, k).None? then Some("none") else Lookup(fields, k)
  {
    if Lookup(fields, key).None? {
      LookupAppend(fields, key, "none", k);
    }
  }

  /** The ports with their defaults. */
  function FilledPorts(ports: seq<SwitchPort>): (r: seq<SwitchPort>)
    ensures |r| == |ports| && forall i :: 0 <= i < |ports| ==> r[i] == FillDefaults(ports[i])
  {
    seq(|ports|, i requires 0 <= i < |ports| => FillDefaults(ports[i]))
  }

  /** The defaults loop: each port's dict is completed in place. */
  method FillSannavDefaults(ports: array<SwitchPort>)
    modifies ports
    ensures ports[..] == FilledPorts(old(ports[..]))
  {
    ghost var before := ports[..];
    for i := 0 to ports.Length
      invariant ports[..] == FilledPorts(before[..i]) + before[i..]
    {
      ghost var prev := ports[..];
      ports[i] := FillDefaults(ports[i]);
      assert ports[..] == prev[i := FillDefaults(before[i])];
      FilledStep(before, i);
    }
    assert before[ports.Length..] == [];
  }

  /** Defaulting the next port extends the defaulted prefix by one. */
  lemma FilledStep(ports: seq<SwitchPort>, i: nat)
    requires i < |ports|
    ensures (FilledPorts(ports[..i]) + ports[i..])[i := FillDefaults(ports[i])] == FilledPorts(ports[..i + 1]) + ports[i + 1..]
  {
  }

  /* ---------------- the names of the ID tables ---------------- */

  /** `set(map(itemgetter(key), ports))`: the ports' values of a key; a port
      without the key raises. */
  function KeyNames(ports: seq<SwitchPort>, key: string): (r: Result<set<string>>)
    ensures r.Ok? <==> forall i :: 0 <= i < |ports| ==> Lookup(ports[i].fields, key).Some?
    ensures r.Ok? ==> forall i :: 0 <= i < |ports| ==> Lookup(ports[i].fields, key).value in r.value
    ensures r.Ok? ==> forall x :: x in r.value ==> exists i :: 0 <= i < |ports| && Lookup(ports[i].fields, key) == Some(x)
  {
    if forall i :: 0 <= i < |ports| ==> Lookup(ports[i].fields, key).Some? then
      Ok(set i | 0 <= i < |ports| :: Lookup(ports[i].fields, key).value)
    else Fail(MissingField(key))
  }

  /** The module's list of active zone lists after the refresh appends the
      list of every port that has one. */
  function ZoneLists(prior: seq<seq<string>>, ports: seq<SwitchPort>): (lists: seq<seq<string>>)
    ensures |lists| <= |prior| + |ports|
    decreases |ports|
  {
    if ports == [] then prior
    else ZoneLists(prior + (if ports[0].activeZones.Some? then [ports[0].activeZones.value] else []), ports[1..])
  }

  /** Every name of every list. */
  function ListNames(lists: seq<seq<string>>): (names: set<string>)
    ensures forall x :: x in names <==> exists i, j :: 0 <= i < |lists| && 0 <= j < |lists[i]| && lists[i][j] == x
  {
    set i, j | 0 <= i < |lists| && 0 <= j < |lists[i]| :: lists[i][j]
  }

  /** The lists after the refresh start with the ones before it and hold
      each port's list. */
  lemma {:induction false} ZoneListsHold(prior: seq<seq<string>>, ports: seq<SwitchPort>)
    ensures |prior| <= |ZoneLists(prior, ports)| && ZoneLists(prior, ports)[..|prior|] == prior
    ensures forall i :: 0 <= i < |ports| && ports[i].activeZones.Some? ==> ports[i].activeZones.value in ZoneLists(prior, ports)
    decreases |ports|
  {
    if ports != [] {
      var next := prior + (if ports[0].activeZones.Some? then [ports[0].activeZones.value] else []);
      ZoneListsHold(next, ports[1..]);
      var lists := ZoneLists(prior, ports);
      assert lists[..|next|][..|prior|] == lists[..|prior|];
      forall i | 0 <= i < |ports| && ports[i].activeZones.Some?
        ensures ports[i].activeZones.value in lists
      {
        if i == 0 {
          assert next[|prior|] == lists[|prior|];
        } else {
          assert ports[1..][i - 1] == ports[i];
        }
      }
    }
  }

  /** Where the names of an ID table come from: the active zone lists, or
      one key of the ports. */
  datatype NameSource = ActiveZones | PortKey(table: string, key: string)

  /** The ID tables in the refresh's order, with the port key that names
      each; the active zone names go into `zone`. */
  const NameSources: seq<NameSource> :=
    [ActiveZones, PortKey("fabric", "fabricName"), PortKey("health", "health"),
     PortKey("status", "status"), PortKey("switch", "switchName"), PortKey("zone", "zoneAlias")]

  function SourceTable(src: NameSource): string
  {
    match src
    case ActiveZones => "zone"
    case PortKey(t, _) => t
  }

  /** The names a source gives. */
  function SourceNames(src: NameSource, lists: seq<seq<string>>, ports: seq<SwitchPort>): Result<set<string>>
  {
    match src
    case ActiveZones => Ok(ListNames(lists))
    case PortKey(_, k) => KeyNames(ports, k)
  }

  /** The names of a set listed once each, in some order (Python's set
      iteration order is not specified). */
  ghost predicate Enumerates(order: seq<string>, names: set<string>)
  {
    && (forall i, j :: 0 <= i < j < |order| ==> order[i] != order[j])
    && (forall x :: x in order <==> x in names)
  }

  /* ---------------- filling one ID table ---------------- */

  /** The row inserted for a name: `{'name': name}`. */
  function NameRecord(name: string): Record
  {
    [("name", name)]
  }

  /** One name: inserted when the cached table has no row of that name. */
  function NameStep(w: World, table: string, name: string): Step
  {
    if FirstWhere(Cached(w.cache, table), "name", name).Some? then Step(w, true)
    else InsertStep(w, table, NameRecord(name))
  }

  /** The names in iteration order; the cache is not reloaded between them,
      and the first failing insert ends the refresh. */
  function NamesSpec(w: World, table: string, order: seq<string>): Step
    decreases |order|
  {
    if order == [] then Step(w, true)
    else
      var p := NamesSpec(w, table, order[..|order| - 1]);
      if !p.ok then p else NameStep(p.w, table, order[|order| - 1])
  }

  /** The names, then a reload of the table. */
  function FillSpec(w: World, table: string, order: seq<string>): Step
  {
    var n := NamesSpec(w, table, order);
    if n.ok then ReloadSpec(n.w, table) else n
  }

  /** The names the cached rows do not hold, in order. */
  function AbsentNames(order: seq<string>, rows: seq<Row>): (a: seq<string>)
    ensures |a| <= |order|
    decreases |order|
  {
    if order == [] then []
    else
      var last := order[|order| - 1];
      AbsentNames(order[..|order| - 1], rows) + (if FirstWhere(rows, "name", last).None? then [last] else [])
  }

  /** The log of inserting names. */
  function NameEvents(table: string, names: seq<string>): (es: seq<Event>)
    ensures |es| == 2 * |names|
    decreases |names|
  {
    if names == [] then []
    else NameEvents(table, names[..|names| - 1]) + [Executed(InsertOneStatement(table, NameRecord(names[|names| - 1]))), Committed]
  }

  /** The rows the store adds for names, identities counting from `id`. */
  function NameRows(names: seq<string>, id: nat): (rows: seq<Row>)
    ensures |rows| == |names|
    decreases |names|
  {
    if names == [] then []
    else NameRows(names[..|names| - 1], id) + [WrittenRow(NameRecord(names[|names| - 1]), id + |names| - 1)]
  }

  /** The absent names are exactly the names of the order the rows lack; from
      a repetition-free order, each is there once. */
  lemma {:induction false} AbsentNamesExact(order: seq<string>, rows: seq<Row>)
    ensures forall x :: x in AbsentNames(order, rows) <==> x in order && FirstWhere(rows, "name", x).None?
    ensures (forall i, j :: 0 <= i < j < |order| ==> order[i] != order[j]) ==>
      forall i, j :: 0 <= i < j < |AbsentNames(order, rows)| ==> AbsentNames(order, rows)[i] != AbsentNames(order, rows)[j]
    decreases |order|
  {
    if order != [] {
      var front := order[..|order| - 1];
      var last := order[|order| - 1];
      AbsentNamesExact(front, rows);
      assert order == front + [last];
      if forall i, j :: 0 <= i < j < |order| ==> order[i] != order[j] {
        assert last !in front;
      }
    }
  }

  /** One name: nothing when the cache holds it, else one INSERT and commit,
      which go through exactly when the table is not refused and add the
      name's row. */
  lemma NameStepEffect(w: World, table: string, name: string)
    ensures var r := NameStep(w, table, name);
      && r.w.cache == w.cache
      && r.w.db.refused == w.db.refused
      && (forall t :: t != table ==> TableRows(r.w.db, t) == TableRows(w.db, t))
      && (FirstWhere(Cached(w.cache, table), "name", name).Some? ==> r == Step(w, true))
      && (FirstWhere(Cached(w.cache, table), "name", name).None? ==>
            && (r.ok <==> table !in w.db.refused)
            && (r.ok ==> r.w.db.log == w.db.log + [Executed(InsertOneStatement(table, NameRecord(name))), Committed])
            && (r.ok ==> TableRows(r.w.db, table) == TableRows(w.db, table) + [WrittenRow(NameRecord(name), w.db.nextId)])
            && (r.ok ==> r.w.db.nextId == w.db.nextId + 1)
            && (!r.ok ==> r.w.db.tables == w.db.tables))
  {
    InsertOneEffect(w.db, table, NameRecord(name));
  }

  /** Filling a table's names leaves the cache, the refused tables and the
      other tables as they were. */
  lemma {:induction false} NamesKeep(w: World, table: string, order: seq<string>)
    ensures var r := NamesSpec(w, table, order);
      && r.w.cache == w.cache && r.w.db.refused == w.db.refused
      && forall t :: t != table ==> TableRows(r.w.db, t) == TableRows(w.db, t)
    decreases |order|
  {
    if order != [] {
      var p := NamesSpec(w, table, order[..|order| - 1]);
      NamesKeep(w, table, order[..|order| - 1]);
      if p.ok {
        NameStepEffect(p.w, table, order[|order| - 1]);
      }
    }
  }

  /** The names go in unless some name is absent from the cache and the
      table is refused. */
  lemma {:induction false} NamesFail(w: World, table: string, order: seq<string>)
    ensures NamesSpec(w, table, order).ok <==> AbsentNames(order, Cached(w.cache, table)) == [] || table !in w.db.refused
    decreases |order|
  {
    if order != [] {
      var p := NamesSpec(w, table, order[..|order| - 1]);
      NamesFail(w, table, order[..|order| - 1]);
      NamesKeep(w, table, order[..|order| - 1]);
      if p.ok {
        NameStepEffect(p.w, table, order[|order| - 1]);
      }
    }
  }

  /** Names are insert-if-absent only: exactly the names the cache lacks are
      inserted, in order, one INSERT and commit each. */
  lemma {:induction false} NamesLogged(w: World, table: string, order: seq<string>)
    requires NamesSpec(w, table, order).ok
    ensures NamesSpec(w, table, order).w.db.log == w.db.log + NameEvents(table, AbsentNames(order, Cached(w.cache, table)))
    decreases |order|
  {
    if order != [] {
      var front := order[..|order| - 1];
      var last := order[|order| - 1];
      var p := NamesSpec(w, table, front);
      NamesLogged(w, table, front);
      NamesKeep(w, table, front);
      NameStepEffect(p.w, table, last);
      var rows := Cached(w.cache, table);
      var a := AbsentNames(front, rows);
      if FirstWhere(rows, "name", last).None? {
        assert AbsentNames(order, rows) == a + [last];
        EventsAppend(w.db.log, p.w.db.log, NamesSpec(w, table, order).w.db.log, table, a, last);
      } else {
        assert AbsentNames(order, rows) == a;
      }
    }
  }

  lemma EventsAppend(before: seq<Event>, mid: seq<Event>, after: seq<Event>, table: string, a: seq<string>, last: string)
    requires mid == before + NameEvents(table, a)
    requires after == mid + [Executed(InsertOneStatement(table, NameRecord(last))), Committed]
    ensures after == before + NameEvents(table, a + [last])
  {
    assert (a + [last])[..|a|] == a;
  }

  /** ... and the table gains their rows at its end, with consecutive
      identities. */
  lemma {:induction false} NamesRowsAdded(w: World, table: string, order: seq<string>)
    requires NamesSpec(w, table, order).ok
    ensures var r := NamesSpec(w, table, order);
      var absent := AbsentNames(order, Cached(w.cache, table));
      && TableRows(r.w.db, table) == TableRows(w.db, table) + NameRows(absent, w.db.nextId)
      && r.w.db.nextId == w.db.nextId + |absent|
    decreases |order|
  {
    if order != [] {
      var front := order[..|order| - 1];
      var last := order[|order| - 1];
      var p := NamesSpec(w, table, front);
      NamesRowsAdded(w, table, front);
      NamesKeep(w, table, front);
      NameStepEffect(p.w, table, last);
      var rows := Cached(w.cache, table);
      var a := AbsentNames(front, rows);
      if FirstWhere(rows, "name", last).None? {
        assert AbsentNames(order, rows) == a + [last];
        var r := NamesSpec(w, table, order);
        RowsAppend(TableRows(w.db, table), TableRows(p.w.db, table), TableRows(r.w.db, table), a, last, w.db.nextId, p.w.db.nextId);
      } else {
        assert AbsentNames(order, rows) == a;
      }
    }
  }

  lemma RowsAppend(before: seq<Row>, mid: seq<Row>, after: seq<Row>, a: seq<string>, last: string, id: nat, pid: nat)
    requires mid == before + NameRows(a, id) && pid == id + |a|
    requires after == mid + [WrittenRow(NameRecord(last), pid)]
    ensures after == before + NameRows(a + [last], id)
  {
    var all := a + [last];
    assert all[..|all| - 1] == a && all[|all| - 1] == last;
  }

  /** The cached rows of a table are the first rows of the store's table. */
  predicate CachePrefix(w: World, table: string)
  {
    var c := Cached(w.cache, table);
    |c| <= |TableRows(w.db, table)| && TableRows(w.db, table)[..|c|] == c
  }

  /** A name found in some rows is found in those rows with more rows after them. */
  lemma FoundKept(rows: seq<Row>, all: seq<Row>, name: string)
    requires |rows| <= |all| && all[..|rows|] == rows
    requires FirstWhere(rows, "name", name).Some?
    ensures FirstWhere(all, "name", name).Some?
  {
    var k := FirstWhere(rows, "name", name).value;
    assert all[k] == rows[k];
  }

  /** A name of the inserted rows is found among them. */
  lemma {:induction false} NameRowsFound(names: seq<string>, id: nat, name: string)
    requires name in names
    ensures FirstWhere(NameRows(names, id), "name", name).Some?
    decreases |names|
  {
    var front := names[..|names| - 1];
    var last := names[|names| - 1];
    var rows := NameRows(names, id);
    assert names == front + [last];
    WrittenRowHolds(NameRecord(last), id + |names| - 1);
    if name == last {
      assert Get(rows[|rows| - 1], "name") == Some(name);
    } else {
      NameRowsFound(front, id, name);
      FoundKept(NameRows(front, id), rows, name);
    }
  }

  /** After the names of a table whose cached rows start the store's table,
      and a reload: the reload goes through when the names did and the table
      is not refused, the cache then holds the store's table, every name of
      the order is found there, and every name found in the cache before
      is still found. */
  lemma FillFound(w: World, table: string, order: seq<string>)
    requires CachePrefix(w, table)
    ensures var r := FillSpec(w, table, order);
      && (r.ok <==> NamesSpec(w, table, order).ok && table !in w.db.refused)
      && (r.ok ==> InSync(r.w, table))
      && (r.ok ==> forall x :: x in order ==> FirstWhere(Cached(r.w.cache, table), "name", x).Some?)
      && (r.ok ==> forall x :: FirstWhere(Cached(w.cache, table), "name", x).Some? ==>
                     FirstWhere(Cached(r.w.cache, table), "name", x).Some?)
  {
    var n := NamesSpec(w, table, order);
    NamesKeep(w, table, order);
    ReloadSyncs(n.w, table);
    if n.ok && table !in w.db.refused {
      NamesRowsAdded(w, table, order);
      var c := Cached(w.cache, table);
      var before := TableRows(w.db, table);
      var after := TableRows(n.w.db, table);
      var absent := AbsentNames(order, c);
      AbsentNamesExact(order, c);
      assert after[..|before|] == before;
      forall x | FirstWhere(c, "name", x).Some?
        ensures FirstWhere(after, "name", x).Some?
      {
        FoundKept(c, before, x);
        FoundKept(before, after, x);
      }
      forall x | x in order
        ensures FirstWhere(after, "name", x).Some?
      {
        if FirstWhere(c, "name", x).None? {
          NameRowsFound(absent, w.db.nextId, x);
          FoundAfter(before, NameRows(absent, w.db.nextId), x);
        }
      }
    }
  }

  /** A name found in the appended rows is found in the whole. */
  lemma FoundAfter(rows: seq<Row>, more: seq<Row>, name: string)
    requires FirstWhere(more, "name", name).Some?
    ensures FirstWhere(rows + more, "name", name).Some?
  {
    var k := FirstWhere(more, "name", name).value;
    assert (rows + more)[|rows| + k] == more[k];
  }

  /** Some order of a finite set. */
  lemma Enumerate(names: set<string>) returns (order: seq<string>)
    ensures Enumerates(order, names)
    decreases |names|
  {
    if names == {} {
      order := [];
    } else {
      var x :| x in names;
      var rest := Enumerate(names - {x});
      order := [x] + rest;
      assert x !in rest;
      assert forall y :: y in order <==> y == x || y in rest;
      forall i, j | 0 <= i < j < |order| ensures order[i] != order[j] {
        if i > 0 {
          assert order[i] == rest[i - 1] && order[j] == rest[j - 1];
        } else {
          assert order[j] in rest;
        }
      }
    }
  }

  /** The names taken so far, then an order of the rest, list the whole set. */
  lemma EnumeratesAppend(order: seq<string>, tail: seq<string>, names: set<string>, rest: set<string>)
    requires forall i, j :: 0 <= i < j < |order| ==> order[i] != order[j]
    requires Enumerates(tail, rest)
    requires forall x :: x in names <==> x in order || x in rest
    requires forall x :: x in order ==> x !in rest
    ensures Enumerates(order + tail, names)
  {
    var all := order + tail;
    forall i, j | 0 <= i < j < |all| ensures all[i] != all[j] {
      if j < |order| {
        assert all[i] == order[i] && all[j] == order[j];
      } else if i >= |order| {
        assert all[i] == tail[i - |order|] && all[j] == tail[j - |order|];
      } else {
        assert all[i] == order[i] && all[j] == tail[j - |order|];
        assert all[j] in rest;
      }
    }
    assert forall x :: x in all <==> x in order || x in tail;
  }

  /** After a failed name, further names change nothing. */
  lemma {:induction false} NamesFailedStays(w: World, table: string, order: seq<string>, more: seq<string>)
    requires !NamesSpec(w, table, order).ok
    ensures NamesSpec(w, table, order + more) == NamesSpec(w, table, order)
    decreases |more|
  {
    if more != [] {
      var front := more[..|more| - 1];
      var all := order + more;
      assert all[..|all| - 1] == order + front;
      NamesFailedStays(w, table, order, front);
      assert NamesSpec(w, table, all) == NamesSpec(w, table, order + front);
    } else {
      assert order + more == order;
    }
  }

  /** The loop over a set of names: each absent name inserted, no reload in
      between, the first failing insert ending the loop; `order` is the
      order the loop takes, completed with the names it did not reach. */
  method InsertNames(store: Store, cache: TableCache, table: string, names: set<string>)
    returns (ok: bool, ghost order: seq<string>)
    modifies store
    ensures Enumerates(order, names)
    ensures Step(WorldOf(store, cache), ok) == NamesSpec(old(WorldOf(store, cache)), table, order)
  {
    var rest := names;
    order := [];
    ok := true;
    while ok && rest != {}
      invariant forall i, j :: 0 <= i < j < |order| ==> order[i] != order[j]
      invariant forall x :: x in names <==> x in order || x in rest
      invariant forall x :: x in order ==> x !in rest
      invariant Step(WorldOf(store, cache), ok) == NamesSpec(old(WorldOf(store, cache)), table, order)
      decreases |rest|
    {
      var name :| name in rest;
      assert (order + [name])[..|order|] == order;
      if FirstWhere(Cached(cache.tables, table), "name", name).None? {
        var written;
        ok, written := InsertDataToTable(store, table, NameRecord(name));
      }
      order := order + [name];
      rest := rest - {name};
    }
    if !ok {
      ghost var tail := Enumerate(rest);
      NamesFailedStays(old(WorldOf(store, cache)), table, order, tail);
      EnumeratesAppend(order, tail, names, rest);
      order := order + tail;
    }
  }

  /** One ID table: its names, then a reload. */
  method FillTable(store: Store, cache: TableCache, table: string, names: set<string>)
    returns (ok: bool, ghost order: seq<string>)
    modifies store, cache
    ensures Enumerates(order, names)
    ensures Step(WorldOf(store, cache), ok) == FillSpec(old(WorldOf(store, cache)), table, order)
  {
    ok, order := InsertNames(store, cache, table, names);
    if ok {
      ok := cache.ReadTable(store, table);
    }
  }

  /* ---------------- the ID tables in turn ---------------- */

  /** One source: its names raise (a port without the key) or fill its table. */
  function SourceStep(w: World, src: NameSource, lists: seq<seq<string>>, ports: seq<SwitchPort>, order: seq<string>): Step
  {
    match SourceNames(src, lists, ports)
    case Fail(_) => Step(w, false)
    case Ok(_) => FillSpec(w, SourceTable(src), order)
  }

  /** The sources in turn, `orders[i]` the iteration order of source `i`'s
      names; the first failure ends the refresh. */
  function SourcesSpec(w: World, srcs: seq<NameSource>, lists: seq<seq<string>>, ports: seq<SwitchPort>,
                       orders: seq<seq<string>>): Step
    requires |orders| == |srcs|
    decreases |srcs|
  {
    if srcs == [] then Step(w, true)
    else
      var n := |srcs| - 1;
      var p := SourcesSpec(w, srcs[..n], lists, ports, orders[..n]);
      if !p.ok then p else SourceStep(p.w, srcs[n], lists, ports, orders[n])
  }

  /** After a failed source, further sources change nothing. */
  lemma {:induction false} SourcesFailedStays(w: World, srcs: seq<NameSource>, lists: seq<seq<string>>, ports: seq<SwitchPort>,
                                              orders: seq<seq<string>>, k: nat)
    requires k <= |srcs| == |orders|
    requires !SourcesSpec(w, srcs[..k], lists, ports, orders[..k]).ok
    ensures SourcesSpec(w, srcs, lists, ports, orders) == SourcesSpec(w, srcs[..k], lists, ports, orders[..k])
    decreases |srcs|
  {
    if k < |srcs| {
      var n := |srcs| - 1;
      assert srcs[..n][..k] == srcs[..k] && orders[..n][..k] == orders[..k];
      SourcesFailedStays(w, srcs[..n], lists, ports, orders[..n], k);
      SourcesFailedLast(w, srcs, lists, ports, orders);
    } else {
      assert srcs[..k] == srcs && orders[..k] == orders;
    }
  }

  /** A failure before the last source is the outcome of all of them. */
  lemma SourcesFailedLast(w: World, srcs: seq<NameSource>, lists: seq<seq<string>>, ports: seq<SwitchPort>,
                          orders: seq<seq<string>>)
    requires 0 < |srcs| == |orders|
    requires !SourcesSpec(w, srcs[..|srcs| - 1], lists, ports, orders[..|srcs| - 1]).ok
    ensures SourcesSpec(w, srcs, lists, ports, orders) == SourcesSpec(w, srcs[..|srcs| - 1], lists, ports, orders[..|srcs| - 1])
  {
  }

  /** The sources up to `i + 1`: those up to `i`, then source `i`. */
  lemma SourcesNext(w: World, srcs: seq<NameSource>, lists: seq<seq<string>>, ports: seq<SwitchPort>,
                    orders: seq<seq<string>>, order: seq<string>, i: nat)
    requires i < |srcs| && |orders| == i
    requires SourcesSpec(w, srcs[..i], lists, ports, orders).ok
    ensures SourcesSpec(w, srcs[..i + 1], lists, ports, orders + [order])
         == SourceStep(SourcesSpec(w, srcs[..i], lists, ports, orders).w, srcs[i], lists, ports, order)
  {
    assert srcs[..i + 1][..i] == srcs[..i];
    assert (orders + [order])[..i] == orders;
  }

  /** An order for a source's names, whatever the source gives. */
  lemma SourceOrder(src: NameSource, lists: seq<seq<string>>, ports: seq<SwitchPort>) returns (order: seq<string>)
    ensures SourceNames(src, lists, ports).Ok? ==> Enumerates(order, SourceNames(src, lists, ports).value)
  {
    order := [];
    if SourceNames(src, lists, ports).Ok? {
      order := Enumerate(SourceNames(src, lists, ports).value);
    }
  }

  /** Each order lists the names of its source, for the sources it covers. */
  ghost predicate OrdersFit(srcs: seq<NameSource>, lists: seq<seq<string>>, ports: seq<SwitchPort>, orders: seq<seq<string>>)
  {
    |orders| <= |srcs| &&
    forall j :: 0 <= j < |orders| && SourceNames(srcs[j], lists, ports).Ok? ==>
      Enumerates(orders[j], SourceNames(srcs[j], lists, ports).value)
  }

  lemma OrdersFitNext(srcs: seq<NameSource>, lists: seq<seq<string>>, ports: seq<SwitchPort>,
                      orders: seq<seq<string>>, order: seq<string>)
    requires OrdersFit(srcs, lists, ports, orders) && |orders| < |srcs|
    requires SourceNames(srcs[|orders|], lists, ports).Ok? ==>
      Enumerates(order, SourceNames(srcs[|orders|], lists, ports).value)
    ensures OrdersFit(srcs, lists, ports, orders + [order])
  {
    var all := orders + [order];
    forall j | 0 <= j < |all| && SourceNames(srcs[j], lists, ports).Ok?
      ensures Enumerates(all[j], SourceNames(srcs[j], lists, ports).value)
    {
      if j < |orders| {
        assert all[j] == orders[j];
      } else {
        assert j == |orders| && all[j] == order;
      }
    }
  }

  /** The loop over the ID tables, `orders` the iteration orders it takes
      (completed for the tables after a failure). */
  method FillIdTables(store: Store, cache: TableCache, srcs: seq<NameSource>, lists: seq<seq<string>>, ports: seq<SwitchPort>)
    returns (ok: bool, ghost orders: seq<seq<string>>)
    modifies store, cache
    ensures |orders| == |srcs| && OrdersFit(srcs, lists, ports, orders)
    ensures Step(WorldOf(store, cache), ok) == SourcesSpec(old(WorldOf(store, cache)), srcs, lists, ports, orders)
  {
    ok := true;
    orders := [];
    var i := 0;
    while i < |srcs| && ok
      invariant 0 <= i <= |srcs| && |orders| == i
      invariant OrdersFit(srcs, lists, ports, orders)
      invariant Step(WorldOf(store, cache), ok) == SourcesSpec(old(WorldOf(store, cache)), srcs[..i], lists, ports, orders)
    {
      ghost var before := WorldOf(store, cache);
      var names := SourceNames(srcs[i], lists, ports);
      ghost var order := SourceOrder(srcs[i], lists, ports);
      if names.Fail? {
        ok := false;
      } else {
        ok, order := FillTable(store, cache, SourceTable(srcs[i]), names.value);
      }
      assert Step(WorldOf(store, cache), ok) == SourceStep(before, srcs[i], lists, ports, order);
      SourcesNext(old(WorldOf(store, cache)), srcs, lists, ports, orders, order, i);
      OrdersFitNext(srcs, lists, ports, orders, order);
      orders := orders + [order];
      i := i + 1;
    }
    if !ok {
      orders := PadOrders(old(WorldOf(store, cache)), srcs, lists, ports, orders);
    } else {
      assert srcs[..i] == srcs;
    }
  }

  /** The orders of the sources a failure kept the loop from, completed. */
  lemma PadOrders(w: World, srcs: seq<NameSource>, lists: seq<seq<string>>, ports: seq<SwitchPort>, orders: seq<seq<string>>)
    returns (all: seq<seq<string>>)
    requires |orders| <= |srcs| && !SourcesSpec(w, srcs[..|orders|], lists, ports, orders).ok
    requires OrdersFit(srcs, lists, ports, orders)
    ensures |all| == |srcs| && OrdersFit(srcs, lists, ports, all)
    ensures SourcesSpec(w, srcs, lists, ports, all) == SourcesSpec(w, srcs[..|orders|], lists, ports, orders)
  {
    all := orders;
    while |all| < |srcs|
      invariant |orders| <= |all| <= |srcs| && all[..|orders|] == orders
      invariant OrdersFit(srcs, lists, ports, all)
      decreases |srcs| - |all|
    {
      var order := SourceOrder(srcs[|all|], lists, ports);
      assert (all + [order])[..|orders|] == all[..|orders|];
      OrdersFitNext(srcs, lists, ports, all, order);
      all := all + [order];
    }
    SourcesFailedStays(w, srcs, lists, ports, all, |orders|);
  }

  /* ---------------- what the ID phase guarantees ---------------- */

  /** The cache holds a row of that name in the table. */
  predicate Found(w: World, table: string, name: string)
  {
    FirstWhere(Cached(w.cache, table), "name", name).Some?
  }

  /** Each of the tables is cached as a prefix of the store's table. The
      tables the refresh does not fill may be stale: an earlier stacks
      UPDATE or an empty customer dump is not followed by a reload. */
  ghost predicate CachePrefixes(w: World, tables: set<string>)
  {
    forall t :: t in tables ==> CachePrefix(w, t)
  }

  /** The tables the ID phase fills. */
  const IdTables: set<string> := {"zone", "fabric", "health", "status", "switch"}

  /** A name found in some cached table stays found. */
  ghost predicate FoundStays(w: World, r: World)
  {
    forall t, x :: Found(w, t, x) ==> Found(r, t, x)
  }

  /** Filling one of some tables cached as prefixes of the store's: when it
      goes through, those tables are still cached as prefixes, every name
      found before is still found, and every name of the order is found. */
  lemma FillKeeps(w: World, tables: set<string>, table: string, order: seq<string>)
    requires table in tables && CachePrefixes(w, tables)
    ensures var r := FillSpec(w, table, order);
      r.ok ==> CachePrefixes(r.w, tables) && FoundStays(w, r.w) && forall x :: x in order ==> Found(r.w, table, x)
  {
    var n := NamesSpec(w, table, order);
    var r := FillSpec(w, table, order);
    assert CachePrefix(w, table);
    FillFound(w, table, order);
    if r.ok {
      NamesKeep(w, table, order);
      ReloadSyncs(n.w, table);
      forall t | t in tables ensures CachePrefix(r.w, t) {
        if t != table {
          assert CachePrefix(w, t);
        }
      }
      forall t, x | Found(w, t, x) ensures Found(r.w, t, x) {
        if t != table {
          assert Cached(r.w.cache, t) == Cached(w.cache, t);
        }
      }
    }
  }

  /** Every name of every source is found in its table. */
  ghost predicate AllFound(w: World, srcs: seq<NameSource>, lists: seq<seq<string>>, ports: seq<SwitchPort>)
  {
    forall j, x :: 0 <= j < |srcs| && SourceNames(srcs[j], lists, ports).Ok? && x in SourceNames(srcs[j], lists, ports).value ==>
      Found(w, SourceTable(srcs[j]), x)
  }

  /** One more source keeps what the earlier ones found and finds its own names. */
  lemma AllFoundNext(p: World, r: World, srcs: seq<NameSource>, lists: seq<seq<string>>, ports: seq<SwitchPort>)
    requires srcs != []
    requires AllFound(p, srcs[..|srcs| - 1], lists, ports) && FoundStays(p, r)
    requires var last := srcs[|srcs| - 1];
      SourceNames(last, lists, ports).Ok? ==> forall x :: x in SourceNames(last, lists, ports).value ==> Found(r, SourceTable(last), x)
    ensures AllFound(r, srcs, lists, ports)
  {
    var n := |srcs| - 1;
    forall j, x | 0 <= j < |srcs| && SourceNames(srcs[j], lists, ports).Ok? && x in SourceNames(srcs[j], lists, ports).value
      ensures Found(r, SourceTable(srcs[j]), x)
    {
      if j < n {
        assert srcs[..n][j] == srcs[j];
        assert Found(p, SourceTable(srcs[j]), x);
      } else {
        assert j == n;
      }
    }
  }

  /** Once the ID tables are filled, each from a cache that starts the
      store's table, every name of every source is found in its table's
      cache; the other tables may be cached stale. */
  lemma {:induction false} SourcesFound(w: World, tables: set<string>, srcs: seq<NameSource>, lists: seq<seq<string>>,
                                        ports: seq<SwitchPort>, orders: seq<seq<string>>)
    requires |orders| == |srcs| && OrdersFit(srcs, lists, ports, orders)
    requires (forall j :: 0 <= j < |srcs| ==> SourceTable(srcs[j]) in tables) && CachePrefixes(w, tables)
    ensures var r := SourcesSpec(w, srcs, lists, ports, orders);
      r.ok ==> CachePrefixes(r.w, tables) && AllFound(r.w, srcs, lists, ports)
    decreases |srcs|
  {
    if srcs != [] {
      var n := |srcs| - 1;
      assert OrdersFit(srcs[..n], lists, ports, orders[..n]) by {
        forall j | 0 <= j < n ensures srcs[..n][j] == srcs[j] && orders[..n][j] == orders[j] { }
      }
      SourcesFound(w, tables, srcs[..n], lists, ports, orders[..n]);
      var p := SourcesSpec(w, srcs[..n], lists, ports, orders[..n]);
      var r := SourcesSpec(w, srcs, lists, ports, orders);
      if r.ok {
        var table := SourceTable(srcs[n]);
        FillKeeps(p.w, tables, table, orders[n]);
        AllFoundNext(p.w, r.w, srcs, lists, ports);
      }
    }
  }

  /** A refresh whose ID phase went through had every source's names. */
  lemma {:induction false} SourcesNamed(w: World, srcs: seq<NameSource>, lists: seq<seq<string>>, ports: seq<SwitchPort>,
                                        orders: seq<seq<string>>)
    requires |orders| == |srcs| && SourcesSpec(w, srcs, lists, ports, orders).ok
    ensures forall j :: 0 <= j < |srcs| ==> SourceNames(srcs[j], lists, ports).Ok?
    decreases |srcs|
  {
    if srcs != [] {
      var n := |srcs| - 1;
      var p := SourcesSpec(w, srcs[..n], lists, ports, orders[..n]);
      assert p.ok && SourceStep(p.w, srcs[n], lists, ports, orders[n]).ok;
      SourceStepNamed(p.w, srcs[n], lists, ports, orders[n]);
      SourcesNamed(w, srcs[..n], lists, ports, orders[..n]);
      forall j | 0 <= j < |srcs| ensures SourceNames(srcs[j], lists, ports).Ok? {
        if j < n {
          assert srcs[..n][j] == srcs[j];
        } else {
          assert j == n;
        }
      }
    }
  }

  /** A source step that went through had the source's names. */
  lemma SourceStepNamed(w: World, src: NameSource, lists: seq<seq<string>>, ports: seq<SwitchPort>, order: seq<string>)
    requires SourceStep(w, src, lists, ports, order).ok
    ensures SourceNames(src, lists, ports).Ok?
  {
  }

  /** The port carries the key and its value is found in the table. */
  predicate KeyFound(w: World, port: SwitchPort, table: string, key: string)
  {
    Lookup(port.fields, key).Some? && Found(w, table, Lookup(port.fields, key).value)
  }

  /** Every look-up the formatter makes for the ports finds its row: the
      active zones in `zone`, and the fabric name, health, status, switch
      name and zone alias in their tables. */
  ghost predicate PortsResolved(w: World, ports: seq<SwitchPort>)
  {
    forall i :: 0 <= i < |ports| ==>
      && (ports[i].activeZones.Some? ==> forall z :: z in ports[i].activeZones.value ==> Found(w, "zone", z))
      && KeyFound(w, ports[i], "fabric", "fabricName")
      && KeyFound(w, ports[i], "health", "health")
      && KeyFound(w, ports[i], "status", "status")
      && KeyFound(w, ports[i], "switch", "switchName")
      && KeyFound(w, ports[i], "zone", "zoneAlias")
  }

  /** After the ID phase of the refresh, from a cache whose ID tables start
      the store's (the other tables may be stale), every look-up the
      formatter makes for the ports finds its row. */
  lemma IdPhaseResolves(w: World, prior: seq<seq<string>>, ports: seq<SwitchPort>, orders: seq<seq<string>>)
    requires CachePrefixes(w, IdTables)
    requires |orders| == |NameSources| && OrdersFit(NameSources, ZoneLists(prior, ports), ports, orders)
    ensures var s := SourcesSpec(w, NameSources, ZoneLists(prior, ports), ports, orders);
      s.ok ==> PortsResolved(s.w, ports)
  {
    var lists := ZoneLists(prior, ports);
    var s := SourcesSpec(w, NameSources, lists, ports, orders);
    SourcesFound(w, IdTables, NameSources, lists, ports, orders);
    if s.ok {
      SourcesNamed(w, NameSources, lists, ports, orders);
      ZoneListsHold(prior, ports);
      ZonesResolve(s.w, lists, ports);
      KeysResolve(s.w, lists, ports);
    }
  }

  /** Every active zone of a port whose list is listed is found, once the
      zone source's names are. */
  lemma ZonesResolve(w: World, lists: seq<seq<string>>, ports: seq<SwitchPort>)
    requires AllFound(w, NameSources, lists, ports)
    requires forall i :: 0 <= i < |ports| && ports[i].activeZones.Some? ==> ports[i].activeZones.value in lists
    ensures forall i, z :: 0 <= i < |ports| && ports[i].activeZones.Some? && z in ports[i].activeZones.value ==> Found(w, "zone", z)
  {
    assert SourceNames(NameSources[0], lists, ports) == Ok(ListNames(lists));
    forall i, z | 0 <= i < |ports| && ports[i].activeZones.Some? && z in ports[i].activeZones.value
      ensures Found(w, "zone", z)
    {
      ZoneFound(w, lists, ports[i].activeZones.value, z);
    }
  }

  /** A keyed source that gave its names and whose names are found. */
  lemma KeyResolves(w: World, lists: seq<seq<string>>, ports: seq<SwitchPort>, j: nat)
    requires 1 <= j < |NameSources| && AllFound(w, NameSources, lists, ports)
    requires SourceNames(NameSources[j], lists, ports).Ok?
    ensures forall i :: 0 <= i < |ports| ==> KeyFound(w, ports[i], NameSources[j].table, NameSources[j].key)
  {
    assert SourceNames(NameSources[j], lists, ports) == KeyNames(ports, NameSources[j].key);
  }

  /** Every port carries the keyed names and they are found, once every
      keyed source gave its names and they are found. */
  lemma KeysResolve(w: World, lists: seq<seq<string>>, ports: seq<SwitchPort>)
    requires AllFound(w, NameSources, lists, ports)
    requires forall j :: 0 <= j < |NameSources| ==> SourceNames(NameSources[j], lists, ports).Ok?
    requires forall i :: 0 <= i < |ports| && ports[i].activeZones.Some? ==>
               forall z :: z in ports[i].activeZones.value ==> Found(w, "zone", z)
    ensures PortsResolved(w, ports)
  {
    KeyResolves(w, lists, ports, 1);
    KeyResolves(w, lists, ports, 2);
    KeyResolves(w, lists, ports, 3);
    KeyResolves(w, lists, ports, 4);
    KeyResolves(w, lists, ports, 5);
  }

  /** A zone of a listed active-zone list is among the names of the zone source. */
  lemma ZoneFound(w: World, lists: seq<seq<string>>, zones: seq<string>, z: string)
    requires zones in lists && z in zones
    requires forall x :: x in ListNames(lists) ==> Found(w, "zone", x)
    ensures Found(w, "zone", z)
  {
    var l :| 0 <= l < |lists| && lists[l] == zones;
    var k :| 0 <= k < |zones| && zones[k] == z;
    assert z in ListNames(lists);
  }

  /* ---------------- formatting and writing ---------------- */

  /** Each port formatted against the cache, or the exception its
      formatter returned (the fan-out gathers exceptions as results). */
  function FormatAll(ports: seq<SwitchPort>, runid: string, cache: map<string, seq<Row>>): (rs: seq<Result<Formatted>>)
    ensures |rs| == |ports| && forall i :: 0 <= i < |ports| ==> rs[i] == SannavSpec(ports[i], runid, cache)
  {
    seq(|ports|, i requires 0 <= i < |ports| => SannavSpec(ports[i], runid, cache))
  }

  /** The formatter over the ports; the first exception among the results
      raises when its `'sannav'` entry is read. */
  method FormatPorts(ports: seq<SwitchPort>, runid: string, cache: TableCache) returns (r: Result<seq<Formatted>>)
    ensures r == Collect(FormatAll(ports, runid, cache.tables))
  {
    ghost var rs := FormatAll(ports, runid, cache.tables);
    var fs: seq<Formatted> := [];
    var i := 0;
    while i < |ports|
      invariant 0 <= i <= |ports|
      invariant Collect(rs[..i]) == Ok(fs)
    {
      var f := FormatSannavInsertData(ports[i], runid, cache);
      CollectNext(rs, i, fs);
      if f.Fail? {
        CollectFailed(rs, i + 1);
        return Fail(f.error);
      }
      fs := fs + [f.value];
      i := i + 1;
    }
    assert rs[..i] == rs;
    r := Ok(fs);
  }

  /** The `activezones` edges of all ports, port by port. */
  function Edges(fs: seq<Formatted>): seq<Record>
    decreases |fs|
  {
    if fs == [] then [] else fs[0].edges + Edges(fs[1..])
  }

  /** The `sannaventities` rows, one per port. */
  function Entities(fs: seq<Formatted>): (es: seq<Record>)
    ensures |es| == |fs| && forall i :: 0 <= i < |fs| ==> es[i] == fs[i].entity
  {
    seq(|fs|, i requires 0 <= i < |fs| => fs[i].entity)
  }

  /** Records as the batch writer's entries. */
  function AsEntries(rs: seq<Record>): (es: seq<Entry>)
    ensures |es| == |rs| && forall i :: 0 <= i < |rs| ==> es[i] == Ok(rs[i])
  {
    seq(|rs|, i requires 0 <= i < |rs| => Ok(rs[i]))
  }

  /** The edges are written, then `activezones` is reloaded, when there are
      any; the entity rows are written when there are any. */
  function WriteSpec(w: World, fs: seq<Formatted>): Step
  {
    var edges := Edges(fs);
    var a :=
      if edges == [] then Step(w, true)
      else
        var b := BatchSpec(w.db, "activezones", AsEntries(edges), DefaultBlockSize);
        if b.ok then ReloadSpec(World(b.db, w.cache), "activezones") else Step(World(b.db, w.cache), false);
    if !a.ok || fs == [] then a
    else OnDb(a.w, BatchSpec(a.w.db, "sannaventities", AsEntries(Entities(fs)), DefaultBlockSize))
  }

  /** The nested loop that flattens the ports' edge lists. */
  method CollectEdges(fs: seq<Formatted>) returns (edges: seq<Record>)
    ensures edges == Edges(fs)
  {
    edges := [];
    for i := 0 to |fs|
      invariant edges + Edges(fs[i..]) == Edges(fs)
    {
      assert fs[i..][1..] == fs[i + 1..];
      ConcatAssoc(edges, fs[i].edges, Edges(fs[i + 1..]));
      edges := edges + fs[i].edges;
    }
    assert fs[|fs|..] == [];
    assert edges + [] == edges;
  }

  method WriteFormatted(store: Store, cache: TableCache, fs: seq<Formatted>) returns (ok: bool)
    modifies store, cache
    ensures Step(WorldOf(store, cache), ok) == WriteSpec(old(WorldOf(store, cache)), fs)
  {
    var edges := CollectEdges(fs);
    if |edges| != 0 {
      ok := InsertDataToTableBatch(store, "activezones", AsEntries(edges), DefaultBlockSize);
      if !ok {
        return;
      }
      ok := cache.ReadTable(store, "activezones");
      if !ok {
        return;
      }
    }
    if |fs| != 0 {
      ok := InsertDataToTableBatch(store, "sannaventities", AsEntries(Entities(fs)), DefaultBlockSize);
    } else {
      ok := true;
    }
  }

  /* ---------------- the refresh ---------------- */

  /** `update_sannav_data(conn)` for the ports as the service reported them,
      the module's zone lists before the refresh, the run id, and the
      iteration order of each ID table's names. */
  function SannavUpdateSpec(w: World, prior: seq<seq<string>>, sannav: seq<SwitchPort>, runid: string,
                            orders: seq<seq<string>>): Step
    requires |orders| == |NameSources|
  {
    var ports := FilledPorts(sannav);
    var s := SourcesSpec(w, NameSources, ZoneLists(prior, ports), ports, orders);
    if !s.ok then s
    else
      match Collect(FormatAll(ports, runid, s.w.cache))
      case Fail(_) => Step(s.w, false)
      case Ok(fs) => WriteSpec(s.w, fs)
  }

  /** The loop appending each port's zone list to the module's list. */
  method AppendZoneLists(prior: seq<seq<string>>, ports: seq<SwitchPort>) returns (lists: seq<seq<string>>)
    ensures lists == ZoneLists(prior, ports)
  {
    lists := prior;
    for i := 0 to |ports|
      invariant ZoneLists(lists, ports[i..]) == ZoneLists(prior, ports)
    {
      assert ports[i..][1..] == ports[i + 1..];
      assert ZoneLists(lists, ports[i..]) ==
        ZoneLists(lists + (if ports[i].activeZones.Some? then [ports[i].activeZones.value] else []), ports[i + 1..]);
      if ports[i].activeZones.Some? {
        lists := lists + [ports[i].activeZones.value];
      } else {
        assert lists + [] == lists;
      }
    }
    assert ports[|ports|..] == [];
  }

  /** `update_sannav_data(conn)`: the ports are completed in place, the
      returned lists are the module's zone lists afterwards, and `orders`
      the iteration orders the ID-table loops took. */
  method UpdateSannavData(store: Store, cache: TableCache, sannav: array<SwitchPort>, prior: seq<seq<string>>, runid: string)
    returns (ok: bool, lists: seq<seq<string>>, ghost orders: seq<seq<string>>)
    modifies store, cache, sannav
    ensures sannav[..] == FilledPorts(old(sannav[..]))
    ensures lists == ZoneLists(prior, sannav[..])
    ensures |orders| == |NameSources| && OrdersFit(NameSources, lists, sannav[..], orders)
    ensures Step(WorldOf(store, cache), ok) == SannavUpdateSpec(old(WorldOf(store, cache)), prior, old(sannav[..]), runid, orders)
  {
    FillSannavDefaults(sannav);
    var ports := sannav[..];
    lists := AppendZoneLists(prior, ports);
    ok, orders := FillIdTables(store, cache, NameSources, lists, ports);
    if !ok {
      return;
    }
    var formatted := FormatPorts(ports, runid, cache);
    if formatted.Fail? {
      return false, lists, orders;
    }
    ok := WriteFormatted(store, cache, formatted.value);
  }
}
