/**
  The record formatters of the sync job: `__format_customer_insert_data`,
  which turns one customer of the customer dump into a `customers` row, and
  `__format_sannav_insert_data`, which turns one switch port reported by the
  SAN management service into a `sannaventities` row and its `activezones`
  edges, resolving each label to the identity of the cached row of that name.
*/
module Formatters {
  import opened Records
  import opened SqlText
  import opened Cache

  /* ---------------- customers ---------------- */

  /** The keys `__format_customer_insert_data` reads, in reading order. */
  const CustomerKeys: seq<string> := ["L", "NAME", "ID", "STACKNUMBER"]

  /** The columns of a formatted customer, in order. */
  const CustomerColumns: seq<string> := ["contextid", "customer", "status", "stackid"]

  /** `__format_customer_insert_data(customer)`: the live flag becomes
      `'1'`/`'0'` and the name has its quotes doubled; a missing key raises. */
  function FormatCustomer(customer: Record): Result<Record>
  {
    match Fields(customer, CustomerKeys)
    case Fail(e) => Fail(e)
    case Ok(vs) =>
      var status := if vs[0] == "Y" then "1" else "0";
      var name := if Quote in vs[1] then Escape(vs[1]) else vs[1];
      Ok([("contextid", vs[2]), ("customer", name), ("status", status), ("stackid", vs[3])])
  }

  /** A customer formats exactly when it has all four keys; otherwise the
      error names the first missing key in reading order. */
  lemma CustomerFormatFails(customer: Record)
    ensures var r := FormatCustomer(customer);
      && (r.Ok? <==> forall i :: 0 <= i < |CustomerKeys| ==> CustomerKeys[i] in Keys(customer))
      && (r.Fail? ==> exists j :: 0 <= j < |CustomerKeys| && r.error == MissingField(CustomerKeys[j])
                                    && CustomerKeys[j] !in Keys(customer)
                                    && forall i :: 0 <= i < j ==> CustomerKeys[i] in Keys(customer))
  {
    FieldsRead(customer, CustomerKeys);
  }

  /** A formatted customer has the four customer columns, in order. */
  lemma CustomerKeysOf(customer: Record)
    requires FormatCustomer(customer).Ok?
    ensures Keys(FormatCustomer(customer).value) == CustomerColumns
  {
  }

  /** A formatted customer: the context id, then the name with every quote
      doubled (so the store reads it back as the name, and a name without
      quotes is kept as it is), then the status, `'1'` exactly when the live
      flag is `'Y'` and `'0'` otherwise, then the stack id. */
  lemma CustomerFormatted(customer: Record)
    requires FormatCustomer(customer).Ok?
    ensures var r := FormatCustomer(customer).value;
      var name := Lookup(customer, "NAME");
      && Keys(r) == CustomerColumns
      && name.Some? && Lookup(customer, "L").Some?
      && Some(r[0].1) == Lookup(customer, "ID")
      && Some(r[3].1) == Lookup(customer, "STACKNUMBER")
      && (r[2].1 == "1" <==> Lookup(customer, "L") == Some("Y"))
      && (r[2].1 == "0" <==> Lookup(customer, "L") != Some("Y"))
      && r[1].1 == Escape(name.value) && WellQuoted(r[1].1) && Unescape(r[1].1) == name.value
      && (NoQuote(name.value) ==> r[1].1 == name.value)
  {
    CustomerKeysOf(customer);
    var vs := Fields(customer, CustomerKeys).value;
    assert && Lookup(customer, "L") == Some(vs[0]) && Lookup(customer, "NAME") == Some(vs[1])
           && Lookup(customer, "ID") == Some(vs[2]) && Lookup(customer, "STACKNUMBER") == Some(vs[3]) by {
      FieldsRead(customer, CustomerKeys);
      assert Lookup(customer, CustomerKeys[0]) == Some(vs[0]);
      assert Lookup(customer, CustomerKeys[1]) == Some(vs[1]);
      assert Lookup(customer, CustomerKeys[2]) == Some(vs[2]);
      assert Lookup(customer, CustomerKeys[3]) == Some(vs[3]);
    }
    if Quote !in vs[1] {
      assert NoQuote(vs[1]);
      QuoteFreeUnchanged(vs[1]);
    }
    EscapeWellQuoted(vs[1]);
    UnescapeEscape(vs[1]);
  }

  /* ---------------- switch ports ---------------- */

  /** A switch port as the SAN management service reports it: its scalar
      fields, and its list of active zone names when the report has one. */
  datatype SwitchPort = SwitchPort(fields: Record, activeZones: Option<seq<string>>)

  /** What the formatter returns: the `sannaventities` row, the
      `activezones` edges, and the port as the formatter left it (it sets
      `entitytype` and `remoteNodeWwn` in the port's own dict). */
  datatype Formatted = Formatted(entity: Record, edges: seq<Record>, port: SwitchPort)

  /** The entity type a connected device type names: an initiator is a
      device, a switch a chassis, a target a storage array; an empty type or
      any other type names none. */
  function EntityTypeOf(t: string): Option<string>
  {
    if t == "" then None
    else if t == "Initiator" then Some("device")
    else if t == "SWITCH" then Some("chassis")
    else if Contains(t, "Target") then Some("storage")
    else None
  }

  lemma EntityTypeNamed(t: string)
    ensures t == "Initiator" ==> EntityTypeOf(t) == Some("device")
    ensures t == "SWITCH" ==> EntityTypeOf(t) == Some("chassis")
    ensures t != "Initiator" && t != "SWITCH" && Contains(t, "Target") ==> EntityTypeOf(t) == Some("storage")
    ensures t == "" || (t != "Initiator" && t != "SWITCH" && !Contains(t, "Target")) ==> EntityTypeOf(t).None?
  {
    if t == "" {
      assert t != "Initiator" && t != "SWITCH";
    }
  }

  /** Sets the port's `entitytype` from its connected device type, leaving
      it as it is when the type names none; a port without a connected
      device type raises. */
  function ClassifyEntityType(fields: Record): Result<Record>
  {
    match Lookup(fields, "connectedDeviceType")
    case None => Fail(MissingField("connectedDeviceType"))
    case Some(t) =>
      match EntityTypeOf(t)
      case None => Ok(fields)
      case Some(e) => Ok(Put(fields, "entitytype", e))
  }

  /** Classification fails only without a connected device type, changes no
      key but `entitytype`, and sets that to the type named, if any. */
  lemma EntityTypeClassified(fields: Record)
    ensures var r := ClassifyEntityType(fields);
      var t := Lookup(fields, "connectedDeviceType");
      && (r.Ok? <==> t.Some?)
      && (r.Ok? ==> forall k :: k != "entitytype" ==> Lookup(r.value, k) == Lookup(fields, k))
      && (r.Ok? && EntityTypeOf(t.value).Some? ==> Lookup(r.value, "entitytype") == EntityTypeOf(t.value))
      && (r.Ok? && EntityTypeOf(t.value).None? ==> r.value == fields)
  {
  }

  /** The device name test as written: `d != '' or d != 'localhost'` holds
      for every string, so it never falls back to the remote port. */
  lemma RemoteDeviceTestAlwaysTrue(d: string)
    ensures d != "" || d != "localhost"
  {
    if d == "" {
      assert d[..] != "localhost";
    }
  }

  /** The device name from the port's remote device and remote port: the
      remote device when the port has both, otherwise whichever of the two
      is present and non-empty, the remote device first; `'none'` when
      neither is. */
  function DeviceChoice(device: Option<string>, port: Option<string>): string
  {
    if device.Some? && port.Some? then
      if device.value != "" || device.value != "localhost" then device.value else port.value
    else if device.Some? && device.value != "" then device.value
    else if port.Some? && port.value != "" then port.value
    else "none"
  }

  function DeviceName(fields: Record): string
  {
    DeviceChoice(Lookup(fields, "remoteDevice"), Lookup(fields, "remotePort"))
  }

  lemma DeviceNameChosen(device: Option<string>, port: Option<string>)
    ensures device.Some? && port.Some? ==> DeviceChoice(device, port) == device.value
    ensures device.Some? && port.None? ==> DeviceChoice(device, port) == if device.value != "" then device.value else "none"
    ensures device.None? && port.Some? ==> DeviceChoice(device, port) == if port.value != "" then port.value else "none"
    ensures device.None? && port.None? ==> DeviceChoice(device, port) == "none"
  {
    if device.Some? {
      RemoteDeviceTestAlwaysTrue(device.value);
    }
  }

  /** Python's `s[:stop]`: a negative stop counts from the end. */
  function SliceTo(s: string, stop: int): (p: string)
    ensures p <= s
  {
    if stop < 0 then (if |s| + stop < 0 then [] else s[..|s| + stop])
    else if stop > |s| then s
    else s[..stop]
  }

  const MaxDeviceName: nat := 50

  /** The device name cut down: `device[:-abs(len(device) - 50)]` when it is
      longer than 50 characters. */
  function TruncateDeviceName(device: string): string
  {
    if |device| > MaxDeviceName then
      var cut := |device| - MaxDeviceName;
      SliceTo(device, -(if cut < 0 then -cut else cut))
    else device
  }

  /** The cut keeps the first 50 characters: the result is never longer than
      50, a longer name loses its tail, a shorter one is kept whole. */
  lemma DeviceNameTruncated(device: string)
    ensures var r := TruncateDeviceName(device);
      && |r| <= MaxDeviceName && r <= device
      && (|device| > MaxDeviceName ==> r == device[..MaxDeviceName])
      && (|device| <= MaxDeviceName ==> r == device)
  {
  }

  /** An empty `remoteNodeWwn` becomes `'none'`; a port without one raises. */
  function DefaultRemoteWwn(fields: Record): Result<Record>
  {
    match Lookup(fields, "remoteNodeWwn")
    case None => Fail(MissingField("remoteNodeWwn"))
    case Some(w) => if w == "" then Ok(Put(fields, "remoteNodeWwn", "none")) else Ok(fields)
  }

  /** The port keys the entity row copies, in reading order. */
  const EntityKeys: seq<string> := ["id", "wwn", "portNumber", "slotNumber", "remoteNodeWwn", "ipAddress"]

  /** An ID table the formatter resolves against: the port key that holds
      the name to look up, and the row's column `<key>id` for the identity. */
  datatype IdTable = IdTable(table: string, key: string, column: string)

  const IdTables: seq<IdTable> :=
    [IdTable("entitytype", "entitytype", "entitytypeid"), IdTable("fabric", "fabricName", "fabricNameid"),
     IdTable("health", "health", "healthid"), IdTable("status", "status", "statusid"),
     IdTable("switch", "switchName", "switchNameid"), IdTable("zone", "zone", "zoneid")]

  /** The columns of a `sannaventities` row before its ID columns, in order. */
  const BaseColumns: seq<string> :=
    ["runid", "id", "wwn", "portnumber", "slotnumber", "remotewwn", "ipaddress", "devicename"]

  /** The ID columns, in table order: `entitytypeid`, `fabricNameid`,
      `healthid`, `statusid`, `switchNameid`, `zoneid`. */
  function IdColumns(): (cs: seq<string>)
    ensures |cs| == |IdTables| && forall j :: 0 <= j < |IdTables| ==> cs[j] == IdTables[j].column
  {
    seq(|IdTables|, j requires 0 <= j < |IdTables| => IdTables[j].column)
  }

  /** The identity of the first cached row of `table` named `name`; none
      raises (`[0]` of an empty list). */
  function Resolve(cache: map<string, seq<Row>>, table: string, name: string): (r: Result<string>)
    ensures r.Ok? <==> FirstWhere(Cached(cache, table), "name", name).Some?
  {
    match FirstWhere(Cached(cache, table), "name", name)
    case None => Fail(Unresolved(table, name))
    case Some(k) => Ok(IdOf(Cached(cache, table)[k]))
  }

  /** One ID column: the port's name for the table, resolved. The name is
      read inside the filter over the cached rows, so an empty table raises
      IndexError before the key is read. */
  function IdPair(fields: Record, cache: map<string, seq<Row>>, t: IdTable): Result<(string, string)>
  {
    if Cached(cache, t.table) == [] then Fail(EmptyTable(t.table))
    else
      match Lookup(fields, t.key)
      case None => Fail(MissingField(t.key))
      case Some(name) =>
        match Resolve(cache, t.table, name)
        case Fail(e) => Fail(e)
        case Ok(id) => Ok((t.column, id))
  }

  /** The order of the failures of one ID look-up: an empty cached table
      raises before the port's key is read; otherwise a missing key, then a
      name no cached row has; otherwise the identity of the first row with
      that name. */
  lemma IdPairOrder(fields: Record, cache: map<string, seq<Row>>, t: IdTable)
    ensures var rows := Cached(cache, t.table);
      var name := Lookup(fields, t.key);
      var r := IdPair(fields, cache, t);
      && (rows == [] ==> r == Fail(EmptyTable(t.table)))
      && (rows != [] && name.None? ==> r == Fail(MissingField(t.key)))
      && (rows != [] && name.Some? && FirstWhere(rows, "name", name.value).None? ==>
            r == Fail(Unresolved(t.table, name.value)))
      && (rows != [] && name.Some? && FirstWhere(rows, "name", name.value).Some? ==>
            r == Ok((t.column, IdOf(rows[FirstWhere(rows, "name", name.value).value]))))
  {
  }

  /** Each table's ID column, or the failure resolving it. */
  function IdResults(fields: Record, cache: map<string, seq<Row>>, tables: seq<IdTable>): (rs: seq<Result<(string, string)>>)
    ensures |rs| == |tables| && forall j :: 0 <= j < |tables| ==> rs[j] == IdPair(fields, cache, tables[j])
  {
    seq(|tables|, j requires 0 <= j < |tables| => IdPair(fields, cache, tables[j]))
  }

  /** One `activezones` edge: run id, entity id, and the zone's identity. */
  function ZoneEdge(zone: string, runid: string, id: string, cache: map<string, seq<Row>>): Result<Record>
  {
    match Resolve(cache, "zone", zone)
    case Fail(e) => Fail(e)
    case Ok(zoneId) => Ok([("runid", runid), ("sannaventityid", id), ("zoneid", zoneId)])
  }

  /** Each zone's edge, or the failure resolving it. */
  function EdgeResults(zones: seq<string>, runid: string, id: string, cache: map<string, seq<Row>>): (rs: seq<Result<Record>>)
    ensures |rs| == |zones| && forall j :: 0 <= j < |zones| ==> rs[j] == ZoneEdge(zones[j], runid, id, cache)
  {
    seq(|zones|, j requires 0 <= j < |zones| => ZoneEdge(zones[j], runid, id, cache))
  }

  /** The entity row before its ID columns. */
  function BaseEntity(runid: string, vs: seq<string>, device: string): Record
    requires |vs| == |EntityKeys|
  {
    Zip(BaseColumns, [runid] + vs + [device])
  }

  /** The port after the formatter's first steps, and its device name. */
  datatype Prepared = Prepared(fields: Record, device: string)

  /** Classify the entity type, pick and cut the device name, default the
      remote wwn: the formatter's steps before it builds the row. */
  function Prepare(fields: Record): Result<Prepared>
  {
    match ClassifyEntityType(fields)
    case Fail(e) => Fail(e)
    case Ok(classified) =>
      var device := TruncateDeviceName(DeviceName(classified));
      match DefaultRemoteWwn(classified)
      case Fail(e) => Fail(e)
      case Ok(defaulted) => Ok(Prepared(defaulted, device))
  }

  /** The preparation fails only on a port without a connected device type
      or a remote wwn. */
  lemma PrepareFails(fields: Record)
    ensures Prepare(fields).Ok? <==> "connectedDeviceType" in Keys(fields) && "remoteNodeWwn" in Keys(fields)
  {
    EntityTypeClassified(fields);
  }

  /** A prepared port sets no key but `entitytype` and `remoteNodeWwn`, an
      empty remote wwn becomes `'none'`, and the device name is the one chosen
      from the reported port, cut to at most 50 characters. */
  lemma PortPrepared(fields: Record)
    requires Prepare(fields).Ok?
    ensures var p := Prepare(fields).value;
      var wwn := Lookup(fields, "remoteNodeWwn");
      && (forall k :: k != "entitytype" && k != "remoteNodeWwn" ==> Lookup(p.fields, k) == Lookup(fields, k))
      && wwn.Some?
      && Lookup(p.fields, "remoteNodeWwn") == Some(if wwn.value == "" then "none" else wwn.value)
      && p.device == TruncateDeviceName(DeviceName(fields))
      && |p.device| <= MaxDeviceName
  {
    EntityTypeClassified(fields);
    var c := ClassifyEntityType(fields).value;
    assert Lookup(c, "remoteDevice") == Lookup(fields, "remoteDevice");
    assert Lookup(c, "remotePort") == Lookup(fields, "remotePort");
    assert Lookup(c, "remoteNodeWwn") == Lookup(fields, "remoteNodeWwn");
    DeviceNameTruncated(DeviceName(fields));
  }

  /** The `sannaventities` row of a prepared port. */
  function EntityRow(p: Prepared, runid: string, cache: map<string, seq<Row>>): (r: Result<Record>)
    ensures r.Ok? ==> |r.value| == |BaseColumns| + |IdTables|
  {
    match Fields(p.fields, EntityKeys)
    case Fail(e) => Fail(e)
    case Ok(vs) =>
      match Collect(IdResults(p.fields, cache, IdTables))
      case Fail(e) => Fail(e)
      case Ok(ids) => Ok(BaseEntity(runid, vs, p.device) + ids)
  }

  /** The row is built exactly when the port has every copied key and every
      table resolves its name. */
  lemma EntityRowFails(p: Prepared, runid: string, cache: map<string, seq<Row>>)
    ensures EntityRow(p, runid, cache).Ok? <==>
      (forall j :: 0 <= j < |EntityKeys| ==> EntityKeys[j] in Keys(p.fields))
      && forall j :: 0 <= j < |IdTables| ==> IdPair(p.fields, cache, IdTables[j]).Ok?
  {
    assert Fields(p.fields, EntityKeys).Ok? <==> forall j :: 0 <= j < |EntityKeys| ==> EntityKeys[j] in Keys(p.fields) by {
      FieldsRead(p.fields, EntityKeys);
    }
    IdResultsCollected(p.fields, cache, IdTables);
  }

  /** The ID columns resolve exactly when every table resolves its name. */
  lemma IdResultsCollected(fields: Record, cache: map<string, seq<Row>>, tables: seq<IdTable>)
    ensures Collect(IdResults(fields, cache, tables)).Ok? <==> forall j :: 0 <= j < |tables| ==> IdPair(fields, cache, tables[j]).Ok?
  {
    var rs := IdResults(fields, cache, tables);
    CollectAll(rs);
    assert (forall j :: 0 <= j < |rs| ==> rs[j].Ok?) <==> forall j :: 0 <= j < |tables| ==> IdPair(fields, cache, tables[j]).Ok?;
  }

  /** Resolved ID pairs carry the ID columns in table order. */
  lemma IdColumnsResolved(fields: Record, cache: map<string, seq<Row>>)
    requires Collect(IdResults(fields, cache, IdTables)).Ok?
    ensures Keys(Collect(IdResults(fields, cache, IdTables)).value) == IdColumns()
  {
    var rs := IdResults(fields, cache, IdTables);
    CollectAll(rs);
    var ids := Collect(rs).value;
    forall j | 0 <= j < |IdTables| ensures ids[j].0 == IdTables[j].column {
      assert IdPair(fields, cache, IdTables[j]) == Ok(ids[j]);
    }
  }

  /** A built row has the fourteen columns in order: the eight base columns,
      then the ID columns. */
  lemma EntityRowColumns(p: Prepared, runid: string, cache: map<string, seq<Row>>)
    requires EntityRow(p, runid, cache).Ok?
    ensures Keys(EntityRow(p, runid, cache).value) == BaseColumns + IdColumns()
  {
    var vs := Fields(p.fields, EntityKeys).value;
    var ids := Collect(IdResults(p.fields, cache, IdTables)).value;
    IdColumnsResolved(p.fields, cache);
    KeysAppend(BaseEntity(runid, vs, p.device), ids);
  }

  /** A built row holds the run id, the port's copied values in reading
      order and the device name. */
  lemma EntityRowValues(p: Prepared, runid: string, cache: map<string, seq<Row>>)
    requires EntityRow(p, runid, cache).Ok?
    ensures var r := EntityRow(p, runid, cache).value;
      && r[0].1 == runid
      && (forall j :: 0 <= j < |EntityKeys| ==> Lookup(p.fields, EntityKeys[j]) == Some(r[1 + j].1))
      && r[7].1 == p.device
  {
    var vs := Fields(p.fields, EntityKeys).value;
    var base := BaseEntity(runid, vs, p.device);
    var r := EntityRow(p, runid, cache).value;
    assert forall j :: 0 <= j < |EntityKeys| ==> Lookup(p.fields, EntityKeys[j]) == Some(vs[j]) by {
      FieldsRead(p.fields, EntityKeys);
    }
    assert r == base + Collect(IdResults(p.fields, cache, IdTables)).value;
    BaseEntityValues(runid, vs, p.device, Collect(IdResults(p.fields, cache, IdTables)).value);
  }

  /** The base columns, whatever follows them, hold the run id, the copied
      values in order and the device name. */
  lemma BaseEntityValues(runid: string, vs: seq<string>, device: string, ids: Record)
    requires |vs| == |EntityKeys|
    ensures var b := BaseEntity(runid, vs, device) + ids;
      && |b| >= 8 && b[0].1 == runid && b[7].1 == device
      && forall j :: 0 <= j < |vs| ==> b[1 + j].1 == vs[j]
  {
    var b := BaseEntity(runid, vs, device);
    var all := [runid] + vs + [device];
    forall j | 0 <= j < |vs| ensures (b + ids)[1 + j].1 == vs[j] {
      assert all[1 + j] == vs[j];
      assert (b + ids)[1 + j] == b[1 + j];
    }
    assert (b + ids)[0] == b[0] && (b + ids)[7] == b[7];
  }

  /** Each ID column of the row holds the identity of the first cached row of
      its table whose name is the port's value for that table. */
  lemma EntityRowIds(p: Prepared, runid: string, cache: map<string, seq<Row>>, j: nat)
    requires EntityRow(p, runid, cache).Ok? && j < |IdTables|
    ensures var name := Lookup(p.fields, IdTables[j].key);
      var rows := Cached(cache, IdTables[j].table);
      && name.Some?
      && FirstWhere(rows, "name", name.value).Some?
      && EntityRow(p, runid, cache).value[8 + j].1 == IdOf(rows[FirstWhere(rows, "name", name.value).value])
  {
    var rs := IdResults(p.fields, cache, IdTables);
    var ids := Collect(rs).value;
    var vs := Fields(p.fields, EntityKeys).value;
    assert IdPair(p.fields, cache, IdTables[j]) == Ok(ids[j]) by {
      CollectAll(rs);
    }
    assert EntityRow(p, runid, cache).value == BaseEntity(runid, vs, p.device) + ids;
    IdPairResolved(p.fields, cache, IdTables[j], ids[j]);
  }

  /** A resolved ID pair holds the identity of the first cached row named by
      the port's value for its table. */
  lemma IdPairResolved(fields: Record, cache: map<string, seq<Row>>, t: IdTable, pair: (string, string))
    requires IdPair(fields, cache, t) == Ok(pair)
    ensures var name := Lookup(fields, t.key);
      var rows := Cached(cache, t.table);
      && name.Some?
      && FirstWhere(rows, "name", name.value).Some?
      && pair == (t.column, IdOf(rows[FirstWhere(rows, "name", name.value).value]))
  {
  }

  /** `__format_sannav_insert_data(port, runid)` against the cache. */
  function SannavSpec(port: SwitchPort, runid: string, cache: map<string, seq<Row>>): Result<Formatted>
  {
    match Prepare(port.fields)
    case Fail(e) => Fail(e)
    case Ok(p) =>
      match EntityRow(p, runid, cache)
      case Fail(e) => Fail(e)
      case Ok(entity) =>
        match port.activeZones
        case None => Fail(MissingField("activeZones"))
        case Some(zones) =>
          match Collect(EdgeResults(zones, runid, entity[1].1, cache))
          case Fail(e) => Fail(e)
          case Ok(edges) => Ok(Formatted(entity, edges, SwitchPort(p.fields, port.activeZones)))
  }

  /** A port formats exactly when each stage does: its row is the row of the
      prepared port, the port keeps its zone list, and there is one edge per
      active zone name, in order, each carrying the run id, the port's id and
      the identity of the first cached zone of that name. */
  lemma SannavFormatted(port: SwitchPort, runid: string, cache: map<string, seq<Row>>)
    ensures var r := SannavSpec(port, runid, cache);
      var p := Prepare(port.fields);
      && (r.Ok? <==> p.Ok? && EntityRow(p.value, runid, cache).Ok? && port.activeZones.Some?
                     && forall j :: 0 <= j < |port.activeZones.value| ==>
                          FirstWhere(Cached(cache, "zone"), "name", port.activeZones.value[j]).Some?)
      && (r.Ok? ==>
            var zones := port.activeZones.value;
            var rows := Cached(cache, "zone");
            && r.value.entity == EntityRow(p.value, runid, cache).value
            && r.value.port == SwitchPort(p.value.fields, port.activeZones)
            && |r.value.edges| == |zones|
            && forall j :: 0 <= j < |zones| ==>
                 r.value.edges[j] == [("runid", runid), ("sannaventityid", r.value.entity[1].1),
                                      ("zoneid", IdOf(rows[FirstWhere(rows, "name", zones[j]).value]))])
  {
    var p := Prepare(port.fields);
    if p.Ok? && EntityRow(p.value, runid, cache).Ok? && port.activeZones.Some? {
      var entity := EntityRow(p.value, runid, cache).value;
      var zones := port.activeZones.value;
      var rs := EdgeResults(zones, runid, entity[1].1, cache);
      CollectAll(rs);
      if Collect(rs).Ok? {
        var edges := Collect(rs).value;
        forall j | 0 <= j < |zones|
          ensures FirstWhere(Cached(cache, "zone"), "name", zones[j]).Some?
          ensures edges[j] == [("runid", runid), ("sannaventityid", entity[1].1),
                               ("zoneid", IdOf(Cached(cache, "zone")[FirstWhere(Cached(cache, "zone"), "name", zones[j]).value]))]
        {
          assert rs[j] == Ok(edges[j]);
        }
      } else {
        var j :| 0 <= j < |rs| && rs[j] == Fail(Collect(rs).error);
        assert FirstWhere(Cached(cache, "zone"), "name", zones[j]).None?;
      }
    }
  }

  /** The formatter's loop over the ID tables: each table's name on the port
      is looked up in the cache, the first empty table, missing key or unknown
      name ending the loop. */
  method ResolveIds(fields: Record, tables: seq<IdTable>, cache: TableCache) returns (r: Result<Record>)
    ensures r == Collect(IdResults(fields, cache.tables, tables))
  {
    ghost var rs := IdResults(fields, cache.tables, tables);
    var ids: Record := [];
    var i := 0;
    while i < |tables|
      invariant 0 <= i <= |tables|
      invariant Collect(rs[..i]) == Ok(ids)
    {
      CollectNext(rs, i, ids);
      var t := tables[i];
      var rows := Cached(cache.tables, t.table);
      if |rows| == 0 {
        CollectFailed(rs, i + 1);
        return Fail(EmptyTable(t.table));
      }
      var name := Lookup(fields, t.key);
      if name.None? {
        CollectFailed(rs, i + 1);
        return Fail(MissingField(t.key));
      }
      var k := FirstWhere(rows, "name", name.value);
      if k.None? {
        CollectFailed(rs, i + 1);
        return Fail(Unresolved(t.table, name.value));
      }
      ids := ids + [(t.column, IdOf(rows[k.value]))];
      i := i + 1;
    }
    assert rs[..i] == rs;
    r := Ok(ids);
  }

  /** The formatter's loop over the active zone names: one edge per name,
      the first name the cache does not hold ending the loop. */
  method BuildZoneEdges(zones: seq<string>, runid: string, id: string, cache: TableCache) returns (r: Result<seq<Record>>)
    ensures r == Collect(EdgeResults(zones, runid, id, cache.tables))
  {
    ghost var es := EdgeResults(zones, runid, id, cache.tables);
    var edges: seq<Record> := [];
    var rows := Cached(cache.tables, "zone");
    var i := 0;
    while i < |zones|
      invariant 0 <= i <= |zones|
      invariant Collect(es[..i]) == Ok(edges)
    {
      CollectNext(es, i, edges);
      var k := FirstWhere(rows, "name", zones[i]);
      if k.None? {
        CollectFailed(es, i + 1);
        return Fail(Unresolved("zone", zones[i]));
      }
      edges := edges + [[("runid", runid), ("sannaventityid", id), ("zoneid", IdOf(rows[k.value]))]];
      i := i + 1;
    }
    assert es[..i] == es;
    r := Ok(edges);
  }

  /** `__format_sannav_insert_data(sannav_object, runid)`. */
  method FormatSannavInsertData(port: SwitchPort, runid: string, cache: TableCache) returns (r: Result<Formatted>)
    ensures r == SannavSpec(port, runid, cache.tables)
  {
    var prepared := Prepare(port.fields);
    if prepared.Fail? {
      return Fail(prepared.error);
    }
    var p := prepared.value;
    var copied := Fields(p.fields, EntityKeys);
    if copied.Fail? {
      return Fail(copied.error);
    }
    var ids := ResolveIds(p.fields, IdTables, cache);
    if ids.Fail? {
      return Fail(ids.error);
    }
    var entity := BaseEntity(runid, copied.value, p.device) + ids.value;
    if port.activeZones.None? {
      return Fail(MissingField("activeZones"));
    }
    var edges := BuildZoneEdges(port.activeZones.value, runid, entity[1].1, cache);
    if edges.Fail? {
      return Fail(edges.error);
    }
    r := Ok(Formatted(entity, edges.value, SwitchPort(p.fields, port.activeZones)));
  }
}
