/**
  The relational store behind the driver connection, as the sync job sees it:
  named tables of rows, an identity counter, the tables on which every
  statement fails, and the log of statements issued and commits made.
*/
module StoreModel {
  import opened Records
  import opened SqlText

  /** One entry of the store's log: a statement the store carried out, a
      statement it refused (the driver raises), or a commit. */
  datatype Event = Executed(stmt: Statement) | Rejected(stmt: Statement) | Committed

  /** The store as a value: what the spec functions below transform. */
  datatype Db = Db(tables: map<string, seq<Row>>, nextId: nat, refused: set<string>, log: seq<Event>)

  function TableRows(d: Db, table: string): seq<Row>
  {
    if table in d.tables then d.tables[table] else []
  }

  function TableOf(s: Statement): string
  {
    match s
    case InsertOne(t, _, _) => t
    case InsertBlock(t, _, _) => t
    case Update(t, _, _, _) => t
    case Truncate(t) => t
    case Select(t) => t
  }

  predicate AllWellQuoted(values: seq<string>)
  {
    forall i :: 0 <= i < |values| ==> WellQuoted(values[i])
  }

  /** Whether the store carries out a statement: its table is not one the
      store refuses, an INSERT names at least one column, every literal is
      well formed, every row has one value per column, and an UPDATE sets at
      least one column. */
  predicate Accepts(d: Db, s: Statement)
  {
    TableOf(s) !in d.refused &&
    match s
    case InsertOne(_, cs, vs) => |cs| > 0 && |vs| == |cs| && AllWellQuoted(vs)
    case InsertBlock(_, cs, rows) =>
      |cs| > 0 && |rows| > 0 && forall i :: 0 <= i < |rows| ==> |rows[i]| == |cs| && AllWellQuoted(rows[i])
    case Update(_, sets, _, wv) =>
      |sets| > 0 && WellQuoted(wv) && forall i :: 0 <= i < |sets| ==> WellQuoted(sets[i].1)
    case Truncate(_) => true
    case Select(_) => true
  }

  /** The row an INSERT creates: each column holds what the store reads from
      its literal, and the identity column holds the next identity. */
  function NewRow(columns: seq<string>, values: seq<string>, id: nat): (r: Row)
    ensures "ID" in r && r["ID"] == NatText(id)
  {
    Decoded(columns, values)["ID" := NatText(id)]
  }

  function Decoded(columns: seq<string>, values: seq<string>): (r: Row)
    ensures |values| == |columns| ==> forall i :: 0 <= i < |columns| ==> columns[i] in r
    ensures forall c :: c in r ==> c in columns
  {
    if columns == [] || values == [] then map[]
    else Decoded(columns[1..], values[1..])[columns[0] := Unescape(values[0])]
  }

  /** A column of an INSERT holds what the store reads from its first
      literal. */
  lemma {:induction false} DecodedAt(columns: seq<string>, values: seq<string>, j: nat)
    requires j < |columns| == |values| && forall i :: 0 <= i < j ==> columns[i] != columns[j]
    ensures columns[j] in Decoded(columns, values) && Decoded(columns, values)[columns[j]] == Unescape(values[j])
  {
    if j > 0 {
      DecodedAt(columns[1..], values[1..], j - 1);
    }
  }

  /** A column of an INSERT other than the identity holds what the store
      reads from its first literal. */
  lemma NewRowAt(columns: seq<string>, values: seq<string>, id: nat, j: nat)
    requires j < |columns| == |values| && columns[j] != "ID"
    requires forall i :: 0 <= i < j ==> columns[i] != columns[j]
    ensures Get(NewRow(columns, values, id), columns[j]) == Some(Unescape(values[j]))
  {
    DecodedAt(columns, values, j);
  }

  /** The rows a multi-row INSERT creates, with consecutive identities. */
  function NewRows(columns: seq<string>, rows: seq<seq<string>>, id: nat): (r: seq<Row>)
    ensures |r| == |rows|
  {
    if rows == [] then [] else [NewRow(columns, rows[0], id)] + NewRows(columns, rows[1..], id + 1)
  }

  /** Row `i` of a multi-row INSERT is the row of value row `i` with identity `id + i`. */
  lemma {:induction false} NewRowsAt(columns: seq<string>, rows: seq<seq<string>>, id: nat, i: nat)
    requires i < |rows|
    ensures NewRows(columns, rows, id)[i] == NewRow(columns, rows[i], id + i)
  {
    if i > 0 {
      NewRowsAt(columns, rows[1..], id + 1, i - 1);
    }
  }

  /** `WHERE column = 'value'`: the column is found without regard to case. */
  predicate Matches(row: Row, column: string, value: string)
  {
    exists k | k in row :: Lower(k) == Lower(column) && row[k] == value
  }

  function SetColumns(row: Row, sets: seq<(string, string)>): (r: Row)
    ensures forall c :: c in row ==> c in r
    decreases |sets|
  {
    if sets == [] then row else SetColumns(row[sets[0].0 := Unescape(sets[0].1)], sets[1..])
  }

  /** The rows after `UPDATE ... SET sets WHERE column = 'value'`: each
      matching row has the set columns replaced, the others stay as they are. */
  function Updated(rows: seq<Row>, sets: seq<(string, string)>, column: string, value: string): (r: seq<Row>)
    ensures |r| == |rows|
  {
    if rows == [] then []
    else [if Matches(rows[0], column, value) then SetColumns(rows[0], sets) else rows[0]]
         + Updated(rows[1..], sets, column, value)
  }

  /** A column no assignment names keeps its value. */
  lemma {:induction false} SetColumnsOther(row: Row, sets: seq<(string, string)>, c: string)
    requires forall i :: 0 <= i < |sets| ==> sets[i].0 != c
    ensures Get(SetColumns(row, sets), c) == Get(row, c)
    decreases |sets|
  {
    if sets != [] {
      SetColumnsOther(row[sets[0].0 := Unescape(sets[0].1)], sets[1..], c);
    }
  }

  /** With no column assigned twice, each assigned column holds the value
      the store reads from its literal. */
  lemma {:induction false} SetColumnsAt(row: Row, sets: seq<(string, string)>, j: nat)
    requires j < |sets|
    requires forall i, i' :: 0 <= i < i' < |sets| ==> sets[i].0 != sets[i'].0
    ensures Get(SetColumns(row, sets), sets[j].0) == Some(Unescape(sets[j].1))
    decreases |sets|
  {
    var next := row[sets[0].0 := Unescape(sets[0].1)];
    if j == 0 {
      SetColumnsOther(next, sets[1..], sets[0].0);
    } else {
      SetColumnsAt(next, sets[1..], j - 1);
    }
  }

  /** Row `k` after an UPDATE: assigned when it matches the WHERE clause. */
  lemma {:induction false} UpdatedAt(rows: seq<Row>, sets: seq<(string, string)>, column: string, value: string, k: nat)
    requires k < |rows|
    ensures Updated(rows, sets, column, value)[k] ==
            if Matches(rows[k], column, value) then SetColumns(rows[k], sets) else rows[k]
  {
    if k > 0 {
      UpdatedAt(rows[1..], sets, column, value, k - 1);
    }
  }

  function Apply(d: Db, s: Statement): (r: Db)
    requires Accepts(d, s)
    ensures r.refused == d.refused && r.log == d.log
  {
    match s
    case InsertOne(t, cs, vs) =>
      d.(tables := d.tables[t := TableRows(d, t) + [NewRow(cs, vs, d.nextId)]], nextId := d.nextId + 1)
    case InsertBlock(t, cs, rows) =>
      d.(tables := d.tables[t := TableRows(d, t) + NewRows(cs, rows, d.nextId)], nextId := d.nextId + |rows|)
    case Update(t, sets, wc, wv) =>
      d.(tables := d.tables[t := Updated(TableRows(d, t), sets, wc, Unescape(wv))])
    case Truncate(t) =>
      d.(tables := d.tables[t := []])
    case Select(_) =>
      d
  }

  /** A store after a step, and whether the step went through. */
  datatype DbStep = DbStep(db: Db, ok: bool)

  /** `cursor.execute(sql)`: carried out and logged, or refused, logged and
      reported with ok false. */
  function Exec(d: Db, s: Statement): (r: DbStep)
    ensures r.ok == Accepts(d, s)
    ensures r.db.refused == d.refused
    ensures r.db.log == d.log + [if r.ok then Executed(s) else Rejected(s)]
    ensures !r.ok ==> r.db.tables == d.tables && r.db.nextId == d.nextId
  {
    if Accepts(d, s) then DbStep(Apply(d, s).(log := d.log + [Executed(s)]), true)
    else DbStep(d.(log := d.log + [Rejected(s)]), false)
  }

  /** `conn.commit()`. */
  function CommitDb(d: Db): (r: Db)
    ensures r.tables == d.tables && r.nextId == d.nextId && r.refused == d.refused
    ensures r.log == d.log + [Committed]
  {
    d.(log := d.log + [Committed])
  }

  /** The driver connection and the store behind it. */
  class Store {
    var tables: map<string, seq<Row>>
    var nextId: nat
    var refused: set<string>
    var log: seq<Event>

    function State(): Db
      reads this
    {
      Db(tables, nextId, refused, log)
    }

    constructor (tables: map<string, seq<Row>>, nextId: nat, refused: set<string>)
      ensures State() == Db(tables, nextId, refused, [])
    {
      this.tables := tables;
      this.nextId := nextId;
      this.refused := refused;
      this.log := [];
    }

    /** Runs the statement whose text is `sql`. */
    method Execute(sql: string, s: Statement) returns (ok: bool)
      requires sql == Sql(s)
      modifies this
      ensures State() == Exec(old(State()), s).db
      ensures ok == Exec(old(State()), s).ok
    {
      var r := Exec(State(), s);
      tables, nextId, log := r.db.tables, r.db.nextId, r.db.log;
      ok := r.ok;
    }

    method Commit()
      modifies this
      ensures State() == CommitDb(old(State()))
    {
      log := log + [Committed];
    }
  }
}
