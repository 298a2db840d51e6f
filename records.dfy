/**
  Value types shared by the whole model: ordered records (Python dicts as the
  sync job builds them), rows read back from the store, and the failure
  wrapper used where the job raises an exception it does not catch.
*/
module Records {

  datatype Option<T> = None | Some(value: T)

  /** Why formatting stopped: a key missing from a dict (KeyError), a name
      not found in a cached table (IndexError on `[0]`), or a look-up in an
      empty cached table, which raises IndexError without reading the key. */
  datatype Failure =
    | MissingField(name: string)
    | Unresolved(table: string, name: string)
    | EmptyTable(table: string)

  datatype Result<T> = Ok(value: T) | Fail(error: Failure)

  /** A Python dict as the job builds it: key/value pairs in insertion order. */
  type Record = seq<(string, string)>

  /** A row as the store returns it: column name to value. A column that is
      missing from a row stands for SQL NULL. */
  type Row = map<string, string>

  function Keys(r: Record): (ks: seq<string>)
    ensures |ks| == |r|
    ensures forall i :: 0 <= i < |r| ==> ks[i] == r[i].0
  {
    if r == [] then [] else [r[0].0] + Keys(r[1..])
  }

  function Values(r: Record): (vs: seq<string>)
    ensures |vs| == |r|
    ensures forall i :: 0 <= i < |r| ==> vs[i] == r[i].1
  {
    if r == [] then [] else [r[0].1] + Values(r[1..])
  }

  /** `d[key]` on an ordered dict: the value of the first pair with that key. */
  function Lookup(r: Record, key: string): (v: Option<string>)
    ensures v.Some? <==> key in Keys(r)
  {
    if r == [] then None
    else if r[0].0 == key then Some(r[0].1)
    else Lookup(r[1..], key)
  }

  /** All results when every one is `Ok`, else the first failure: a loop
      whose first raising step ends it. */
  function Collect<T>(rs: seq<Result<T>>): (r: Result<seq<T>>)
    ensures r.Ok? ==> |r.value| == |rs|
  {
    if rs == [] then Ok([])
    else
      match Collect(rs[..|rs| - 1])
      case Fail(e) => Fail(e)
      case Ok(vs) =>
        match rs[|rs| - 1]
        case Fail(e) => Fail(e)
        case Ok(v) => Ok(vs + [v])
  }

  /** Collecting succeeds exactly when every result is `Ok`, and then keeps
      every value in order; otherwise it is the first failure. */
  lemma {:induction false} CollectAll<T>(rs: seq<Result<T>>)
    ensures var r := Collect(rs);
      && (r.Ok? <==> forall j :: 0 <= j < |rs| ==> rs[j].Ok?)
      && (r.Ok? ==> forall j :: 0 <= j < |rs| ==> rs[j] == Ok(r.value[j]))
      && (r.Fail? ==> exists j :: 0 <= j < |rs| && rs[j] == Fail(r.error) && forall i :: 0 <= i < j ==> rs[i].Ok?)
    decreases |rs|
  {
    if rs != [] {
      var n := |rs| - 1;
      var front := rs[..n];
      CollectAll(front);
      assert forall j :: 0 <= j < n ==> front[j] == rs[j];
      var rf := Collect(front);
      if rf.Fail? {
        var j :| 0 <= j < n && front[j] == Fail(rf.error) && forall i :: 0 <= i < j ==> front[i].Ok?;
        assert rs[j] == Fail(rf.error);
      } else if rs[n].Fail? {
        assert forall i :: 0 <= i < n ==> rs[i].Ok?;
      } else {
        var r := Collect(rs);
        assert r.value == rf.value + [rs[n].value];
        assert forall j :: 0 <= j < n ==> r.value[j] == rf.value[j];
      }
    }
  }

  /** Once a prefix fails, the whole collection fails the same way: the loop
      stops at the first failure. */
  lemma {:induction false} CollectFailed<T>(rs: seq<Result<T>>, n: nat)
    requires n <= |rs| && Collect(rs[..n]).Fail?
    ensures Collect(rs) == Collect(rs[..n])
    decreases |rs| - n
  {
    if n < |rs| {
      assert rs[..n + 1][..n] == rs[..n];
      CollectFailed(rs, n + 1);
    } else {
      assert rs[..n] == rs;
    }
  }

  /** One more result collected: a failure ends the collection, a value
      extends it. */
  lemma CollectNext<T>(rs: seq<Result<T>>, i: nat, vs: seq<T>)
    requires i < |rs| && Collect(rs[..i]) == Ok(vs)
    ensures Collect(rs[..i + 1]) == if rs[i].Ok? then Ok(vs + [rs[i].value]) else Fail(rs[i].error)
  {
    assert rs[..i + 1][..i] == rs[..i];
  }

  /** A key's value is the one at its first occurrence. */
  lemma {:induction false} LookupAt(r: Record, i: nat)
    requires i < |r| && forall j :: 0 <= j < i ==> r[j].0 != r[i].0
    ensures Lookup(r, r[i].0) == Some(r[i].1)
  {
    if i > 0 {
      LookupAt(r[1..], i - 1);
    }
  }

  /** `d[key] = v` on a dict without `key` adds the pair at the end. */
  lemma {:induction false} LookupAppend(r: Record, key: string, v: string, k: string)
    ensures Lookup(r + [(key, v)], k) == if Lookup(r, k).Some? then Lookup(r, k) else if k == key then Some(v) else None
  {
    if r != [] {
      assert (r + [(key, v)])[1..] == r[1..] + [(key, v)];
      LookupAppend(r[1..], key, v, k);
    }
  }

  lemma KeysAppend(a: Record, b: Record)
    ensures Keys(a + b) == Keys(a) + Keys(b)
  {
    assert forall i :: 0 <= i < |a + b| ==> Keys(a + b)[i] == (Keys(a) + Keys(b))[i];
  }

  /** The dict literal `{ks[0]: vs[0], ks[1]: vs[1], ...}`. */
  function Zip(ks: seq<string>, vs: seq<string>): (r: Record)
    requires |ks| == |vs|
    ensures Keys(r) == ks && Values(r) == vs
  {
    seq(|ks|, i requires 0 <= i < |ks| => (ks[i], vs[i]))
  }

  /** `r[keys[0]]`, `r[keys[1]]`, ... read in order; the first missing key raises. */
  function Fields(r: Record, keys: seq<string>): (res: Result<seq<string>>)
    ensures res.Ok? ==> |res.value| == |keys|
  {
    if keys == [] then Ok([])
    else match Lookup(r, keys[0])
      case None => Fail(MissingField(keys[0]))
      case Some(v) =>
        match Fields(r, keys[1..])
        case Fail(e) => Fail(e)
        case Ok(vs) => Ok([v] + vs)
  }

  /** The reads succeed exactly when every key is present, and then give each
      key's value in key order; otherwise the error names the first key, in
      reading order, that is missing. */
  lemma {:induction false} FieldsRead(r: Record, keys: seq<string>)
    ensures var res := Fields(r, keys);
      && (res.Ok? <==> forall i :: 0 <= i < |keys| ==> keys[i] in Keys(r))
      && (res.Ok? ==> forall i :: 0 <= i < |keys| ==> Lookup(r, keys[i]) == Some(res.value[i]))
      && (res.Fail? ==> exists j :: 0 <= j < |keys| && res.error == MissingField(keys[j])
                                     && keys[j] !in Keys(r) && forall i :: 0 <= i < j ==> keys[i] in Keys(r))
  {
    if keys != [] {
      FieldsRead(r, keys[1..]);
      var res := Fields(r, keys);
      var rest := Fields(r, keys[1..]);
      if Lookup(r, keys[0]).None? {
        assert res.error == MissingField(keys[0]);
      } else if rest.Fail? {
        var j :| 0 <= j < |keys[1..]| && rest.error == MissingField(keys[1..][j])
                 && keys[1..][j] !in Keys(r) && forall i :: 0 <= i < j ==> keys[1..][i] in Keys(r);
        assert res.error == MissingField(keys[j + 1]);
        assert forall i :: 0 < i < j + 1 ==> keys[i] == keys[1..][i - 1];
      } else {
        assert forall i :: 0 < i < |keys| ==> keys[i] == keys[1..][i - 1] && res.value[i] == rest.value[i - 1];
      }
    }
  }

  /** `d[key] = v`: the value of an existing key is replaced in place, a new
      key is added at the end. */
  function Put(r: Record, key: string, v: string): (p: Record)
    ensures Lookup(p, key) == Some(v)
    ensures forall k :: k != key ==> Lookup(p, k) == Lookup(r, k)
  {
    if r == [] then [(key, v)]
    else if r[0].0 == key then [(key, v)] + r[1..]
    else [r[0]] + Put(r[1..], key, v)
  }

  /** `row[column]` where a missing column reads as NULL. */
  function Get(row: Row, column: string): Option<string>
  {
    if column in row then Some(row[column]) else None
  }

  /** The first row whose `column` equals `value`, as the list comprehensions
      `[item for item in rows if item[column] == value][0]` find it. */
  function FirstWhere(rows: seq<Row>, column: string, value: string): (r: Option<nat>)
    ensures r.Some? ==> r.value < |rows| && Get(rows[r.value], column) == Some(value)
    ensures r.Some? ==> forall j :: 0 <= j < r.value ==> Get(rows[j], column) != Some(value)
    ensures r.None? <==> forall j :: 0 <= j < |rows| ==> Get(rows[j], column) != Some(value)
  {
    if rows == [] then None
    else if Get(rows[0], column) == Some(value) then Some(0)
    else match FirstWhere(rows[1..], column, value)
      case None => None
      case Some(k) => Some(k + 1)
  }

  /** The search depends only on each row's value in the searched column. */
  lemma {:induction false} FirstWhereSame(rows: seq<Row>, rows': seq<Row>, column: string, value: string)
    requires |rows| == |rows'|
    requires forall j :: 0 <= j < |rows| ==> Get(rows[j], column) == Get(rows'[j], column)
    ensures FirstWhere(rows, column, value) == FirstWhere(rows', column, value)
  {
    if rows != [] {
      FirstWhereSame(rows[1..], rows'[1..], column, value);
    }
  }

  /** Searching rows with one more row at the end finds an earlier match
      first, and otherwise the new row when it matches. */
  lemma FirstWhereAppend(rows: seq<Row>, row: Row, column: string, value: string)
    ensures var r := FirstWhere(rows + [row], column, value);
      && (FirstWhere(rows, column, value).Some? ==> r == FirstWhere(rows, column, value))
      && (FirstWhere(rows, column, value).None? ==>
            r == if Get(row, column) == Some(value) then Some(|rows|) else None)
  {
    var all := rows + [row];
    var r := FirstWhere(all, column, value);
    var f := FirstWhere(rows, column, value);
    if f.Some? {
      assert all[f.value] == rows[f.value];
      assert r.Some? && r.value <= f.value;
      assert all[r.value] == rows[r.value];
    } else if Get(row, column) == Some(value) {
      assert all[|rows|] == row;
      forall j | 0 <= j < |rows| ensures Get(all[j], column) != Some(value) {
        assert all[j] == rows[j];
      }
    } else {
      forall j | 0 <= j < |all| ensures Get(all[j], column) != Some(value) {
        if j < |rows| {
          assert all[j] == rows[j];
        }
      }
    }
  }

  /** Decimal text of a natural number, as `str(n)` renders an identity value. */
  function NatText(n: nat): (s: string)
    ensures |s| >= 1
    ensures forall i :: 0 <= i < |s| ==> '0' <= s[i] <= '9'
  {
    if n < 10 then [Digit(n)] else NatText(n / 10) + [Digit(n % 10)]
  }

  function Digit(d: nat): (c: char)
    requires d < 10
    ensures '0' <= c <= '9'
  {
    ['0', '1', '2', '3', '4', '5', '6', '7', '8', '9'][d]
  }

  /** `f'{row["ID"]}'`: the identity of a cached row as text; a row without
      one renders as Python's `str(None)`. */
  function IdOf(row: Row): string
  {
    if "ID" in row then row["ID"] else "None"
  }
}
