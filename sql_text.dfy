/**
  Text handling of the sync job: SQL quote doubling and the store's reading of
  a quoted literal, Python's `str.split`, `",".join`, and the exact text of
  every statement the job hands to the driver.
*/
module SqlText {

  const Quote: char := '\''

  /** `s.replace("'", "''")`: every single quote doubled. */
  function Escape(s: string): (e: string)
    ensures |e| >= |s|
  {
    if s == [] then []
    else (if s[0] == Quote then [Quote, Quote] else [s[0]]) + Escape(s[1..])
  }

  predicate NoQuote(s: string)
  {
    forall i :: 0 <= i < |s| ==> s[i] != Quote
  }

  /** The content of a quoted SQL literal is well formed when its quotes come
      in adjacent pairs; a lone quote would end the literal early. */
  predicate WellQuoted(s: string)
  {
    if s == [] then true
    else if s[0] == Quote then |s| >= 2 && s[1] == Quote && WellQuoted(s[2..])
    else WellQuoted(s[1..])
  }

  /** The value the store keeps for literal content `s`: each `''` read as `'`. */
  function Unescape(s: string): string
  {
    if s == [] then []
    else if |s| >= 2 && s[0] == Quote && s[1] == Quote then [Quote] + Unescape(s[2..])
    else [s[0]] + Unescape(s[1..])
  }

  lemma {:induction false} EscapeWellQuoted(s: string)
    ensures WellQuoted(Escape(s))
  {
    if s != [] {
      EscapeWellQuoted(s[1..]);
      var head := if s[0] == Quote then [Quote, Quote] else [s[0]];
      assert Escape(s) == head + Escape(s[1..]);
      if s[0] == Quote {
        assert Escape(s)[2..] == Escape(s[1..]);
      } else {
        assert Escape(s)[1..] == Escape(s[1..]);
      }
    }
  }

  /** Reading an escaped value back gives the original value. */
  lemma {:induction false} UnescapeEscape(s: string)
    ensures Unescape(Escape(s)) == s
  {
    if s != [] {
      UnescapeEscape(s[1..]);
      if s[0] == Quote {
        assert Escape(s) == [Quote, Quote] + Escape(s[1..]);
        assert Escape(s)[2..] == Escape(s[1..]);
      } else {
        assert Escape(s) == [s[0]] + Escape(s[1..]);
        assert Escape(s)[1..] == Escape(s[1..]);
      }
    }
  }

  /** The converse: every well-formed literal content is the escape of what the
      store reads from it, so escaping is a bijection onto well-formed content. */
  lemma {:induction false} EscapeUnescape(t: string)
    requires WellQuoted(t)
    ensures Escape(Unescape(t)) == t
  {
    if t != [] {
      if t[0] == Quote {
        EscapeUnescape(t[2..]);
        assert t == [Quote, Quote] + t[2..];
      } else {
        EscapeUnescape(t[1..]);
        assert t == [t[0]] + t[1..];
      }
    }
  }

  /** A value without quotes is left as it is by escaping and by reading back. */
  lemma {:induction false} QuoteFreeUnchanged(s: string)
    requires NoQuote(s)
    ensures Escape(s) == s && WellQuoted(s) && Unescape(s) == s
  {
    if s != [] {
      QuoteFreeUnchanged(s[1..]);
      assert s == [s[0]] + s[1..];
    }
  }

  /** Escaping adds exactly one character per quote and keeps every other
      character, in order. */
  lemma {:induction false} EscapeLength(s: string)
    ensures |Escape(s)| == |s| + QuoteCount(s)
  {
    if s != [] { EscapeLength(s[1..]); }
  }

  function QuoteCount(s: string): nat
  {
    if s == [] then 0 else (if s[0] == Quote then 1 else 0) + QuoteCount(s[1..])
  }

  /** `sep.join(parts)`. */
  function Join(sep: string, parts: seq<string>): string
  {
    if |parts| == 0 then []
    else if |parts| == 1 then parts[0]
    else parts[0] + sep + Join(sep, parts[1..])
  }

  /** `s.split(sep)` for a one-character separator: the empty string splits
      into one empty part, and an empty part stands between adjacent separators. */
  function Split(s: string, sep: char): (parts: seq<string>)
    ensures |parts| >= 1
  {
    if s == [] then [[]]
    else if s[0] == sep then [[]] + Split(s[1..], sep)
    else
      var rest := Split(s[1..], sep);
      [[s[0]] + rest[0]] + rest[1..]
  }

  /** Splitting on a separator and joining with it again gives the input back;
      no part contains the separator. */
  lemma {:induction false} JoinSplit(s: string, sep: char)
    ensures Join([sep], Split(s, sep)) == s
    ensures forall k, i :: 0 <= k < |Split(s, sep)| && 0 <= i < |Split(s, sep)[k]| ==> Split(s, sep)[k][i] != sep
  {
    if s != [] {
      JoinSplit(s[1..], sep);
      var rest := Split(s[1..], sep);
      if s[0] == sep {
        assert Split(s, sep) == [[]] + rest;
        assert Split(s, sep)[1..] == rest;
      } else {
        var parts := Split(s, sep);
        assert parts == [[s[0]] + rest[0]] + rest[1..];
        if |rest| == 1 {
          assert Join([sep], parts) == [s[0]] + rest[0];
        } else {
          assert parts[1..] == rest[1..];
          assert Join([sep], rest) == rest[0] + [sep] + Join([sep], rest[1..]);
        }
        forall k, i | 0 <= k < |parts| && 0 <= i < |parts[k]|
          ensures parts[k][i] != sep
        {
          if k == 0 {
            if i > 0 { assert parts[0][i] == rest[0][i - 1]; }
          } else {
            assert parts[k] == rest[k];
          }
        }
      }
    }
  }

  /** ASCII lower case; the store resolves column names without regard to case. */
  function Lower(s: string): (l: string)
    ensures |l| == |s|
  {
    seq(|s|, i requires 0 <= i < |s| => if 'A' <= s[i] <= 'Z' then (s[i] as int + 32) as char else s[i])
  }

  /** Python's `sub in s`. */
  predicate Contains(s: string, sub: string)
  {
    if |s| < |sub| then false else s[..|sub|] == sub || Contains(s[1..], sub)
  }

  /** A statement as the job issues it. Values are the literal contents placed
      between quotes, exactly as the job formatted them. */
  datatype Statement =
    | InsertOne(table: string, columns: seq<string>, values: seq<string>)
    | InsertBlock(table: string, columns: seq<string>, rows: seq<seq<string>>)
    | Update(table: string, sets: seq<(string, string)>, whereColumn: string, whereValue: string)
    | Truncate(table: string)
    | Select(table: string)

  function Bracketed(names: seq<string>): (r: seq<string>)
    ensures |r| == |names|
  {
    seq(|names|, i requires 0 <= i < |names| => "[" + names[i] + "]")
  }

  function Quoted(values: seq<string>): (r: seq<string>)
    ensures |r| == |values|
  {
    seq(|values|, i requires 0 <= i < |values| => "'" + values[i] + "'")
  }

  /** One parenthesised row of values of a multi-row INSERT. */
  function RowText(values: seq<string>): string
  {
    "(" + Join(",", Quoted(values)) + ")"
  }

  function RowTexts(rows: seq<seq<string>>): (r: seq<string>)
    ensures |r| == |rows|
  {
    seq(|rows|, i requires 0 <= i < |rows| => RowText(rows[i]))
  }

  /** The statement text up to and including `VALUES\r\n` of a multi-row INSERT. */
  function BlockHeader(table: string, columns: seq<string>): string
  {
    "INSERT INTO [dbo].[" + table + "] (" + Join(",", Bracketed(columns)) + ") VALUES\r\n"
  }

  function SetText(sets: seq<(string, string)>): (r: seq<string>)
    ensures |r| == |sets|
  {
    seq(|sets|, i requires 0 <= i < |sets| => "[" + sets[i].0 + "] = '" + sets[i].1 + "'\r\n")
  }

  /** The exact text handed to `cursor.execute`. */
  function Sql(s: Statement): string
  {
    match s
    case InsertOne(t, cs, vs) =>
      "INSERT INTO [dbo].[" + t + "] (" + Join(",", Bracketed(cs)) + ") VALUES(" + Join(",", Quoted(vs)) + ")"
    case InsertBlock(t, cs, rows) =>
      BlockHeader(t, cs) + Join(",\r\n", RowTexts(rows))
    case Update(t, sets, wc, wv) =>
      "UPDATE [dbo].[" + t + "]\r\nSET " + Join(",", SetText(sets)) + "WHERE " + wc + " = '" + wv + "'"
    case Truncate(t) =>
      "TRUNCATE TABLE [dbo].[" + t + "]"
    case Select(t) =>
      "SELECT * FROM [storagetooling].[dbo].[" + t + "]"
  }

  /** `"".join(p + sep for p in parts)`: what the batch writer's accumulator
      holds after the header. */
  function Terminated(sep: string, parts: seq<string>): string
  {
    if parts == [] then [] else parts[0] + sep + Terminated(sep, parts[1..])
  }

  lemma {:induction false} TerminatedAppend(sep: string, parts: seq<string>, p: string)
    ensures Terminated(sep, parts + [p]) == Terminated(sep, parts) + p + sep
  {
    if parts == [] {
      assert parts + [p] == [p];
    } else {
      assert (parts + [p])[1..] == parts[1..] + [p];
      TerminatedAppend(sep, parts[1..], p);
    }
  }

  /** Dropping the final separator of a non-empty terminated list gives the
      joined list: the batch writer's `block[:-3]` before each execute. */
  lemma {:induction false} TerminatedIsJoinPlusSep(sep: string, parts: seq<string>)
    requires |parts| >= 1
    ensures Terminated(sep, parts) == Join(sep, parts) + sep
  {
    if |parts| > 1 {
      TerminatedIsJoinPlusSep(sep, parts[1..]);
    }
  }
}
