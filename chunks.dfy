/**
  Splitting a sequence into consecutive blocks of a fixed size, as the batch
  writer groups its value rows, and the arithmetic facts about the number and
  sizes of the blocks.
*/
module Blocks {

  /** Consecutive blocks of `b` items; the last block holds the rest. */
  function Chunks<T>(s: seq<T>, b: nat): (blocks: seq<seq<T>>)
    requires b > 0
    decreases |s|
  {
    if |s| == 0 then []
    else if |s| <= b then [s]
    else [s[..b]] + Chunks(s[b..], b)
  }

  function Flatten<T>(blocks: seq<seq<T>>): seq<T>
  {
    if blocks == [] then [] else blocks[0] + Flatten(blocks[1..])
  }

  lemma ChunksHead<T>(s: seq<T>, b: nat)
    requires b > 0 && |s| >= b
    ensures Chunks(s, b) == [s[..b]] + Chunks(s[b..], b)
  {
    if |s| == b {
      assert s[..b] == s;
      assert s[b..] == [];
    }
  }

  lemma DivStep(x: nat, b: nat)
    requires b > 0
    ensures (x + b) / b == x / b + 1 && (x + b) % b == x % b
  {
    var q, r := x / b, x % b;
    assert x == b * q + r;
    assert x + b == b * (q + 1) + r;
    DivUnique(x + b, b, q + 1, r);
  }

  lemma DivUnique(x: nat, b: nat, q: int, r: int)
    requires b > 0 && 0 <= r < b && x == b * q + r
    ensures x / b == q && x % b == r
  {
    var q', r' := x / b, x % b;
    assert b * q' + r' == b * q + r;
    if q' > q {
      assert b * q' >= b * (q + 1) by { MulMono(b, q + 1, q'); }
    } else if q' < q {
      assert b * q >= b * (q' + 1) by { MulMono(b, q' + 1, q); }
    }
  }

  lemma MulMono(b: nat, x: int, y: int)
    requires x <= y
    ensures b * x <= b * y
  {
  }

  /** There are ceil(n/b) blocks. */
  lemma {:induction false} ChunkCount<T>(s: seq<T>, b: nat)
    requires b > 0
    ensures |Chunks(s, b)| == (|s| + b - 1) / b
    decreases |s|
  {
    if |s| > b {
      ChunkCount(s[b..], b);
      DivStep(|s| - 1, b);
      assert |s| + b - 1 == (|s[b..]| + b - 1) + b;
    } else if |s| > 0 {
      DivUnique(|s| + b - 1, b, 1, |s| - 1);
    } else {
      DivUnique(b - 1, b, 0, b - 1);
    }
  }

  /** Every block but the last holds exactly `b` items; the last holds
      `n mod b` items when that is not zero, and `b` otherwise. */
  lemma {:induction false} ChunkSizes<T>(s: seq<T>, b: nat)
    requires b > 0
    ensures forall k :: 0 <= k < |Chunks(s, b)| - 1 ==> |Chunks(s, b)[k]| == b
    ensures |s| > 0 ==> |Chunks(s, b)[|Chunks(s, b)| - 1]| == if |s| % b == 0 then b else |s| % b
    decreases |s|
  {
    if |s| > b {
      ChunkSizes(s[b..], b);
      assert |s[b..]| % b == |s| % b by {
        DivStep(|s[b..]|, b);
      }
      var c := Chunks(s, b);
      assert c == [s[..b]] + Chunks(s[b..], b);
      forall k | 0 <= k < |c| - 1 ensures |c[k]| == b {
        if k > 0 { assert c[k] == Chunks(s[b..], b)[k - 1]; }
      }
    } else if |s| == b {
      DivUnique(|s|, b, 1, 0);
    } else if |s| > 0 {
      DivUnique(|s|, b, 0, |s|);
    }
  }

  /** The blocks hold every item exactly once, in input order. */
  lemma {:induction false} ChunkFlatten<T>(s: seq<T>, b: nat)
    requires b > 0
    ensures Flatten(Chunks(s, b)) == s
    decreases |s|
  {
    if |s| > b {
      ChunkFlatten(s[b..], b);
      assert Chunks(s, b)[1..] == Chunks(s[b..], b);
      assert s == s[..b] + s[b..];
    } else if |s| > 0 {
      assert Flatten([s]) == s + Flatten([]);
    }
  }

  lemma ConcatAssoc<T>(a: seq<T>, b: seq<T>, c: seq<T>)
    ensures a + b + c == a + (b + c)
  {
  }

  lemma ConcatAssoc4<T>(a: seq<T>, b: seq<T>, c: seq<T>, d: seq<T>)
    ensures a + b + c + d == a + (b + c + d)
  {
  }

  lemma SliceExtend<T>(s: seq<T>, a: nat, i: nat)
    requires a <= i < |s|
    ensures s[a..i + 1] == s[a..i] + [s[i]]
  {
  }
}
