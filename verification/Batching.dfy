/** Splitting rows into batches that stay under SQLite's limit on bound variables. */
module Batching {

  const DB_MAX_VARIABLES: int := 32766

  /** Rows per batch; Go's division truncates, which for a positive dividend Euclidean division does too. */
  function MaxRows(columns: int): int
    requires columns != 0
  {
    DB_MAX_VARIABLES / columns
  }

  /** Consecutive pieces of n rows and a shorter last one; without a positive n a single piece. */
  function Chunks<T>(rows: seq<T>, n: int): (chunks: seq<seq<T>>)
    ensures forall c :: c in chunks ==> c != []
    decreases |rows|
  {
    if rows == [] then []
    else if n <= 0 || |rows| <= n then [rows]
    else [rows[..n]] + Chunks(rows[n..], n)
  }

  function Batched<T>(rows: seq<T>, columns: int): seq<seq<T>>
    requires columns != 0
  {
    if |rows| > MaxRows(columns) then Chunks(rows, MaxRows(columns)) else [rows]
  }

  method Batch<T>(ids: seq<T>, numberOfColumns: int) returns (batches: seq<seq<T>>)
    requires numberOfColumns != 0
    ensures batches == Batched(ids, numberOfColumns)
  {
    var maxVar := MaxRows(numberOfColumns);
    batches := [];
    if |ids| > maxVar {
      var temp: seq<T> := [];
      var count := 0;
      assert temp + ids[count..] == ids;
      while count < |ids|
        invariant 0 <= count <= |ids|
        invariant maxVar > 0 ==> |temp| < maxVar
        invariant Chunks(ids, maxVar) == batches + Chunks(temp + ids[count..], maxVar)
      {
        RowMoves(ids, maxVar, batches, temp, count);
        temp := temp + [ids[count]];
        if |temp| == maxVar {
          ChunkMoves(ids, batches, temp, ids[count + 1..]);
          batches := batches + [temp];
          temp := [];
        }
        count := count + 1;
      }
      assert temp + ids[count..] == temp;
      LastChunk(temp, maxVar);
      if |temp| > 0 {
        batches := batches + [temp];
        temp := [];
      }
    } else {
      batches := batches + [ids];
    }
  }

  /** Taking row `count` into the current batch leaves the rows still to be split as they were. */
  lemma RowMoves<T>(ids: seq<T>, n: int, batches: seq<seq<T>>, temp: seq<T>, count: nat)
    requires count < |ids| && Chunks(ids, n) == batches + Chunks(temp + ids[count..], n)
    ensures Chunks(ids, n) == batches + Chunks((temp + [ids[count]]) + ids[count + 1..], n)
  {
    assert temp + ids[count..] == (temp + [ids[count]]) + ids[count + 1..];
  }

  lemma LastChunk<T>(temp: seq<T>, n: int)
    requires n > 0 ==> |temp| < n
    ensures Chunks(temp, n) == if temp == [] then [] else [temp]
  {
  }

  lemma FullChunk<T>(chunk: seq<T>, rest: seq<T>)
    requires chunk != []
    ensures Chunks(chunk + rest, |chunk|) == [chunk] + Chunks(rest, |chunk|)
  {
    if rest == [] {
      assert chunk + rest == chunk;
    } else {
      assert (chunk + rest)[..|chunk|] == chunk && (chunk + rest)[|chunk|..] == rest;
    }
  }

  /** A full batch can be appended. */
  lemma ChunkMoves<T>(ids: seq<T>, batches: seq<seq<T>>, chunk: seq<T>, rest: seq<T>)
    requires chunk != [] && Chunks(ids, |chunk|) == batches + Chunks(chunk + rest, |chunk|)
    ensures Chunks(ids, |chunk|) == (batches + [chunk]) + Chunks([] + rest, |chunk|)
  {
    var n := |chunk|;
    FullChunk(chunk, rest);
    assert [] + rest == rest;
    assert batches + ([chunk] + Chunks(rest, n)) == (batches + [chunk]) + Chunks(rest, n);
  }

  function Flatten<T>(batches: seq<seq<T>>): seq<T> {
    if batches == [] then [] else batches[0] + Flatten(batches[1..])
  }

  lemma {:induction false} FlattenChunks<T>(rows: seq<T>, n: int)
    ensures Flatten(Chunks(rows, n)) == rows
    decreases |rows|
  {
    if rows == [] {
    } else if n <= 0 || |rows| <= n {
      assert [rows][1..] == [];
    } else {
      var chunks := Chunks(rows, n);
      assert chunks[1..] == Chunks(rows[n..], n);
      FlattenChunks(rows[n..], n);
      assert rows == rows[..n] + rows[n..];
    }
  }

  /** Concatenating the batches gives the rows back, in order. */
  lemma BatchesConcatenate<T>(rows: seq<T>, columns: int)
    requires columns != 0
    ensures Flatten(Batched(rows, columns)) == rows
    ensures rows != [] ==> forall b :: b in Batched(rows, columns) ==> b != []
  {
    if |rows| > MaxRows(columns) {
      FlattenChunks(rows, MaxRows(columns));
    } else {
      assert [rows][1..] == [];
    }
  }

  /** The size of the largest batch. */
  function LargestBatch(n: nat, columns: int): nat
    requires columns != 0
  {
    if 0 < MaxRows(columns) < n then MaxRows(columns) else n
  }

  lemma {:induction false} ChunkSizes<T>(rows: seq<T>, n: int)
    requires rows != []
    ensures forall c :: c in Chunks(rows, n) ==> |c| <= if 0 < n < |rows| then n else |rows|
    ensures |Chunks(rows, n)[0]| == if 0 < n < |rows| then n else |rows|
    decreases |rows|
  {
    if 0 < n < |rows| {
      ChunkSizes(rows[n..], n);
      forall c | c in Chunks(rows, n) ensures |c| <= n {
        assert c == rows[..n] || c in Chunks(rows[n..], n);
      }
    }
  }

  lemma BatchSizes<T>(rows: seq<T>, columns: int)
    requires columns != 0
    ensures forall b :: b in Batched(rows, columns) ==> |b| <= LargestBatch(|rows|, columns)
    ensures rows != [] ==> Batched(rows, columns) != [] && |Batched(rows, columns)[0]| == LargestBatch(|rows|, columns)
  {
    if |rows| > MaxRows(columns) && rows != [] {
      ChunkSizes(rows, MaxRows(columns));
    }
  }

  ghost predicate Fits<T>(batches: seq<seq<T>>, bound: nat) {
    forall b :: b in batches ==> |b| * bound <= 32766
  }

  /**
   A caller that declares `columns` and binds `bound` variables a row stays under the limit
   exactly when the largest batch does.
   */
  lemma FitsExactly<T>(rows: seq<T>, columns: int, bound: nat)
    requires columns != 0
    ensures Fits(Batched(rows, columns), bound) <==> LargestBatch(|rows|, columns) * bound <= 32766
  {
    BatchSizes(rows, columns);
    var largest := LargestBatch(|rows|, columns);
    forall b | b in Batched(rows, columns) ensures |b| * bound <= largest * bound {
      MulGrows(|b|, largest, bound);
    }
    if rows != [] {
      assert Batched(rows, columns)[0] in Batched(rows, columns);
    }
  }

  lemma MulGrows(a: nat, b: nat, c: nat)
    requires a <= b
    ensures a * c <= b * c
  {
    assert b * c == a * c + (b - a) * c;
  }

  /** Declaring as many columns as are bound is safe for any number of rows, up to one row per statement. */
  lemma DeclaredColumnsFit<T>(rows: seq<T>, columns: nat)
    requires columns != 0
    ensures Fits(Batched(rows, columns), columns) <==> columns <= 32766 || rows == []
  {
    FitsExactly(rows, columns, columns);
    var largest, limit := LargestBatch(|rows|, columns), MaxRows(columns);
    assert limit * columns <= DB_MAX_VARIABLES;
    if columns <= DB_MAX_VARIABLES {
      assert limit >= 1;
      MulGrows(largest, limit, columns);
    } else if rows != [] {
      MulGrows(1, largest, columns);
    }
  }

  /** No batch but the last could take one more row: the first is full, for any declared columns up to the limit. */
  lemma FullBatches<T>(rows: seq<T>, columns: nat)
    requires 1 <= columns <= 32766 && |Batched(rows, columns)[0]| < |rows|
    ensures |Batched(rows, columns)[0]| * columns <= 32766 < (|Batched(rows, columns)[0]| + 1) * columns
  {
    BatchSizes(rows, columns);
    QuotientBounds(32766, columns);
  }

  lemma QuotientBounds(x: nat, d: nat)
    requires d > 0
    ensures x / d * d <= x < (x / d + 1) * d
  {
  }

  /** All batches but the last are equally large, so that the last one takes what is left. */
  lemma {:induction false} EqualChunks<T>(rows: seq<T>, n: nat, k: nat)
    requires n > 0 && k + 1 < |Chunks(rows, n)|
    ensures |Chunks(rows, n)[k]| == n
    decreases |rows|
  {
    if k > 0 {
      EqualChunks(rows[n..], n, k - 1);
    }
  }

  /** The async-task insert declares 6 columns and binds 8: it fits exactly up to 4095 tasks. */
  lemma AsyncTaskLogsFit<T>(tasks: seq<T>)
    ensures Fits(Batched(tasks, 6), 8) <==> |tasks| <= 4095
  {
    FitsExactly(tasks, 6, 8);
  }
}
