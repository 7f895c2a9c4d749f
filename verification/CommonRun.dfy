/** The longest common contiguous run of two lists, by filling a table of run lengths. */
module CommonRun {
  import opened Results

  /** src[i..i+n] and dst[j..j+n] are equal runs. */
  ghost predicate Run<T>(src: seq<T>, dst: seq<T>, i: int, j: int, n: int) {
    0 <= i && 0 <= j && 0 <= n && i + n <= |src| && j + n <= |dst| && src[i..i + n] == dst[j..j + n]
  }

  /** Length of the longest equal run that ends at positions i and j. */
  function EndingAt<T(==)>(src: seq<T>, dst: seq<T>, i: nat, j: nat): (n: nat)
    requires i < |src| && j < |dst|
    ensures n <= i + 1 && n <= j + 1
    decreases i
  {
    if src[i] != dst[j] then 0 else if i == 0 || j == 0 then 1 else EndingAt(src, dst, i - 1, j - 1) + 1
  }

  lemma {:induction false} EndingIsRun<T>(src: seq<T>, dst: seq<T>, i: nat, j: nat)
    requires i < |src| && j < |dst|
    ensures var n := EndingAt(src, dst, i, j); Run(src, dst, i + 1 - n, j + 1 - n, n)
    decreases i
  {
    hide Run;
    NoRun(src, dst, i + 1, j + 1);
    NoRun(src, dst, i, j);
    if src[i] == dst[j] {
      if i > 0 && j > 0 {
        EndingIsRun(src, dst, i - 1, j - 1);
        var n := EndingAt(src, dst, i - 1, j - 1);
        ExtendRun(src, dst, i - n, j - n, n);
      } else {
        ExtendRun(src, dst, i, j, 0);
      }
    }
  }

  lemma NoRun<T>(src: seq<T>, dst: seq<T>, i: nat, j: nat)
    requires i <= |src| && j <= |dst|
    ensures Run(src, dst, i, j, 0)
  {
  }

  lemma ExtendRun<T>(src: seq<T>, dst: seq<T>, i: nat, j: nat, n: nat)
    requires Run(src, dst, i, j, n) && i + n < |src| && j + n < |dst| && src[i + n] == dst[j + n]
    ensures Run(src, dst, i, j, n + 1)
  {
    assert src[i..i + n + 1] == src[i..i + n] + [src[i + n]];
    assert dst[j..j + n + 1] == dst[j..j + n] + [dst[j + n]];
  }

  lemma {:induction false} EndingIsLongest<T>(src: seq<T>, dst: seq<T>, i: nat, j: nat, n: nat)
    requires i < |src| && j < |dst| && n <= i + 1 && n <= j + 1 && Run(src, dst, i + 1 - n, j + 1 - n, n)
    ensures n <= EndingAt(src, dst, i, j)
    decreases n
  {
    if n > 0 {
      var s, d := src[i + 1 - n..i + 1], dst[j + 1 - n..j + 1];
      assert s[n - 1] == src[i] && d[n - 1] == dst[j];
      if n > 1 {
        assert src[i + 1 - n..i] == s[..n - 1] && dst[j + 1 - n..j] == d[..n - 1];
        EndingIsLongest(src, dst, i - 1, j - 1, n - 1);
      }
    }
  }

  lemma EndingSteps<T>(src: seq<T>, dst: seq<T>, i: nat, j: nat)
    requires i < |src| && j < |dst|
    ensures EndingAt(src, dst, i, j) ==
      if src[i] != dst[j] then 0 else if i == 0 || j == 0 then 1 else EndingAt(src, dst, i - 1, j - 1) + 1
  {
  }

  /** Two equally long half-open ranges. */
  datatype Ranges = Ranges(srcFrom: nat, srcTo: nat, dstFrom: nat, dstTo: nat)

  /** Position (a, b) is visited before (i, j), row by row. */
  predicate Visited(a: int, b: int, i: int, j: int) {
    a < i || (a == i && b < j)
  }

  /** The ranges of length z that end at the table cell (a, b). */
  function RangesAt(a: nat, b: nat, z: nat): Ranges
    requires z <= a + 1 && z <= b + 1
  {
    Ranges(a + 1 - z, a + 1, b + 1 - z, b + 1)
  }

  /** The longest run among the table cells visited so far, the last such one on ties. */
  ghost predicate BestSoFar<T>(src: seq<T>, dst: seq<T>, i: nat, j: nat, z: nat, best: Option<Ranges>) {
    && (forall a: nat, b: nat :: a < |src| && b < |dst| && Visited(a, b, i, j) ==> EndingAt(src, dst, a, b) <= z)
    && (best.None? <==> z == 0)
    && (best.Some? ==> exists p: nat, q: nat :: LastBest(src, dst, i, j, z, p, q) && best.value == RangesAt(p, q, z))
  }

  ghost predicate LastBest<T>(src: seq<T>, dst: seq<T>, i: nat, j: nat, z: nat, p: nat, q: nat) {
    && p < |src| && q < |dst| && Visited(p, q, i, j) && EndingAt(src, dst, p, q) == z
    && forall a: nat, b: nat :: a < |src| && b < |dst| && Visited(a, b, i, j) && Visited(p, q, a, b) ==>
        EndingAt(src, dst, a, b) < z
  }

  /** The visited cells hold what they have to. */
  ghost predicate Filled<T>(src: seq<T>, dst: seq<T>, matrix: array2<nat>, i: nat, j: nat)
    reads matrix
  {
    && matrix.Length0 == |src| && matrix.Length1 == |dst|
    && forall a: nat, b: nat :: a < |src| && b < |dst| && Visited(a, b, i, j) ==> matrix[a, b] == EndingAt(src, dst, a, b)
  }

  /** The ranges hold equal runs, no common run is longer, and of the longest ones this is the last
      in row order; there is none exactly when the lists share no element. */
  ghost predicate IsLongestCommonRun<T>(src: seq<T>, dst: seq<T>, best: Option<Ranges>) {
    match best
    case None => forall x :: x in src ==> x !in dst
    case Some(Ranges(x, x', y, y')) =>
      && x < x' <= |src| && y < y' <= |dst| && src[x..x'] == dst[y..y']
      && forall i, j, n :: Run(src, dst, i, j, n) ==> n < x' - x || (n == x' - x && (i < x || (i == x && j <= y)))
  }

  method LongestCommonRun<T(==)>(src: seq<T>, dst: seq<T>) returns (best: Option<Ranges>)
    ensures IsLongestCommonRun(src, dst, best)
  {
    hide BestSoFar, EndingAt, IsLongestCommonRun, Filled;
    var matrix := new nat[|src|, |dst|]((_, _) => 0);
    var z: nat := 0;
    best := None;
    NothingVisited(src, dst, matrix);
    for i := 0 to |src|
      invariant Filled(src, dst, matrix, i, 0)
      invariant BestSoFar(src, dst, i, 0, z, best)
    {
      for j := 0 to |dst|
        invariant Filled(src, dst, matrix, i, j)
        invariant BestSoFar(src, dst, i, j, z, best)
      {
        CellDone(src, dst, i, j, z, best);
        var n := FillCell(src, dst, matrix, i, j);
        if src[i] == dst[j] {
          if n > z {
            z := n;
          }
          if n == z {
            best := Some(Ranges(i - z + 1, i + 1, j - z + 1, j + 1));
          }
        }
      }
      RowFilled(src, dst, matrix, i);
      RowDone(src, dst, i, z, best);
    }
    BestIsBest(src, dst, z, best);
  }

  /** Fill one table cell from the one up and to the left. */
  method FillCell<T(==)>(src: seq<T>, dst: seq<T>, matrix: array2<nat>, i: nat, j: nat) returns (n: nat)
    requires i < |src| && j < |dst| && Filled(src, dst, matrix, i, j)
    modifies matrix
    ensures Filled(src, dst, matrix, i, j + 1)
    ensures n == EndingAt(src, dst, i, j) && (n > 0 <==> src[i] == dst[j])
  {
    EndingSteps(src, dst, i, j);
    hide EndingAt;
    if src[i] == dst[j] {
      if i == 0 || j == 0 {
        matrix[i, j] := 1;
      } else {
        assert Visited(i - 1, j - 1, i, j);
        matrix[i, j] := matrix[i - 1, j - 1] + 1;
      }
    } else {
      matrix[i, j] := 0;
    }
    n := matrix[i, j];
  }

  lemma NothingVisited<T>(src: seq<T>, dst: seq<T>, matrix: array2<nat>)
    requires matrix.Length0 == |src| && matrix.Length1 == |dst|
    ensures Filled(src, dst, matrix, 0, 0) && BestSoFar(src, dst, 0, 0, 0, None)
  {
  }

  lemma RowFilled<T>(src: seq<T>, dst: seq<T>, matrix: array2<nat>, i: nat)
    requires i < |src| && Filled(src, dst, matrix, i, |dst|)
    ensures Filled(src, dst, matrix, i + 1, 0)
  {
  }

  /** One more cell: a run at least as long as the best so far takes its place. */
  lemma CellDone<T>(src: seq<T>, dst: seq<T>, i: nat, j: nat, z: nat, best: Option<Ranges>)
    requires i < |src| && j < |dst| && BestSoFar(src, dst, i, j, z, best)
    ensures var n := EndingAt(src, dst, i, j);
      && (n > 0 && n >= z ==> BestSoFar(src, dst, i, j + 1, n, Some(RangesAt(i, j, n))))
      && (n == 0 || n < z ==> BestSoFar(src, dst, i, j + 1, z, best))
  {
    var n := EndingAt(src, dst, i, j);
    if n > 0 && n >= z {
      assert LastBest(src, dst, i, j + 1, n, i, j);
    } else if best.Some? {
      var p: nat, q: nat :| LastBest(src, dst, i, j, z, p, q) && best.value == RangesAt(p, q, z);
      assert LastBest(src, dst, i, j + 1, z, p, q);
    }
  }

  lemma RowDone<T>(src: seq<T>, dst: seq<T>, i: nat, z: nat, best: Option<Ranges>)
    requires i < |src| && BestSoFar(src, dst, i, |dst|, z, best)
    ensures BestSoFar(src, dst, i + 1, 0, z, best)
  {
    if best.Some? {
      var p: nat, q: nat :| LastBest(src, dst, i, |dst|, z, p, q) && best.value == RangesAt(p, q, z);
      assert LastBest(src, dst, i + 1, 0, z, p, q);
    }
  }

  lemma BestIsBest<T>(src: seq<T>, dst: seq<T>, z: nat, best: Option<Ranges>)
    requires BestSoFar(src, dst, |src|, 0, z, best)
    ensures IsLongestCommonRun(src, dst, best)
  {
    if best.Some? {
      var p: nat, q: nat :| LastBest(src, dst, |src|, 0, z, p, q) && best.value == RangesAt(p, q, z);
      EndingIsRun(src, dst, p, q);
      hide EndingAt;
      var x, y := p + 1 - z, q + 1 - z;
      forall i, j, n | Run(src, dst, i, j, n) ensures n < z || (n == z && (i < x || (i == x && j <= y))) {
        if n > 0 { RunEnds(src, dst, i, j, n, z, p, q); }
      }
    } else {
      NothingShared(src, dst, z);
    }
  }

  lemma NothingShared<T>(src: seq<T>, dst: seq<T>, z: nat)
    requires BestSoFar(src, dst, |src|, 0, z, None)
    ensures forall x :: x in src ==> x !in dst
  {
    forall i: nat, j: nat | i < |src| && j < |dst| ensures src[i] != dst[j] {
      assert Visited(i, j, |src|, 0) && EndingAt(src, dst, i, j) == 0;
    }
  }

  lemma RunEnds<T>(src: seq<T>, dst: seq<T>, i: nat, j: nat, n: nat, z: nat, p: nat, q: nat)
    requires n > 0 && Run(src, dst, i, j, n) && LastBest(src, dst, |src|, 0, z, p, q)
    requires forall a: nat, b: nat :: a < |src| && b < |dst| && Visited(a, b, |src|, 0) ==> EndingAt(src, dst, a, b) <= z
    ensures n < z || (n == z && (i < p + 1 - z || (i == p + 1 - z && j <= q + 1 - z)))
  {
    hide EndingAt, Run;
    var a, b := i + n - 1, j + n - 1;
    assert a < |src| && b < |dst| by { RunInside(src, dst, i, j, n); }
    EndingIsLongest(src, dst, a, b, n);
    assert Visited(a, b, |src|, 0);
  }

  lemma RunInside<T>(src: seq<T>, dst: seq<T>, i: nat, j: nat, n: nat)
    requires Run(src, dst, i, j, n)
    ensures i + n <= |src| && j + n <= |dst|
  {
  }
}
