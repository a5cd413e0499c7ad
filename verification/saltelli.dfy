/** Saltelli's extension of the Sobol' sequence for Sobol' global variance
    decomposition: every Sobol' point (after a warm-up of 1000 points) of
    dimension `2D` is split into two `D`-dimensional samples A and B, and
    expanded into a block of `2D + 2` rows in which single columns of A and B
    are swapped. Values are only copied, so the element type is abstract;
    the Sobol' generator itself is an input matrix. */
module Saltelli {
  import opened Results

  /** Sobol' points discarded before the first one used. */
  const SkippedRows: nat := 1000

  datatype SaltelliError = NotMultiple   // "N must be a multiple of 2*D+2"

  /** Rows per Sobol' point. */
  function BlockSize(D: nat): nat {
    2 * D + 2
  }

  /** The first output row of the block of point `b`. */
  function BlockStart(b: nat, D: nat): nat {
    b * BlockSize(D)
  }

  /** The Sobol' point the block `b` is built from. */
  function SobolRow<T>(sobol: seq<seq<T>>, b: nat): seq<T>
    requires SkippedRows + b < |sobol|
  {
    sobol[SkippedRows + b]
  }

  /** The Sobol' generator's answer to `generate(rows, 2D)`. */
  predicate WellShaped<T>(sobol: seq<seq<T>>, rows: nat, D: nat) {
    |sobol| == rows && forall i :: 0 <= i < |sobol| ==> |sobol[i]| == 2 * D
  }

  /** The `2D + 2` rows built from one point `p = A ++ B`: A, then A with
      column `k` taken from B for each `k`, then B with column `k` taken from
      A for each `k`, then B. */
  function Block<T>(p: seq<T>, D: nat): (block: seq<seq<T>>)
    requires |p| == 2 * D
    ensures |block| == BlockSize(D)
    ensures forall r :: 0 <= r < |block| ==> |block[r]| == D
    ensures block[0] == p[..D] && block[2 * D + 1] == p[D..]
    ensures forall r, j :: 1 <= r <= D && 0 <= j < D ==>
      block[r][j] == (if j == r - 1 then p[D + j] else p[j])
    ensures forall r, j :: D < r <= 2 * D && 0 <= j < D ==>
      block[r][j] == (if j == r - D - 1 then p[j] else p[D + j])
  {
    var a := p[..D];
    var b := p[D..];
    [a] + seq(D, k requires 0 <= k < D => a[k := b[k]]) + seq(D, k requires 0 <= k < D => b[k := a[k]]) + [b]
  }

  lemma {:induction false} MulStep(b: nat, n: nat, m: nat)
    requires b < n
    ensures b * m + m <= n * m
    decreases n - b
  {
    assert (b + 1) * m == b * m + m;
    if b + 1 < n {
      MulStep(b + 1, n, m);
    }
  }

  lemma BlockBounds(b: nat, n: nat, D: nat, o: nat)
    requires b < n && o < BlockSize(D)
    ensures BlockStart(b, D) + o < n * BlockSize(D)
    ensures BlockStart(b, D) + BlockSize(D) <= n * BlockSize(D)
  {
    MulStep(b, n, BlockSize(D));
  }

  /** The whole sample: the blocks of points `1000 .. 1000 + n - 1`, one
      after the other. */
  function Layout<T>(sobol: seq<seq<T>>, D: nat, n: nat): (rows: seq<seq<T>>)
    requires SkippedRows + n <= |sobol|
    requires forall b :: 0 <= b < n ==> |SobolRow(sobol, b)| == 2 * D
    ensures |rows| == n * BlockSize(D)
    ensures forall k :: 0 <= k < |rows| ==> |rows[k]| == D
  {
    if n == 0 then []
    else
      var rows := Layout(sobol, D, n - 1) + Block(SobolRow(sobol, n - 1), D);
      assert n * BlockSize(D) == (n - 1) * BlockSize(D) + BlockSize(D);
      rows
  }

  /** Row `o` of the block of point `b` sits at output row
      `b * (2D + 2) + o`. */
  lemma {:induction false} LayoutBlock<T>(sobol: seq<seq<T>>, D: nat, n: nat, b: nat, o: nat)
    requires SkippedRows + n <= |sobol|
    requires forall c :: 0 <= c < n ==> |SobolRow(sobol, c)| == 2 * D
    requires b < n && o < BlockSize(D)
    ensures BlockStart(b, D) + o < |Layout(sobol, D, n)|
    ensures Layout(sobol, D, n)[BlockStart(b, D) + o] == Block(SobolRow(sobol, b), D)[o]
  {
    BlockBounds(b, n, D, o);
    var prefix := Layout(sobol, D, n - 1);
    if b < n - 1 {
      BlockBounds(b, n - 1, D, o);
      LayoutBlock(sobol, D, n - 1, b, o);
    } else {
      assert BlockStart(b, D) == |prefix|;
    }
  }

  /** Only points `1000 .. 1000 + n - 1` of the Sobol' sequence matter: two
      generators that agree there give the same sample. */
  lemma {:induction false} LayoutIgnoresWarmup<T>(s1: seq<seq<T>>, s2: seq<seq<T>>, D: nat, n: nat)
    requires SkippedRows + n <= |s1| && SkippedRows + n <= |s2|
    requires forall b :: 0 <= b < n ==> |SobolRow(s1, b)| == 2 * D && SobolRow(s1, b) == SobolRow(s2, b)
    ensures Layout(s1, D, n) == Layout(s2, D, n)
  {
    if n > 0 {
      LayoutIgnoresWarmup(s1, s2, D, n - 1);
    }
  }

  /** Columns `from .. from + D - 1` of `p` (the first and last rows of a
      block). */
  method CopyColumns<T>(p: seq<T>, from: nat, D: nat) returns (row: seq<T>)
    requires from + D <= |p|
    ensures row == p[from..from + D]
  {
    row := [];
    var j := 0;
    while j < D
      invariant 0 <= j <= D && row == p[from..from + j]
    {
      row := row + [p[j + from]];
      j := j + 1;
    }
  }

  /** A row whose column `k` is read at offset `swapped` and whose other
      columns are read at offset `kept`. */
  method MixColumns<T>(p: seq<T>, D: nat, k: nat, swapped: nat, kept: nat) returns (row: seq<T>)
    requires D + swapped <= |p| && D + kept <= |p|
    ensures |row| == D
    ensures forall j :: 0 <= j < D ==> row[j] == (if j == k then p[j + swapped] else p[j + kept])
  {
    row := [];
    var j := 0;
    while j < D
      invariant 0 <= j <= D && |row| == j
      invariant forall c :: 0 <= c < j ==> row[c] == (if c == k then p[c + swapped] else p[c + kept])
    {
      if j == k {
        row := row + [p[j + swapped]];
      } else {
        row := row + [p[j + kept]];
      }
      j := j + 1;
    }
  }

  lemma MixedRowOfBlockA<T>(p: seq<T>, D: nat, k: nat, row: seq<T>)
    requires |p| == 2 * D && k < D && |row| == D
    requires forall j :: 0 <= j < D ==> row[j] == (if j == k then p[j + D] else p[j + 0])
    ensures row == Block(p, D)[1 + k]
  {
    var block := Block(p, D);
    forall j | 0 <= j < D
      ensures row[j] == block[1 + k][j]
    {
    }
  }

  lemma MixedRowOfBlockB<T>(p: seq<T>, D: nat, k: nat, row: seq<T>)
    requires |p| == 2 * D && k < D && |row| == D
    requires forall j :: 0 <= j < D ==> row[j] == (if j == k then p[j + 0] else p[j + D])
    ensures row == Block(p, D)[1 + D + k]
  {
    var block := Block(p, D);
    forall j | 0 <= j < D
      ensures row[j] == block[1 + D + k][j]
    {
    }
  }

  /** The rows the body of the outer loop of `generate` writes for one
      Sobol' point. */
  method GenerateBlock<T>(p: seq<T>, D: nat) returns (rows: seq<seq<T>>)
    requires |p| == 2 * D
    ensures rows == Block(p, D)
  {
    ghost var block := Block(p, D);
    var row := CopyColumns(p, 0, D);
    rows := [row];
    var k := 0;
    while k < D
      invariant 0 <= k <= D && |rows| == 1 + k
      invariant forall r :: 0 <= r < |rows| ==> rows[r] == block[r]
    {
      row := MixColumns(p, D, k, D, 0);
      MixedRowOfBlockA(p, D, k, row);
      rows := rows + [row];
      k := k + 1;
    }
    k := 0;
    while k < D
      invariant 0 <= k <= D && |rows| == 1 + D + k
      invariant forall r :: 0 <= r < |rows| ==> rows[r] == block[r]
    {
      row := MixColumns(p, D, k, 0, D);
      MixedRowOfBlockB(p, D, k, row);
      rows := rows + [row];
      k := k + 1;
    }
    row := CopyColumns(p, D, D);
    rows := rows + [row];
    assert |rows| == |block|;
    assert forall r :: 0 <= r < |rows| ==> rows[r] == block[r];
  }

  /** A well-shaped generator answer supplies every point the layout reads. */
  lemma WellShapedRows<T>(sobol: seq<seq<T>>, n: nat, D: nat)
    requires WellShaped(sobol, n + SkippedRows, D)
    ensures SkippedRows + n <= |sobol|
    ensures forall b :: 0 <= b < n ==> |SobolRow(sobol, b)| == 2 * D
  {
  }

  lemma ExactQuotient(N: nat, m: nat)
    requires m > 0 && N % m == 0
    ensures N == (N / m) * m
  {
  }

  /** `Saltelli.generate(N, D)` over the matrix `sobol` that
      `sobol.generate(N / (2D + 2) + 1000, 2D)` returns. */
  method Generate<T>(N: nat, D: nat, sobol: seq<seq<T>>) returns (r: Result<seq<seq<T>>, SaltelliError>)
    requires N % BlockSize(D) == 0 ==> WellShaped(sobol, N / BlockSize(D) + SkippedRows, D)
    ensures r.Failure? <==> N % BlockSize(D) != 0
    ensures r.Success? ==> |r.value| == N && forall k :: 0 <= k < N ==> |r.value[k]| == D
    ensures r.Success? ==> r.value == Layout(sobol, D, N / BlockSize(D))
  {
    if N % (2 * D + 2) != 0 {
      return Failure(NotMultiple);
    }
    var n := N / (2 * D + 2);
    WellShapedRows(sobol, n, D);
    var out: seq<seq<T>> := [];
    var i := SkippedRows;
    while i < n + SkippedRows
      invariant SkippedRows <= i <= n + SkippedRows
      invariant out == Layout(sobol, D, i - SkippedRows)
    {
      var rows := GenerateBlock(sobol[i], D);
      assert sobol[i] == SobolRow(sobol, i - SkippedRows);
      out := out + rows;
      i := i + 1;
    }
    ExactQuotient(N, BlockSize(D));
    return Success(out);
  }
}
