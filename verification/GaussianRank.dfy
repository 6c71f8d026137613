/** Rank by Gaussian elimination, after `computeRank` in src/pow/heavyhash.go.

    The 64 by 64 float64 array becomes an n by n array of exact reals, so the test
    "absolute value above eps" reads "is not zero".  The elimination never rewrites a column
    once it has passed it, so the array is not itself row-equivalent to the input.  The proof
    follows a logical matrix in which every passed pivot column is a unit column.  */
module GaussianRank {
  import opened Kernels

  /** `pivot[p]` is the row selected at column p, or NONE when the column had no candidate. */
  const NONE := -1

  // ---------- The invariant of the elimination ----------

  /** The logical matrix: the array with every passed pivot column replaced by a unit column. */
  ghost function Logical(b: Matrix, pivot: seq<int>): (l: Matrix)
    requires Square(b, |b|)
    ensures Square(l, |b|)
    ensures forall k, p :: 0 <= k < |b| && 0 <= p < |b| ==> l[k][p] == LogicalEntry(b, pivot, k, p)
  {
    seq(|b|, k requires 0 <= k < |b| =>
      seq(|b|, p requires 0 <= p < |b| => LogicalEntry(b, pivot, k, p)))
  }

  ghost function LogicalEntry(b: Matrix, pivot: seq<int>, k: nat, p: nat): real
    requires Square(b, |b|) && k < |b| && p < |b|
  {
    if p < |pivot| && pivot[p] != NONE then (if pivot[p] == k then 1.0 else 0.0) else b[k][p]
  }

  /** The pivot choices so far: distinct selected rows, and nothing else is selected. */
  ghost predicate Choices(pivot: seq<int>, selected: seq<bool>) {
    && |pivot| <= |selected|
    && (forall p :: 0 <= p < |pivot| ==>
          pivot[p] == NONE || (0 <= pivot[p] < |selected| && selected[pivot[p]]))
    && (forall p, q :: 0 <= p < q < |pivot| && pivot[p] == pivot[q] ==> pivot[p] == NONE)
    && (forall k :: 0 <= k < |selected| && selected[k] ==> k in pivot)
  }

  /** Columns without a pivot are zero in every row that is still a candidate. */
  ghost predicate Exhausted(b: Matrix, pivot: seq<int>, selected: seq<bool>)
    requires Square(b, |b|) && |selected| == |b| && |pivot| <= |b|
  {
    forall k, p :: 0 <= k < |b| && 0 <= p < |pivot| && !selected[k] && pivot[p] == NONE ==> b[k][p] == 0.0
  }

  ghost predicate Reducing(a: Matrix, b: Matrix, pivot: seq<int>, selected: seq<bool>) {
    && Square(a, |a|) && Square(b, |a|) && |selected| == |a|
    && Choices(pivot, selected)
    && Exhausted(b, pivot, selected)
    && SameKernel(a, Logical(b, pivot))
  }

  /** What one elimination step does to the array, entry by entry. */
  ghost predicate Eliminated(b: Matrix, b': Matrix, j: nat, i: nat) {
    && Square(b, |b|) && Square(b', |b|) && j < |b| && i < |b| && b[j][i] != 0.0
    && (forall k, p :: 0 <= k < |b| && 0 <= p <= i ==> b'[k][p] == b[k][p])
    && (forall p :: i < p < |b| ==> b'[j][p] == Div(b[j][p], b[j][i]))
    && (forall k, p :: 0 <= k < |b| && k != j && i < p < |b| ==> b'[k][p] == b[k][p] - Mul(b'[j][p], b[k][i]))
  }

  /** The two halves of an elimination step. */
  ghost predicate Scaled(b: Matrix, b': Matrix, j: nat, i: nat) {
    && Square(b, |b|) && Square(b', |b|) && j < |b| && i < |b| && b[j][i] != 0.0
    && (forall k, p :: 0 <= k < |b| && 0 <= p < |b| && (k != j || p <= i) ==> b'[k][p] == b[k][p])
    && (forall p :: i < p < |b| ==> b'[j][p] == Div(b[j][p], b[j][i]))
  }

  ghost predicate Subtracted(b: Matrix, b': Matrix, j: nat, i: nat) {
    && Square(b, |b|) && Square(b', |b|) && j < |b| && i < |b|
    && (forall k, p :: 0 <= k < |b| && 0 <= p < |b| && (k == j || p <= i) ==> b'[k][p] == b[k][p])
    && (forall k, p :: 0 <= k < |b| && k != j && i < p < |b| ==> b'[k][p] == b[k][p] - Mul(b[j][p], b[k][i]))
  }

  lemma HalvesEliminate(b: Matrix, s: Matrix, b': Matrix, j: nat, i: nat)
    requires Scaled(b, s, j, i) && Subtracted(s, b', j, i)
    ensures Eliminated(b, b', j, i)
  {
    hide Mul;
    hide Div;
    forall k, p | 0 <= k < |b| && k != j && i < p < |b|
      ensures b'[k][p] == b[k][p] - Mul(b'[j][p], b[k][i])
    {
      assert s[k][p] == b[k][p] && s[k][i] == b[k][i] && b'[j][p] == s[j][p];
    }
  }

  /** One row divided by c, then subtracted from every other row with its own factor. */
  ghost predicate RowReduced(l: Matrix, l': Matrix, j: nat, c: real, factor: seq<real>) {
    && Square(l, |l|) && Square(l', |l|) && j < |l| && c != 0.0 && |factor| == |l|
    && (forall p :: 0 <= p < |l| ==> l[j][p] == Mul(l'[j][p], c))
    && (forall k, p :: 0 <= k < |l| && k != j && 0 <= p < |l| ==> l'[k][p] == l[k][p] - Mul(l'[j][p], factor[k]))
  }

  lemma RowReductionKeepsKernel(l: Matrix, l': Matrix, j: nat, c: real, factor: seq<real>)
    requires RowReduced(l, l', j, c, factor)
    ensures SameKernel(l, l')
  {
    var n := |l|;
    forall x: Vector | |x| == n
      ensures InKernel(l, x) <==> InKernel(l', x)
    {
      ReducedProducts(l, l', j, c, factor, x);
      ProductsVanishTogether(Products(l, x), Products(l', x), j, c, factor);
    }
  }

  /** The matrix times x. */
  ghost function Products(l: Matrix, x: Vector): (d: Vector)
    requires Square(l, |l|) && |x| == |l|
    ensures |d| == |l| && forall k :: 0 <= k < |l| ==> d[k] == Dot(l[k], x, |l|)
    ensures IsZero(d) <==> InKernel(l, x)
  {
    var d := seq(|l|, k requires 0 <= k < |l| => Dot(l[k], x, |l|));
    assert forall k :: 0 <= k < |l| ==> d[k] == Dot(l[k], x, |l|);
    d
  }

  lemma {:induction false} ReducedPivotRow(l: Matrix, l': Matrix, j: nat, c: real, factor: seq<real>, x: Vector)
    requires RowReduced(l, l', j, c, factor) && |x| == |l|
    ensures Dot(l[j], x, |l|) == Mul(Dot(l'[j], x, |l|), c)
  {
    hide Mul;
    DotScaled(l'[j], l[j], c, x, |l|);
  }

  lemma {:induction false} ReducedOtherRow(l: Matrix, l': Matrix, j: nat, c: real, factor: seq<real>, x: Vector, k: nat)
    requires RowReduced(l, l', j, c, factor) && |x| == |l| && k < |l| && k != j
    ensures Dot(l'[k], x, |l|) == Dot(l[k], x, |l|) - Mul(Dot(l'[j], x, |l|), factor[k])
  {
    hide Mul;
    DotCombination(l'[k], l[k], l'[j], factor[k], x, |l|);
  }

  lemma ReducedProducts(l: Matrix, l': Matrix, j: nat, c: real, factor: seq<real>, x: Vector)
    requires RowReduced(l, l', j, c, factor) && |x| == |l|
    ensures var d, d' := Products(l, x), Products(l', x);
            d[j] == Mul(d'[j], c) && forall k :: 0 <= k < |l| && k != j ==> d'[k] == d[k] - Mul(d'[j], factor[k])
  {
    hide Mul;
    var d, d' := Products(l, x), Products(l', x);
    var n, m := |l|, |l'|;
    assert m == n && |d| == |d'| == |factor| == n && j < n;
    ReducedPivotRow(l, l', j, c, factor, x);
    forall k | 0 <= k < n && k != j
      ensures d'[k] == d[k] - Mul(d'[j], factor[k])
    {
      ReducedOtherRow(l, l', j, c, factor, x, k);
      hide *;
    }
  }

  lemma ProductsVanishTogether(d: Vector, d': Vector, j: nat, c: real, factor: seq<real>)
    requires |d| == |d'| == |factor| && j < |d| && c != 0.0
    requires d[j] == Mul(d'[j], c) && forall k :: 0 <= k < |d| && k != j ==> d'[k] == d[k] - Mul(d'[j], factor[k])
    ensures IsZero(d) <==> IsZero(d')
  {
    hide Mul;
    if d'[j] == 0.0 {
      forall k | 0 <= k < |d|
        ensures d'[k] == d[k]
      {
        MulZero(d'[j], if k == j then c else factor[k]);
      }
    } else {
      MulNonZero(d'[j], c);
    }
  }

  /** The logical matrix after a pivot step is a row reduction of the one before. */
  lemma PivotStepReduces(b: Matrix, b': Matrix, pivot: seq<int>, selected: seq<bool>, j: nat)
    requires Square(b, |b|) && |selected| == |b| && |pivot| < |b|
    requires Choices(pivot, selected) && Exhausted(b, pivot, selected)
    requires j < |b| && !selected[j] && Eliminated(b, b', j, |pivot|)
    ensures var i := |pivot|;
            RowReduced(Logical(b, pivot), Logical(b', pivot + [j]), j, b[j][i], seq(|b|, k requires 0 <= k < |b| => b[k][i]))
  {
    hide Mul;
    hide Div;
    var i, n := |pivot|, |b|;
    var pivot' := pivot + [j];
    var l, l' := Logical(b, pivot), Logical(b', pivot');
    assert pivot'[i] == j && forall p :: 0 <= p < i ==> pivot'[p] == pivot[p];
    forall p | 0 <= p < n
      ensures l[j][p] == Mul(l'[j][p], b[j][i])
      ensures p < i ==> l'[j][p] == 0.0
      ensures p == i ==> l'[j][p] == 1.0
    {
      if p > i {
        DivUndone(b[j][p], b[j][i]);
      } else if p == i {
        MulOne(b[j][i]);
      } else {
        MulZero(0.0, b[j][i]);
      }
    }
    forall k, p | 0 <= k < n && k != j && 0 <= p < n
      ensures l'[k][p] == l[k][p] - Mul(l'[j][p], b[k][i])
    {
      if p == i {
        MulOne(b[k][i]);
      } else if p < i {
        MulZero(0.0, b[k][i]);
      }
    }
  }

  lemma ChoicesGrow(pivot: seq<int>, selected: seq<bool>, j: nat)
    requires Choices(pivot, selected) && |pivot| < |selected| && j < |selected| && !selected[j]
    ensures Choices(pivot + [j], selected[j := true])
  {
    var pivot', selected' := pivot + [j], selected[j := true];
    assert forall p :: 0 <= p < |pivot| ==> pivot'[p] == pivot[p];
    forall k | 0 <= k < |selected| && selected'[k]
      ensures k in pivot'
    {
      if k == j {
        assert pivot'[|pivot|] == j;
      } else {
        var p :| 0 <= p < |pivot| && pivot[p] == k;
        assert pivot'[p] == k;
      }
    }
  }

  lemma ExhaustedStays(b: Matrix, b': Matrix, pivot: seq<int>, selected: seq<bool>, j: nat)
    requires Square(b, |b|) && |selected| == |b| && |pivot| < |b|
    requires Exhausted(b, pivot, selected) && j < |b| && Eliminated(b, b', j, |pivot|)
    ensures Exhausted(b', pivot + [j], selected[j := true])
  {
    hide Mul;
    hide Div;
    assert forall p :: 0 <= p < |pivot| ==> (pivot + [j])[p] == pivot[p];
  }

  lemma PivotStep(a: Matrix, b: Matrix, b': Matrix, pivot: seq<int>, selected: seq<bool>, j: nat)
    requires Reducing(a, b, pivot, selected) && |pivot| < |a|
    requires j < |a| && !selected[j] && b[j][|pivot|] != 0.0
    requires Eliminated(b, b', j, |pivot|)
    ensures Reducing(a, b', pivot + [j], selected[j := true])
  {
    hide Choices;
    hide Exhausted;
    hide InKernel;
    hide RowReduced;
    hide LogicalEntry;
    var i, n := |pivot|, |a|;
    PivotStepReduces(b, b', pivot, selected, j);
    RowReductionKeepsKernel(Logical(b, pivot), Logical(b', pivot + [j]), j, b[j][i], seq(n, k requires 0 <= k < n => b[k][i]));
    ChoicesGrow(pivot, selected, j);
    ExhaustedStays(b, b', pivot, selected, j);
  }

  lemma NoPivotStep(a: Matrix, b: Matrix, pivot: seq<int>, selected: seq<bool>)
    requires Reducing(a, b, pivot, selected) && |pivot| < |a|
    requires forall k :: 0 <= k < |a| && !selected[k] ==> b[k][|pivot|] == 0.0
    ensures Reducing(a, b, pivot + [NONE], selected)
  {
    var pivot' := pivot + [NONE];
    assert forall p :: 0 <= p < |pivot| ==> pivot'[p] == pivot[p];
    assert Choices(pivot', selected) by {
      forall k | 0 <= k < |selected| && selected[k]
        ensures k in pivot'
      {
        var p :| 0 <= p < |pivot| && pivot[p] == k;
        assert pivot'[p] == k;
      }
    }
    assert Logical(b, pivot') == Logical(b, pivot) by {
      forall k | 0 <= k < |b|
        ensures Logical(b, pivot')[k] == Logical(b, pivot)[k]
      {
      }
    }
  }

  // ---------- Reading the answer off the finished elimination ----------

  ghost function FreeColumns(pivot: seq<int>): set<nat> {
    set p: nat | p < |pivot| && pivot[p] == NONE
  }

  lemma NothingFree()
    ensures FreeColumns([]) == {}
  {
  }

  lemma FreeColumnsGrow(pivot: seq<int>, j: int)
    ensures FreeColumns(pivot + [j]) == FreeColumns(pivot) + if j == NONE then {|pivot|} else {}
    ensures |FreeColumns(pivot + [j])| == |FreeColumns(pivot)| + if j == NONE then 1 else 0
  {
    forall p: nat
      ensures p in FreeColumns(pivot + [j]) <==> p in FreeColumns(pivot) + if j == NONE then {|pivot|} else {}
    {
      assert p < |pivot| ==> (pivot + [j])[p] == pivot[p];
    }
  }

  /** x with its pivot entries cleared. */
  ghost function Cleared(x: Vector, pivot: seq<int>): (y: Vector)
    requires |x| == |pivot|
    ensures |y| == |x|
    ensures forall p :: 0 <= p < |x| ==> y[p] == if pivot[p] == NONE then x[p] else 0.0
  {
    seq(|x|, p requires 0 <= p < |x| => if pivot[p] == NONE then x[p] else 0.0)
  }

  /** A pivot row of the finished matrix reads one pivot entry and the free entries. */
  lemma {:induction false} PivotRowReads(a: Matrix, b: Matrix, pivot: seq<int>, selected: seq<bool>, x: Vector, q: nat)
    requires Reducing(a, b, pivot, selected) && |pivot| == |a| == |x|
    requires q < |pivot| && pivot[q] != NONE
    ensures Dot(Logical(b, pivot)[pivot[q]], x, |a|)
         == x[q] + Dot(Logical(b, pivot)[pivot[q]], Cleared(x, pivot), |a|)
  {
    hide Mul;
    var row := Logical(b, pivot)[pivot[q]];
    assert forall p :: 0 <= p < |a| && p != q && pivot[p] != NONE ==> row[p] == 0.0;
    DotWithoutTerm(row, x, Cleared(x, pivot), q, |a|);
    MulOne(x[q]);
  }

  lemma {:induction false} CandidateRowIsZero(a: Matrix, b: Matrix, pivot: seq<int>, selected: seq<bool>, x: Vector, k: nat)
    requires Reducing(a, b, pivot, selected) && |pivot| == |a| == |x|
    requires k < |a| && !selected[k]
    ensures Dot(Logical(b, pivot)[k], x, |a|) == 0.0
  {
    var row := Logical(b, pivot)[k];
    assert forall p :: 0 <= p < |a| ==> row[p] == 0.0;
    DotOfZeroTerms(row, x, |a|);
  }

  /** The kernel vector with the free entries of f. */
  ghost function Completion(b: Matrix, pivot: seq<int>, f: Vector): (x: Vector)
    requires Square(b, |b|) && |pivot| == |b| == |f|
    requires forall p :: 0 <= p < |pivot| ==> NONE <= pivot[p] < |b|
    ensures |x| == |f|
  {
    seq(|f|, q requires 0 <= q < |f| =>
      if pivot[q] == NONE then f[q] else -Dot(Logical(b, pivot)[pivot[q]], Cleared(f, pivot), |b|))
  }

  lemma CompletionInKernel(a: Matrix, b: Matrix, pivot: seq<int>, selected: seq<bool>, f: Vector)
    requires Reducing(a, b, pivot, selected) && |pivot| == |a| == |f|
    ensures InKernel(a, Completion(b, pivot, f))
    ensures AgreeOn(Completion(b, pivot, f), f, FreeColumns(pivot))
  {
    var x, l := Completion(b, pivot, f), Logical(b, pivot);
    assert Cleared(x, pivot) == Cleared(f, pivot);
    forall k | 0 <= k < |a|
      ensures Dot(l[k], x, |a|) == 0.0
    {
      if selected[k] {
        var q :| 0 <= q < |pivot| && pivot[q] == k;
        PivotRowReads(a, b, pivot, selected, x, q);
      } else {
        CandidateRowIsZero(a, b, pivot, selected, x, k);
      }
    }
    assert InKernel(l, x);
  }

  lemma FreeEntriesDetermine(a: Matrix, b: Matrix, pivot: seq<int>, selected: seq<bool>, x: Vector, y: Vector)
    requires Reducing(a, b, pivot, selected) && |pivot| == |a|
    requires InKernel(a, x) && InKernel(a, y) && AgreeOn(x, y, FreeColumns(pivot))
    ensures x == y
  {
    assert InKernel(Logical(b, pivot), x) && InKernel(Logical(b, pivot), y);
    assert Cleared(x, pivot) == Cleared(y, pivot) by {
      forall p | 0 <= p < |a|
        ensures Cleared(x, pivot)[p] == Cleared(y, pivot)[p]
      {
        assert pivot[p] == NONE ==> p in FreeColumns(pivot);
      }
    }
    forall q | 0 <= q < |a|
      ensures x[q] == y[q]
    {
      if pivot[q] == NONE {
        assert q in FreeColumns(pivot);
      } else {
        PivotRowReads(a, b, pivot, selected, x, q);
        PivotRowReads(a, b, pivot, selected, y, q);
      }
    }
  }

  lemma FinishedParametrises(a: Matrix, b: Matrix, pivot: seq<int>, selected: seq<bool>)
    requires Reducing(a, b, pivot, selected) && |pivot| == |a|
    ensures Parametrises(a, FreeColumns(pivot))
  {
    forall f: Vector | |f| == |a|
      ensures exists x :: InKernel(a, x) && AgreeOn(x, f, FreeColumns(pivot))
    {
      CompletionInKernel(a, b, pivot, selected, f);
    }
    forall x, y | InKernel(a, x) && InKernel(a, y) && AgreeOn(x, y, FreeColumns(pivot))
      ensures x == y
    {
      FreeEntriesDetermine(a, b, pivot, selected, x, y);
    }
  }

  // ---------- The algorithm ----------

  ghost function Contents(B: array2<real>): (m: Matrix)
    requires B.Length0 == B.Length1
    reads B
    ensures Square(m, B.Length0)
    ensures forall k, p :: 0 <= k < B.Length0 && 0 <= p < B.Length0 ==> m[k][p] == B[k, p]
  {
    seq(B.Length0, k requires 0 <= k < B.Length0 reads B =>
      seq(B.Length1, p requires 0 <= p < B.Length1 reads B => B[k, p]))
  }

  /** The matrix of the source, read as reals. */
  ghost function AsReals(mat: seq<seq<nat>>): (m: Matrix)
    requires forall k :: 0 <= k < |mat| ==> |mat[k]| == |mat|
    ensures Square(m, |mat|)
    ensures forall k, p :: 0 <= k < |mat| && 0 <= p < |mat| ==> m[k][p] == mat[k][p] as real
  {
    seq(|mat|, k requires 0 <= k < |mat| =>
      seq(|mat|, p requires 0 <= p < |mat| => mat[k][p] as real))
  }

  /** The division loop: the pivot row is scaled right of column i. */
  method ScalePivotRow(B: array2<real>, j: nat, i: nat)
    requires B.Length0 == B.Length1 && j < B.Length0 && i < B.Length0 && B[j, i] != 0.0
    modifies B
    ensures Scaled(old(Contents(B)), Contents(B), j, i)
  {
    hide Mul;
    hide Div;
    var n := B.Length0;
    var p := i + 1;
    while p < n
      invariant i < p <= n
      invariant forall r, q :: 0 <= r < n && 0 <= q < n && (r != j || q <= i || p <= q) ==> B[r, q] == old(B[r, q])
      invariant forall q :: i < q < p ==> B[j, q] == Div(old(B[j, q]), old(B[j, i]))
    {
      B[j, p] := Div(B[j, p], B[j, i]);
      p := p + 1;
    }
  }

  method EliminateColumn(B: array2<real>, j: nat, i: nat)
    requires B.Length0 == B.Length1 && j < B.Length0 && i < B.Length0
    requires B[j, i] != 0.0
    modifies B
    ensures Eliminated(old(Contents(B)), Contents(B), j, i)
  {
    hide Scaled;
    hide Subtracted;
    ghost var b := Contents(B);
    ScalePivotRow(B, j, i);
    ghost var scaled := Contents(B);
    SubtractFromAll(B, j, i);
    HalvesEliminate(b, scaled, Contents(B), j, i);
  }

  /** The loop over the other rows. */
  method SubtractFromAll(B: array2<real>, j: nat, i: nat)
    requires B.Length0 == B.Length1 && j < B.Length0 && i < B.Length0
    modifies B
    ensures Subtracted(old(Contents(B)), Contents(B), j, i)
  {
    hide Mul;
    var n := B.Length0;
    for k := 0 to n
      invariant forall r, q :: 0 <= r < n && 0 <= q < n && (r == j || q <= i || k <= r) ==> B[r, q] == old(B[r, q])
      invariant forall r, q :: 0 <= r < k && r != j && i < q < n ==> B[r, q] == old(B[r, q]) - Mul(old(B[j, q]), old(B[r, i]))
    {
      if k != j {
        SubtractPivotRow(B, j, i, k);
      }
    }
  }

  /** The inner loop: row k loses its own multiple of the pivot row, right of column i. */
  method SubtractPivotRow(B: array2<real>, j: nat, i: nat, k: nat)
    requires B.Length0 == B.Length1 && j < B.Length0 && i < B.Length0 && k < B.Length0 && k != j
    modifies B
    ensures forall r, q :: 0 <= r < B.Length0 && 0 <= q < B.Length0 && (r != k || q <= i) ==> B[r, q] == old(B[r, q])
    ensures forall q :: i < q < B.Length0 ==> B[k, q] == old(B[k, q]) - Mul(old(B[j, q]), old(B[k, i]))
  {
    var n := B.Length0;
    if B[k, i] != 0.0 {
      hide Mul;
      var p := i + 1;
      while p < n
        invariant i < p <= n
        invariant forall r, q :: 0 <= r < n && 0 <= q < n && (r != k || q <= i || p <= q) ==> B[r, q] == old(B[r, q])
        invariant forall q :: i < q < p ==> B[k, q] == old(B[k, q]) - Mul(old(B[j, q]), old(B[k, i]))
      {
        B[k, p] := B[k, p] - Mul(B[j, p], B[k, i]);
        p := p + 1;
      }
    }
  }

  /** The scan for the first unselected row that is not zero in column i. */
  method FindPivot(B: array2<real>, rowSelected: array<bool>, i: nat) returns (j: nat)
    requires B.Length0 == B.Length1 == rowSelected.Length && i < B.Length0
    ensures j <= B.Length0
    ensures j < B.Length0 ==> !rowSelected[j] && B[j, i] != 0.0
    ensures forall k :: 0 <= k < j ==> rowSelected[k] || B[k, i] == 0.0
  {
    j := 0;
    while j < B.Length0 && (rowSelected[j] || B[j, i] == 0.0)
      invariant 0 <= j <= B.Length0
      invariant forall k :: 0 <= k < j ==> rowSelected[k] || B[k, i] == 0.0
    {
      j := j + 1;
    }
  }

  /** One pass of the outer loop; `found` says whether the rank counter moves. */
  method ReduceColumn(B: array2<real>, rowSelected: array<bool>, i: nat, ghost a: Matrix, ghost pivot: seq<int>)
    returns (found: bool, ghost pivot': seq<int>)
    requires B.Length0 == B.Length1 == rowSelected.Length == |a| && |pivot| == i < |a|
    requires Reducing(a, Contents(B), pivot, rowSelected[..])
    modifies B, rowSelected
    ensures |pivot'| == |pivot| + 1 && pivot <= pivot' && (found <==> pivot'[|pivot|] != NONE)
    ensures Reducing(a, Contents(B), pivot', rowSelected[..])
  {
    var j := FindPivot(B, rowSelected, i);
    ghost var b := Contents(B);
    found := j != B.Length0;
    if found {
      EliminateColumn(B, j, i);
      PivotStep(a, b, Contents(B), pivot, rowSelected[..], j);
      rowSelected[j] := true;
      pivot' := pivot + [j];
    } else {
      NoPivotStep(a, b, pivot, rowSelected[..]);
      pivot' := pivot + [NONE];
    }
  }

  method Load(mat: seq<seq<nat>>) returns (B: array2<real>)
    requires forall k :: 0 <= k < |mat| ==> |mat[k]| == |mat|
    ensures fresh(B) && B.Length0 == B.Length1 == |mat| && Contents(B) == AsReals(mat)
  {
    var n := |mat|;
    B := new real[n, n]((k, p) requires 0 <= k < n && 0 <= p < n => mat[k][p] as real);
    assert forall k :: 0 <= k < n ==> Contents(B)[k] == AsReals(mat)[k];
  }

  /** `computeRank`: the kernel has dimension n - rank, so the rank is n exactly when the zero
      vector is the only vector that the matrix sends to zero. */
  method ComputeRank(mat: seq<seq<nat>>) returns (rank: nat)
    requires forall k :: 0 <= k < |mat| ==> |mat[k]| == |mat|
    ensures rank <= |mat|
    ensures forall d :: KernelDimension(AsReals(mat), d) <==> d == |mat| - rank
    ensures rank == |mat| <==> TrivialKernel(AsReals(mat))
  {
    hide Reducing, Parametrises, TrivialKernel, FreeColumns;
    var n := |mat|;
    var B := Load(mat);
    var rowSelected := new bool[n](_ => false);
    rank := 0;
    ghost var a := AsReals(mat);
    ghost var pivot: seq<int> := [];
    NothingFree();
    StartsReducing(a, Contents(B), rowSelected[..]);
    for i := 0 to n
      invariant |pivot| == i && rank + |FreeColumns(pivot)| == i
      invariant Reducing(a, Contents(B), pivot, rowSelected[..])
    {
      ghost var before := pivot;
      var found;
      found, pivot := ReduceColumn(B, rowSelected, i, a, pivot);
      FreeColumnsGrow(before, pivot[i]);
      assert pivot == before + [pivot[i]];
      if found {
        rank := rank + 1;
      }
    }
    FinishedParametrises(a, Contents(B), pivot, rowSelected[..]);
    DimensionZero(a, |FreeColumns(pivot)|);
    forall d | KernelDimension(a, d)
      ensures d == |FreeColumns(pivot)|
    {
      DimensionIsUnique(a, d, |FreeColumns(pivot)|);
    }
  }

  lemma StartsReducing(a: Matrix, b: Matrix, selected: seq<bool>)
    requires Square(a, |a|) && b == a && |selected| == |a|
    requires forall k :: 0 <= k < |selected| ==> !selected[k]
    ensures Reducing(a, b, [], selected)
  {
    assert Logical(b, []) == b by {
      forall k | 0 <= k < |b|
        ensures Logical(b, [])[k] == b[k]
      {
      }
    }
  }
}
