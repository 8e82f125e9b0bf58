/** Similarity analysis (src/similarity_analysis.cpp): for every unit-cell atom
    the distance matrix of its neighbours, and for every pair of atoms the
    smallest Frobenius-style distance between their two matrices over all
    orderings of the smaller one's neighbours. Distances are reals; the final
    square root is a parameter. */
module Similarity {
  import opened Wrappers
  import opened CnaTriplet
  import opened CommonNeighbour
  import opened StateModel
  import P = Permutations
  import G = PermutationGenerator

  type RealMatrix = seq<seq<real>>

  /** lownorm's starting value: a norm counts only when it is below it. */
  const Sentinel: real := 1000000.0

  /** The number of permutation generators, for lengths 1 to 12. */
  const GeneratorSlots: nat := 12

  // ---------------------------------------------------------------------
  // Making the two matrices equal in size

  function Min(a: nat, b: nat): nat { if a <= b then a else b }

  /** The matrix with more rows goes first (the first on a tie). */
  function Ordered<T>(m1: seq<T>, m2: seq<T>): (r: (seq<T>, seq<T>))
    ensures |r.0| >= |r.1|
    ensures multiset{r.0, r.1} == multiset{m1, m2}
  {
    if |m1| < |m2| then (m2, m1) else (m1, m2)
  }

  /** conservativeResizeLike(Zero(size, size)): the entries of m in the top
      left corner, zeros elsewhere. */
  function PadReal(m: RealMatrix, size: nat): (r: RealMatrix)
    requires IsSquare(m, |m|) && |m| <= size
    ensures IsSquare(r, size)
  {
    seq(size, i requires 0 <= i < size =>
      seq(size, j requires 0 <= j < size => if i < |m| && j < |m| then m[i][j] else 0.0))
  }

  function PadBool(m: BoolMatrix, size: nat): (r: BoolMatrix)
    requires Square(m) && |m| <= size
    ensures |r| == size && Square(r)
  {
    seq(size, i requires 0 <= i < size =>
      seq(size, j requires 0 <= j < size => i < |m| && j < |m| && m[i][j]))
  }

  /** Padding keeps every entry of m and adds only zeros. */
  lemma PadRealKeeps(m: RealMatrix, size: nat)
    requires IsSquare(m, |m|) && |m| <= size
    ensures forall i, j :: 0 <= i < |m| && 0 <= j < |m| ==> PadReal(m, size)[i][j] == m[i][j]
    ensures forall i, j :: 0 <= i < size && 0 <= j < size && (i >= |m| || j >= |m|) ==>
      PadReal(m, size)[i][j] == 0.0
    ensures PadReal(m, |m|) == m
  {
    var r := PadReal(m, |m|);
    forall i | 0 <= i < |m|
      ensures r[i] == m[i]
    {
    }
  }

  // ---------------------------------------------------------------------
  // analyze_single

  /** Whether ex can index the first |ex| rows of m1 and, through its values,
      the rows of m2. */
  predicate Fits(m1: RealMatrix, m2: RealMatrix, ex: seq<nat>)
  {
    && IsSquare(m1, |m1|) && IsSquare(m2, |m2|) && |ex| <= |m1|
    && forall k :: 0 <= k < |ex| ==> ex[k] < |m2|
  }

  function Sq(x: real): real { x * x }

  function Term(m1: RealMatrix, m2: RealMatrix, ex: seq<nat>, i: nat, j: nat): real
    requires Fits(m1, m2, ex) && i < |ex| && j < |ex|
  {
    Sq(m1[i][j] - m2[ex[i]][ex[j]])
  }

  /** The terms (i, k) for i < k < j. */
  function RowSum(m1: RealMatrix, m2: RealMatrix, ex: seq<nat>, i: nat, j: nat): real
    requires Fits(m1, m2, ex) && i < |ex| && j <= |ex|
  {
    if j <= i + 1 then 0.0 else RowSum(m1, m2, ex, i, j - 1) + Term(m1, m2, ex, i, j - 1)
  }

  /** The terms (r, k) for r < i and r < k < |ex|. */
  function PairSum(m1: RealMatrix, m2: RealMatrix, ex: seq<nat>, i: nat): real
    requires Fits(m1, m2, ex) && i <= |ex|
  {
    if i == 0 then 0.0 else PairSum(m1, m2, ex, i - 1) + RowSum(m1, m2, ex, i - 1, |ex|)
  }

  /** The value analyze_single returns. */
  function Norm(m1: RealMatrix, m2: RealMatrix, ex: seq<nat>): real
    requires Fits(m1, m2, ex)
  {
    2.0 * PairSum(m1, m2, ex, |ex|)
  }

  /** A square is never negative and is zero only at zero. */
  lemma SquareSign(x: real)
    ensures Sq(x) >= 0.0
    ensures Sq(x) == 0.0 <==> x == 0.0
  {
    if x > 0.0 {
      calc { Sq(x); == x * x; > 0.0 * x; == 0.0; }
    } else if x < 0.0 {
      calc { Sq(x); == (-x) * (-x); > 0.0 * (-x); == 0.0; }
    } else {
      calc { Sq(x); == x * x; == 0.0 * 0.0; == 0.0; }
    }
  }

  lemma {:induction false} RowSumFacts(m1: RealMatrix, m2: RealMatrix, ex: seq<nat>, i: nat, j: nat)
    requires Fits(m1, m2, ex) && i < |ex| && j <= |ex|
    ensures RowSum(m1, m2, ex, i, j) >= 0.0
    ensures RowSum(m1, m2, ex, i, j) == 0.0 <==>
      forall k :: i < k < j ==> m1[i][k] == m2[ex[i]][ex[k]]
  {
    if j > i + 1 {
      RowSumFacts(m1, m2, ex, i, j - 1);
      SquareSign(m1[i][j - 1] - m2[ex[i]][ex[j - 1]]);
    }
  }

  lemma {:induction false} PairSumFacts(m1: RealMatrix, m2: RealMatrix, ex: seq<nat>, i: nat)
    requires Fits(m1, m2, ex) && i <= |ex|
    ensures PairSum(m1, m2, ex, i) >= 0.0
    ensures PairSum(m1, m2, ex, i) == 0.0 <==>
      forall r, k :: 0 <= r < i && r < k < |ex| ==> m1[r][k] == m2[ex[r]][ex[k]]
  {
    if i > 0 {
      PairSumFacts(m1, m2, ex, i - 1);
      RowSumFacts(m1, m2, ex, i - 1, |ex|);
    }
  }

  /** analyze_single is never negative, and it is zero exactly when every
      pair i < j of the first matrix equals the pair (ex[i], ex[j]) of the
      second. */
  lemma NormFacts(m1: RealMatrix, m2: RealMatrix, ex: seq<nat>)
    requires Fits(m1, m2, ex)
    ensures Norm(m1, m2, ex) >= 0.0
    ensures Norm(m1, m2, ex) == 0.0 <==>
      forall i, j :: 0 <= i < j < |ex| ==> m1[i][j] == m2[ex[i]][ex[j]]
  {
    PairSumFacts(m1, m2, ex, |ex|);
  }

  /** analyze_single: the squared differences over the pairs i < j below
      |ex|, doubled. */
  method AnalyzeSingle(mat1: RealMatrix, mat2: RealMatrix, ex: seq<nat>) returns (norm: real)
    requires Fits(mat1, mat2, ex)
    ensures norm == Norm(mat1, mat2, ex)
  {
    norm := 0.0;
    for i := 0 to |ex|
      invariant norm == PairSum(mat1, mat2, ex, i)
    {
      for j := i + 1 to |ex|
        invariant norm == PairSum(mat1, mat2, ex, i) + RowSum(mat1, mat2, ex, i, j)
      {
        norm := norm + (mat1[i][j] - mat2[ex[i]][ex[j]]) * (mat1[i][j] - mat2[ex[i]][ex[j]]);
      }
    }
    norm := norm * 2.0;
  }

  // ---------------------------------------------------------------------
  // The search over all permutations

  /** The norm of every permutation of 0..n-1, in generation order. */
  function Scores(m1: RealMatrix, m2: RealMatrix, n: nat): (s: seq<real>)
    requires IsSquare(m1, |m1|) && IsSquare(m2, |m2|) && n <= |m1| && n <= |m2|
    ensures |s| == |P.Perms(n)|
  {
    seq(|P.Perms(n)|, k requires 0 <= k < |P.Perms(n)| =>
      P.PermEntries(n, k);
      Norm(m1, m2, P.Perms(n)[k]))
  }

  /** The argmin loop over the first n scores: the lowest norm seen and its
      index, replaced only by a strictly smaller norm. */
  function Argmin(scores: seq<real>, n: nat): (r: (real, nat))
    requires n <= |scores|
  {
    if n == 0 then (Sentinel, 0)
    else
      var (low, pid) := Argmin(scores, n - 1);
      if scores[n - 1] < low then (scores[n - 1], n - 1) else (low, pid)
  }

  /** The result of the argmin: the lowest score, reached first at pid, when
      some score is below the sentinel; otherwise the sentinel and index 0. */
  lemma {:induction false} ArgminSpec(scores: seq<real>, n: nat)
    requires n <= |scores|
    ensures var (low, pid) := Argmin(scores, n);
      && low <= Sentinel
      && (forall i :: 0 <= i < n ==> low <= scores[i])
      && (n == 0 || pid < n)
      && ((exists i :: 0 <= i < n && scores[i] < Sentinel) ==>
            low == scores[pid] && forall i :: 0 <= i < pid ==> low < scores[i])
      && ((forall i :: 0 <= i < n ==> scores[i] >= Sentinel) ==> low == Sentinel && pid == 0)
  {
    if n > 0 {
      ArgminSpec(scores, n - 1);
    }
  }

  /** A zero first score wins when no score is negative. */
  lemma {:induction false} ArgminZeroFirst(scores: seq<real>, n: nat)
    requires 1 <= n <= |scores| && scores[0] == 0.0
    requires forall i :: 0 <= i < n ==> scores[i] >= 0.0
    ensures Argmin(scores, n) == (0.0, 0)
  {
    if n > 1 {
      ArgminZeroFirst(scores, n - 1);
    }
  }

  /** The squared metric calculate_distance_metric_single_thread computes, and
      the index of the permutation it selects. */
  function Search(dm1: RealMatrix, dm2: RealMatrix): (r: (real, nat))
    requires IsSquare(dm1, |dm1|) && IsSquare(dm2, |dm2|)
  {
    var (big, small) := Ordered(dm1, dm2);
    var size := |big|;
    Argmin(Scores(PadReal(big, size), PadReal(small, size), |small|), |P.Perms(|small|)|)
  }

  /** A matrix compared with itself: the identity ordering scores zero, so the
      metric is zero and permutation 0, the identity, is selected. */
  lemma SelfSimilarity(dm: RealMatrix)
    requires IsSquare(dm, |dm|)
    ensures Search(dm, dm) == (0.0, 0)
    ensures P.Perms(|dm|)[0] == P.Range(|dm|)
  {
    var n := |dm|;
    var m := PadReal(dm, n);
    PadRealKeeps(dm, n);
    P.PermsFacts(n);
    var s := Scores(m, m, n);
    forall k | 0 <= k < |s|
      ensures s[k] >= 0.0
    {
      P.PermEntries(n, k);
      NormFacts(m, m, P.Perms(n)[k]);
    }
    NormFacts(m, m, P.Range(n));
    assert Ordered(dm, dm) == (dm, dm);
    ArgminZeroFirst(s, |s|);
  }

  /** calculate_distance_metric_single_thread, with the generator of length
      minsize given: the larger matrix first, both zero-padded, every
      permutation scored, the first strictly lowest kept; its elements are
      written to permvec and the square root of its norm returned. */
  method DistanceMetric(dm1: RealMatrix, dm2: RealMatrix, pg: G.Generator, permvec: array<nat>,
                        sqrt: real -> real)
    returns (metric: real)
    requires IsSquare(dm1, |dm1|) && IsSquare(dm2, |dm2|)
    requires pg.Valid() && pg.sz == Min(|dm1|, |dm2|) >= 1
    requires permvec.Length >= pg.sz
    modifies pg`permvec, permvec
    ensures pg.Valid() && (old(pg.permvec) != [] ==> pg.permvec == old(pg.permvec))
    ensures var (low, pid) := Search(dm1, dm2);
      && pid < |P.Perms(pg.sz)|
      && metric == sqrt(low)
      && permvec[..pg.sz] == P.Perms(pg.sz)[pid]
      && permvec[pg.sz..] == old(permvec[pg.sz..])
  {
    var dm1c, dm2c := dm1, dm2;
    if |dm1| < |dm2| {
      dm1c, dm2c := dm2, dm1;
    }
    var minsize := |dm2c|;
    var maxsize := |dm1c|;
    dm1c := PadReal(dm1c, maxsize);
    dm2c := PadReal(dm2c, maxsize);

    var permutations := pg.GetPermutationVector();
    P.PermsFacts(minsize);
    assert permutations == G.PermVector(minsize);

    var lownorm, pid := LowestNorm(dm1c, dm2c, pg);
    CopySelected(permutations, minsize, pid, permvec);
    metric := sqrt(lownorm);
  }

  /** The argmin loop: every permutation of the generator scored against the
      padded matrices, the first strictly lowest norm below the sentinel
      kept. */
  method LowestNorm(dm1c: RealMatrix, dm2c: RealMatrix, pg: G.Generator) returns (lownorm: real, pid: nat)
    requires IsSquare(dm1c, |dm1c|) && IsSquare(dm2c, |dm2c|) && |dm1c| == |dm2c|
    requires pg.Valid() && 1 <= pg.sz <= |dm1c|
    ensures (lownorm, pid) == Argmin(Scores(dm1c, dm2c, pg.sz), |P.Perms(pg.sz)|)
    ensures pid < |P.Perms(pg.sz)|
  {
    var minsize := pg.sz;
    P.PermsFacts(minsize);
    lownorm := Sentinel;
    pid := 0;
    ghost var scores := Scores(dm1c, dm2c, minsize);
    for i := 0 to pg.NrPerm()
      invariant (lownorm, pid) == Argmin(scores, i)
    {
      var perm := pg.GetPermutationSingleVector(i);
      P.PermEntries(minsize, i);
      var norm := AnalyzeSingle(dm1c, dm2c, perm);
      if norm < lownorm {
        lownorm := norm;
        pid := i;
      }
    }
    ArgminSpec(scores, |scores|);
  }

  /** Permutation pid, taken from the generator's flat vector, written to
      the front of permvec. */
  method CopySelected(permutations: seq<nat>, minsize: nat, pid: nat, permvec: array<nat>)
    requires 1 <= minsize && pid < |P.Perms(minsize)| && permutations == G.PermVector(minsize)
    requires permvec.Length >= minsize
    modifies permvec
    ensures permvec[..minsize] == P.Perms(minsize)[pid]
    ensures permvec[minsize..] == old(permvec[minsize..])
  {
    G.PermVectorSlice(minsize, pid);
    CopyPermutation(permutations, pid * minsize, minsize, permvec);
  }

  /** The copy of minsize entries from the flat vector into permvec. */
  method CopyPermutation(permutations: seq<nat>, base: nat, minsize: nat, permvec: array<nat>)
    requires base + minsize <= |permutations| && permvec.Length >= minsize
    modifies permvec
    ensures permvec[..minsize] == permutations[base .. base + minsize]
    ensures permvec[minsize..] == old(permvec[minsize..])
  {
    for i := 0 to minsize
      invariant permvec[..i] == permutations[base .. base + i]
      invariant permvec[minsize..] == old(permvec[minsize..])
    {
      permvec[i] := permutations[base + i];
    }
  }

  // ---------------------------------------------------------------------
  // calculate_adjacency_metric_perm

  function Bit(b: bool): int { if b then 1 else 0 }

  /** The number of k with i < k < j where a(i, k) and b(p[i], p[k]) differ. */
  function RowMismatches(a: BoolMatrix, b: BoolMatrix, p: seq<nat>, n: nat, i: nat, j: nat): nat
    requires Square(a) && Square(b) && n <= |a| && n <= |p| && i < n && j <= n
    requires forall k :: 0 <= k < n ==> p[k] < |b|
  {
    if j <= i + 1 then 0
    else RowMismatches(a, b, p, n, i, j - 1) + (if a[i][j - 1] != b[p[i]][p[j - 1]] then 1 else 0)
  }

  /** The number of pairs r < k < n, r < i, that differ. */
  function Mismatches(a: BoolMatrix, b: BoolMatrix, p: seq<nat>, n: nat, i: nat): nat
    requires Square(a) && Square(b) && n <= |a| && n <= |p| && i <= n
    requires forall k :: 0 <= k < n ==> p[k] < |b|
  {
    if i == 0 then 0 else Mismatches(a, b, p, n, i - 1) + RowMismatches(a, b, p, n, i - 1, n)
  }

  lemma {:induction false} RowMismatchesFacts(a: BoolMatrix, b: BoolMatrix, p: seq<nat>, n: nat, i: nat, j: nat)
    requires Square(a) && Square(b) && n <= |a| && n <= |p| && i < n && j <= n
    requires forall k :: 0 <= k < n ==> p[k] < |b|
    ensures RowMismatches(a, b, p, n, i, j) <= if j <= i + 1 then 0 else j - i - 1
    ensures RowMismatches(a, b, p, n, i, j) == 0 <==> forall k :: i < k < j ==> a[i][k] == b[p[i]][p[k]]
  {
    if j > i + 1 {
      RowMismatchesFacts(a, b, p, n, i, j - 1);
    }
  }

  lemma {:induction false} MismatchesFacts(a: BoolMatrix, b: BoolMatrix, p: seq<nat>, n: nat, i: nat)
    requires Square(a) && Square(b) && n <= |a| && n <= |p| && i <= n
    requires forall k :: 0 <= k < n ==> p[k] < |b|
    ensures Mismatches(a, b, p, n, i) == 0 <==>
      forall r, k :: 0 <= r < i && r < k < n ==> a[r][k] == b[p[r]][p[k]]
    ensures 2 * Mismatches(a, b, p, n, i) <= i * (2 * n - i - 1)
  {
    if i > 0 {
      MismatchesFacts(a, b, p, n, i - 1);
      RowMismatchesFacts(a, b, p, n, i - 1, n);
      assert i * (2 * n - i - 1) == (i - 1) * (2 * n - (i - 1) - 1) + 2 * (n - i);
    }
  }

  /** The adjacency metric counts disagreeing pairs exactly: zero exactly when
      every pair i < j below n agrees, and at most n(n-1)/2 pairs, each
      counted twice. */
  lemma MismatchBounds(a: BoolMatrix, b: BoolMatrix, p: seq<nat>, n: nat)
    requires Square(a) && Square(b) && n <= |a| && n <= |p|
    requires forall k :: 0 <= k < n ==> p[k] < |b|
    ensures Mismatches(a, b, p, n, n) == 0 <==>
      forall i, j :: 0 <= i < j < n ==> a[i][j] == b[p[i]][p[j]]
    ensures 2 * Mismatches(a, b, p, n, n) <= n * (n - 1)
  {
    MismatchesFacts(a, b, p, n, n);
  }

  /** The double loop of calculate_adjacency_metric_perm: the squared
      difference of two bits is one exactly when they differ. */
  method CountMismatches(a: BoolMatrix, b: BoolMatrix, p: seq<nat>, n: nat) returns (anorm: int)
    requires Square(a) && Square(b) && n <= |a| && n <= |p|
    requires forall k :: 0 <= k < n ==> p[k] < |b|
    ensures anorm == Mismatches(a, b, p, n, n)
  {
    anorm := 0;
    for i := 0 to n
      invariant anorm == Mismatches(a, b, p, n, i)
    {
      for j := i + 1 to n
        invariant anorm == Mismatches(a, b, p, n, i) + RowMismatches(a, b, p, n, i, j)
      {
        var d := Bit(a[i][j]) - Bit(b[p[i]][p[j]]);
        assert d * d == if a[i][j] != b[p[i]][p[j]] then 1 else 0;
        anorm := anorm + d * d;
      }
    }
  }

  /** calculate_adjacency_metric_perm: the larger matrix first, both padded
      with false; every disagreeing pair below minsize adds one, since the
      difference of two bits squared is one exactly when they differ; the
      count is doubled. */
  method AdjacencyMetric(am1: BoolMatrix, am2: BoolMatrix, permvec: array<nat>) returns (metric: real)
    requires Square(am1) && Square(am2)
    requires permvec.Length >= Min(|am1|, |am2|)
    requires forall k :: 0 <= k < Min(|am1|, |am2|) ==> permvec[k] < |Ordered(am1, am2).0|
    ensures var (big, small) := Ordered(am1, am2);
      var m := |small|;
      metric == 2.0 * (Mismatches(PadBool(big, |big|), PadBool(small, |big|), permvec[..m], m, m) as real)
  {
    var am1c, am2c := am1, am2;
    if |am1| < |am2| {
      am1c, am2c := am2, am1;
    }
    var minsize := |am2c|;
    var maxsize := |am1c|;
    am1c := PadBool(am1c, maxsize);
    am2c := PadBool(am2c, maxsize);
    var anorm := CountMismatches(am1c, am2c, permvec[..minsize], minsize);
    metric := (anorm as real) * 2.0;
  }

  // ---------------------------------------------------------------------
  // Local distance matrices and the job list

  /** Entry (a, b) of the local distance matrix: zero on the diagonal,
      otherwise the distance between the two neighbours, read with the lower
      position first. */
  function LocalEntry(d: RealMatrix, ids: seq<nat>, a: nat, b: nat): real
    requires IsSquare(d, |d|) && InRange(ids, |d|) && a < |ids| && b < |ids|
  {
    if a == b then 0.0 else if a < b then d[ids[a]][ids[b]] else d[ids[b]][ids[a]]
  }

  function LocalDistances(d: RealMatrix, ids: seq<nat>): (dm: RealMatrix)
    requires IsSquare(d, |d|) && InRange(ids, |d|)
    ensures IsSquare(dm, |ids|)
  {
    seq(|ids|, a requires 0 <= a < |ids| =>
      seq(|ids|, b requires 0 <= b < |ids| => LocalEntry(d, ids, a, b)))
  }

  /** The local distance matrix is symmetric with a zero diagonal and holds
      the distances between the neighbours; for a symmetric distance matrix,
      in either order. */
  lemma LocalDistancesShape(d: RealMatrix, ids: seq<nat>)
    requires IsSquare(d, |d|) && InRange(ids, |d|)
    ensures var dm := LocalDistances(d, ids);
      forall a, b :: 0 <= a < |ids| && 0 <= b < |ids| ==> dm[a][b] == dm[b][a]
    ensures var dm := LocalDistances(d, ids);
      forall a :: 0 <= a < |ids| ==> dm[a][a] == 0.0
    ensures (forall i, j :: 0 <= i < |d| && 0 <= j < |d| ==> d[i][j] == d[j][i]) ==>
      var dm := LocalDistances(d, ids);
      forall a, b :: 0 <= a < |ids| && 0 <= b < |ids| && a != b ==> dm[a][b] == d[ids[a]][ids[b]]
  {
  }

  /** The local distance matrix of atom atid. */
  function AtomDistances(d: RealMatrix, atid: nat, cutoff: real): (dm: RealMatrix)
    requires IsSquare(d, |d|) && atid < |d|
    ensures IsSquare(dm, |dm|) && |dm| == |CutoffNeighbours(d[atid], atid, |d|, cutoff)|
  {
    LocalDistances(d, CutoffNeighbours(d[atid], atid, |d|, cutoff))
  }

  /** The fill loop of construct_distance_matrix. */
  method FillDistances(d: RealMatrix, ids: seq<nat>) returns (dm: RealMatrix)
    requires IsSquare(d, |d|) && InRange(ids, |d|)
    ensures dm == LocalDistances(d, ids)
  {
    var k := |ids|;
    dm := seq(k, _ => seq(k, _ => 0.0));
    for i := 0 to k
      invariant IsSquare(dm, k)
      invariant forall a, b :: 0 <= a < k && 0 <= b < k && Added(i, i, a, b) ==>
        dm[a][b] == LocalEntry(d, ids, a, b)
    {
      for j := i to k
        invariant IsSquare(dm, k)
        invariant forall a, b :: 0 <= a < k && 0 <= b < k && Added(i, j, a, b) ==>
          dm[a][b] == LocalEntry(d, ids, a, b)
      {
        if i == j {
          dm := dm[i := dm[i][j := 0.0]];
          continue;
        }
        var id1 := ids[i];
        var id2 := ids[j];
        var v := d[id1][id2];
        dm := dm[i := dm[i][j := v]];
        dm := dm[j := dm[j][i := v]];
      }
    }
    forall a | 0 <= a < k
      ensures dm[a] == LocalDistances(d, ids)[a]
    {
      assert forall b :: 0 <= b < k ==> Added(k, k, a, b);
    }
  }

  /** The pairs (i, j), i < j, of row i. */
  function RowPairs(i: nat, n: nat): (r: seq<(nat, nat)>)
    ensures forall t :: 0 <= t < |r| ==> r[t] == (i, i + 1 + t)
    ensures |r| == if i < n then n - i - 1 else 0
  {
    if i + 1 >= n then [] else seq(n - i - 1, t requires 0 <= t < n - i - 1 => (i, i + 1 + t))
  }

  /** The job list: rows 0..i-1 of pairs, in order. */
  function Pairs(i: nat, n: nat): seq<(nat, nat)>
  {
    if i == 0 then [] else Pairs(i - 1, n) + RowPairs(i - 1, n)
  }

  predicate LexLess(p: (nat, nat), q: (nat, nat))
  {
    p.0 < q.0 || (p.0 == q.0 && p.1 < q.1)
  }

  /** The jobs are exactly the pairs i < j < n with i below the row reached,
      in strictly increasing lexicographic order, so each pair occurs once. */
  lemma PairsSpec(i: nat, n: nat)
    requires i <= n
    ensures forall p :: p in Pairs(i, n) <==> p.0 < i && p.0 < p.1 < n
    ensures forall s, t :: 0 <= s < t < |Pairs(i, n)| ==> LexLess(Pairs(i, n)[s], Pairs(i, n)[t])
  {
    PairsMembers(i, n);
    PairsOrdered(i, n);
  }

  lemma {:induction false} PairsMembers(i: nat, n: nat)
    requires i <= n
    ensures forall p :: p in Pairs(i, n) <==> p.0 < i && p.0 < p.1 < n
  {
    if i > 0 {
      PairsMembers(i - 1, n);
      var row := RowPairs(i - 1, n);
      forall p: (nat, nat) | p.0 < i && p.0 < p.1 < n
        ensures p in Pairs(i, n)
      {
        if p.0 == i - 1 {
          assert row[p.1 - i] == p;
        }
      }
    }
  }

  lemma {:induction false} PairsOrdered(i: nat, n: nat)
    requires i <= n
    ensures forall s, t :: 0 <= s < t < |Pairs(i, n)| ==> LexLess(Pairs(i, n)[s], Pairs(i, n)[t])
  {
    if i > 0 {
      var front, row := Pairs(i - 1, n), RowPairs(i - 1, n);
      assert Pairs(i, n) == front + row;
      PairsOrdered(i - 1, n);
      PairsMembers(i - 1, n);
      forall s, t | 0 <= s < t < |front + row|
        ensures LexLess((front + row)[s], (front + row)[t])
      {
        if t < |front| {
          assert (front + row)[s] == front[s] && (front + row)[t] == front[t];
        } else if s >= |front| {
          assert (front + row)[s] == row[s - |front|] && (front + row)[t] == row[t - |front|];
        } else {
          assert (front + row)[s] == front[s] && (front + row)[t] == row[t - |front|];
          assert front[s] in front;
        }
      }
    }
  }

  /** Every job (i, j) of analyze has i < j < n. */
  lemma JobsInRange(n: nat)
    ensures forall p :: p in Pairs(n, n) ==> p.0 < p.1 < n
  {
    PairsSpec(n, n);
  }

  /** Once every job has run, the metric matrix holds the metric of (a, b)
      off the diagonal, in both triangles, and 0 on it. */
  lemma AllWritten(dms: seq<RealMatrix>, n: nat, a: nat, b: nat, sqrt: real -> real)
    requires |dms| == n && a < n && b < n
    requires forall i :: 0 <= i < n ==> IsSquare(dms[i], |dms[i]|)
    ensures var jobs := Pairs(n, n);
      Written(dms, jobs, |jobs|, a, b, sqrt) ==
        if a < b then PairMetric(dms, a, b, sqrt)
        else if b < a then PairMetric(dms, b, a, sqrt)
        else 0.0
  {
    var jobs := Pairs(n, n);
    PairsSpec(n, n);
    assert jobs[..|jobs|] == jobs;
  }

  /** The loops that create the list of jobs. */
  method BuildJobs(n: nat) returns (jobs: seq<(nat, nat)>)
    ensures jobs == Pairs(n, n)
  {
    jobs := [];
    for i := 0 to n
      invariant jobs == Pairs(i, n)
    {
      for j := i + 1 to n
        invariant jobs == Pairs(i, n) + RowPairs(i, n)[..j - i - 1]
      {
        assert RowPairs(i, n)[..j - i] == RowPairs(i, n)[..j - i - 1] + [(i, j)];
        jobs := jobs + [(i, j)];
      }
      assert RowPairs(i, n)[..n - i - 1] == RowPairs(i, n);
    }
  }

  // ---------------------------------------------------------------------
  // The analysis

  /** The metric written for atoms i and j. */
  function PairMetric(dms: seq<RealMatrix>, i: nat, j: nat, sqrt: real -> real): real
    requires i < |dms| && j < |dms|
    requires IsSquare(dms[i], |dms[i]|) && IsSquare(dms[j], |dms[j]|)
  {
    sqrt(Search(dms[i], dms[j]).0)
  }

  /** Matrix entry (a, b) once the jobs before k are done. */
  function Written(dms: seq<RealMatrix>, jobs: seq<(nat, nat)>, k: nat, a: nat, b: nat, sqrt: real -> real): real
    requires k <= |jobs| && a < |dms| && b < |dms|
    requires forall i :: 0 <= i < |dms| ==> IsSquare(dms[i], |dms[i]|)
  {
    if (a, b) in jobs[..k] then PairMetric(dms, a, b, sqrt)
    else if (b, a) in jobs[..k] then PairMetric(dms, b, a, sqrt)
    else 0.0
  }

  /** Writing job k, (i, j) with i < j, to (i, j) and (j, i) extends the
      written part of the metric matrix by that job. */
  lemma WrittenStep(mm: RealMatrix, dms: seq<RealMatrix>, jobs: seq<(nat, nat)>, k: nat, n: nat,
                    v: real, sqrt: real -> real)
    requires k < |jobs| && |dms| == n && IsSquare(mm, n)
    requires forall i :: 0 <= i < n ==> IsSquare(dms[i], |dms[i]|)
    requires forall p :: p in jobs ==> p.0 < p.1 < n
    requires v == PairMetric(dms, jobs[k].0, jobs[k].1, sqrt)
    requires forall a, b :: 0 <= a < n && 0 <= b < n ==> mm[a][b] == Written(dms, jobs, k, a, b, sqrt)
    ensures var (i, j) := jobs[k];
      var mm' := mm[i := mm[i][j := v]][j := mm[i := mm[i][j := v]][j][i := v]];
      && IsSquare(mm', n)
      && forall a, b :: 0 <= a < n && 0 <= b < n ==> mm'[a][b] == Written(dms, jobs, k + 1, a, b, sqrt)
  {
    var (i, j) := jobs[k];
    assert jobs[..k + 1] == jobs[..k] + [(i, j)];
    assert jobs[k] in jobs;
    forall p | p in jobs[..k + 1]
      ensures p in jobs
    {
    }
    var row := mm[i][j := v];
    var mm' := mm[i := row][j := mm[i := row][j][i := v]];
    forall a, b | 0 <= a < n && 0 <= b < n
      ensures mm'[a][b] == Written(dms, jobs, k + 1, a, b, sqrt)
    {
      assert (a, b) in jobs[..k + 1] <==> (a, b) in jobs[..k] || (a, b) == (i, j);
      assert (b, a) in jobs[..k + 1] <==> (b, a) in jobs[..k] || (b, a) == (i, j);
    }
  }

  class SimilarityAnalysis {
    var state: State?
    var generators: seq<G.Generator>
    var distanceMatrices: seq<RealMatrix>
    var neighborIds: seq<seq<nat>>
    var distances: RealMatrix
    var distanceMetricMatrix: RealMatrix

    /** Slot k holds the generator of length k + 1, with its flat vector. */
    ghost predicate Valid()
      reads this, generators
    {
      && |generators| == GeneratorSlots
      && forall k :: 0 <= k < GeneratorSlots ==>
        && generators[k].sz == k + 1 && generators[k].Valid()
        && generators[k].permvec == G.PermVector(k + 1)
    }

    /** The constructor without the unsafe flag: one generator for every
        length from 1 to 12. */
    constructor ()
      ensures Valid() && state == null
      ensures distanceMatrices == [] && neighborIds == [] && distances == [] && distanceMetricMatrix == []
    {
      state := null;
      distanceMatrices := [];
      neighborIds := [];
      distances := [];
      distanceMetricMatrix := [];
      var gs: seq<G.Generator> := [];
      for i := 1 to GeneratorSlots + 1
        invariant |gs| == i - 1
        invariant forall k :: 0 <= k < i - 1 ==>
          && gs[k].sz == k + 1 && gs[k].Valid() && gs[k].permvec == G.PermVector(k + 1)
      {
        var g := new G.Generator(i);
        gs := gs + [g];
      }
      generators := gs;
    }

    /** construct_distance_matrix: appends the neighbours of atid closer than
        the cutoff, scanning up to the size of the distance matrix the state
        selected, and builds their local distance matrix. */
    method ConstructDistanceMatrix(atid: nat, cutoff: real) returns (dm: RealMatrix)
      requires state != null && state.Ready() && distances == state.distances
      requires atid < |neighborIds| && atid < |distances|
      requires InRange(neighborIds[atid], |distances|)
      modifies this`neighborIds
      ensures var dd := MatrixSize(|state.atoms|, |state.atomsSupercell|, state.periodic);
        && dd == |distances|
        && neighborIds == old(neighborIds)[atid := old(neighborIds[atid]) + CutoffNeighbours(distances[atid], atid, dd, cutoff)]
        && InRange(neighborIds[atid], dd)
        && dm == LocalDistances(distances, neighborIds[atid])
    {
      var dd := |state.atomsSupercell|;
      if dd > MaxSizeAtomsUnitcell || !state.periodic {
        dd := |state.atoms|;
      }
      var found: seq<nat> := [];
      for i := 0 to dd
        invariant found == CutoffNeighbours(distances[atid], atid, i, cutoff)
      {
        if i == atid {
          continue;
        }
        if distances[atid][i] < cutoff {
          found := found + [i];
        }
      }
      neighborIds := neighborIds[atid := neighborIds[atid] + found];
      dm := FillDistances(distances, neighborIds[atid]);
    }

    /** analyze: the local distance matrices of all unit-cell atoms, then the
        metric of every job (i, j), i < j, written to (i, j) and (j, i) of a
        zero matrix. Of every two atoms, the one with fewer neighbours must
        have between 1 and 12, the lengths the generators cover. */
    method Analyze(st: State, cutoff: nat -> real, sqrt: real -> real)
      requires Valid() && st.Ready()
      requires forall a, b :: 0 <= a < b < |st.atoms| ==>
        1 <= Min(|CutoffNeighbours(st.distances[a], a, |st.distances|, cutoff(a))|,
                 |CutoffNeighbours(st.distances[b], b, |st.distances|, cutoff(b))|) <= GeneratorSlots
      modifies this, generators
      ensures Valid() && generators == old(generators)
      ensures state == st && distances == st.distances
      ensures |distanceMatrices| == |st.atoms| && |neighborIds| == |st.atoms|
      ensures forall i :: 0 <= i < |st.atoms| ==>
        && neighborIds[i] == CutoffNeighbours(distances[i], i, |distances|, cutoff(i))
        && distanceMatrices[i] == AtomDistances(distances, i, cutoff(i))
      ensures forall i :: 0 <= i < |st.atoms| ==> IsSquare(distanceMatrices[i], |distanceMatrices[i]|)
      ensures IsSquare(distanceMetricMatrix, |st.atoms|)
      ensures forall a, b :: 0 <= a < |st.atoms| && 0 <= b < |st.atoms| ==>
        distanceMetricMatrix[a][b] ==
          if a < b then PairMetric(distanceMatrices, a, b, sqrt)
          else if b < a then PairMetric(distanceMatrices, b, a, sqrt)
          else 0.0
    {
      var n := |st.atoms|;
      distances := [];
      neighborIds := [];
      state := st;
      neighborIds := seq(n, _ => []);
      distances := st.distances;
      BuildLocalMatrices(n, cutoff);
      ComputeMetrics(n, sqrt);
    }

    /** The loop of analyze over the unit-cell atoms. */
    method BuildLocalMatrices(n: nat, cutoff: nat -> real)
      requires state != null && state.Ready() && distances == state.distances
      requires n == |state.atoms| && neighborIds == seq(n, _ => [])
      modifies this`neighborIds, this`distanceMatrices
      ensures |distanceMatrices| == n && |neighborIds| == n
      ensures forall i :: 0 <= i < n ==>
        && neighborIds[i] == CutoffNeighbours(distances[i], i, |distances|, cutoff(i))
        && distanceMatrices[i] == AtomDistances(distances, i, cutoff(i))
    {
      distanceMatrices := seq(n, _ => []);
      for i := 0 to n
        invariant |neighborIds| == n && |distanceMatrices| == n
        invariant forall k :: i <= k < n ==> neighborIds[k] == []
        invariant forall k :: 0 <= k < i ==>
          && neighborIds[k] == CutoffNeighbours(distances[k], k, |distances|, cutoff(k))
          && distanceMatrices[k] == AtomDistances(distances, k, cutoff(k))
      {
        var dm := ConstructDistanceMatrix(i, cutoff(i));
        assert neighborIds[i] == [] + CutoffNeighbours(distances[i], i, |distances|, cutoff(i));
        distanceMatrices := distanceMatrices[i := dm];
        assert neighborIds[i] == CutoffNeighbours(distances[i], i, |distances|, cutoff(i));
        assert distanceMatrices[i] == AtomDistances(distances, i, cutoff(i));
      }
    }

    /** One job (i, j): a fresh twelve-entry permvec and the generator of the
        smaller matrix's length. */
    method JobMetric(i: nat, j: nat, sqrt: real -> real) returns (mhsn: real)
      requires Valid() && i < |distanceMatrices| && j < |distanceMatrices|
      requires IsSquare(distanceMatrices[i], |distanceMatrices[i]|) && IsSquare(distanceMatrices[j], |distanceMatrices[j]|)
      requires 1 <= Min(|distanceMatrices[i]|, |distanceMatrices[j]|) <= GeneratorSlots
      modifies generators
      ensures Valid()
      ensures mhsn == PairMetric(distanceMatrices, i, j, sqrt)
    {
      var permvec := new nat[12](_ => 0);
      var m := Min(|distanceMatrices[i]|, |distanceMatrices[j]|);
      var pg := generators[m - 1];
      mhsn := DistanceMetric(distanceMatrices[i], distanceMatrices[j], pg, permvec, sqrt);
      forall k | 0 <= k < GeneratorSlots
        ensures generators[k].sz == k + 1 && generators[k].Valid()
        ensures generators[k].permvec == G.PermVector(k + 1)
      {
        if generators[k] != pg {
          assert generators[k].permvec == old(generators[k].permvec);
        }
      }
    }

    /** The job loop of analyze. */
    method ComputeMetrics(n: nat, sqrt: real -> real)
      requires Valid() && |distanceMatrices| == n
      requires forall i :: 0 <= i < n ==> IsSquare(distanceMatrices[i], |distanceMatrices[i]|)
      requires forall a, b :: 0 <= a < b < n ==>
        1 <= Min(|distanceMatrices[a]|, |distanceMatrices[b]|) <= GeneratorSlots
      modifies this`distanceMetricMatrix, generators
      ensures Valid()
      ensures IsSquare(distanceMetricMatrix, n)
      ensures forall a, b :: 0 <= a < n && 0 <= b < n ==>
        distanceMetricMatrix[a][b] ==
          if a < b then PairMetric(distanceMatrices, a, b, sqrt)
          else if b < a then PairMetric(distanceMatrices, b, a, sqrt)
          else 0.0
    {
      var dms := distanceMatrices;
      var mm: RealMatrix := seq(n, _ => seq(n, _ => 0.0));
      var jobs := BuildJobs(n);
      JobsInRange(n);
      for k := 0 to |jobs|
        modifies generators
        invariant Valid() && distanceMatrices == dms
        invariant IsSquare(mm, n)
        invariant forall a, b :: 0 <= a < n && 0 <= b < n ==>
          mm[a][b] == Written(dms, jobs, k, a, b, sqrt)
      {
        var (i, j) := jobs[k];
        assert jobs[k] in jobs;
        var mhsn := JobMetric(i, j, sqrt);
        WrittenStep(mm, dms, jobs, k, n, mhsn, sqrt);
        mm := mm[i := mm[i][j := mhsn]];
        mm := mm[j := mm[j][i := mhsn]];
      }
      forall a, b | 0 <= a < n && 0 <= b < n
        ensures mm[a][b] == if a < b then PairMetric(dms, a, b, sqrt)
          else if b < a then PairMetric(dms, b, a, sqrt)
          else 0.0
      {
        AllWritten(dms, n, a, b, sqrt);
      }
      distanceMetricMatrix := mm;
    }
  }

  // ---------------------------------------------------------------------
  // The unsafe constructor

  /** The slots the constructor's loop fills: i - 1 for i from 1 to 13 when
      unsafe, to 12 otherwise. */
  function SlotsFilled(unsafe: bool): (s: seq<nat>)
  {
    var top := if unsafe then 13 else 12;
    seq(top, i requires 0 <= i < top => i)
  }

  /** With the unsafe flag the loop fills slot 12 of a vector resized to 12
      slots. */
  lemma UnsafeSlotOutOfRange()
    ensures exists k :: 0 <= k < |SlotsFilled(true)| && SlotsFilled(true)[k] >= GeneratorSlots
  {
    assert SlotsFilled(true)[12] == 12;
  }

  /** Without it every slot filled exists, and every slot is filled. */
  lemma SafeSlotsInRange()
    ensures forall k :: 0 <= k < |SlotsFilled(false)| ==> SlotsFilled(false)[k] < GeneratorSlots
    ensures forall s :: 0 <= s < GeneratorSlots ==> s in SlotsFilled(false)
  {
    forall s | 0 <= s < GeneratorSlots
      ensures s in SlotsFilled(false)
    {
      assert SlotsFilled(false)[s] == s;
    }
  }
}
