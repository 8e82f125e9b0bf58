/** The common-neighbour triplet of src/cna_triplet.cpp (and its duplicate
    src/cna_signature.cpp). For atom atid of a boolean adjacency matrix it
    counts the neighbours (the rows i with matrix(i, atid) set), the edges among
    those neighbours, and the longest of the shortest paths between two
    neighbours in the graph those edges form. Boost's Dijkstra search on that
    unit-weight graph is specified by breadth-first layers. */
module CnaTriplet {
  import opened Wrappers
  import opened Text

  type BoolMatrix = seq<seq<bool>>

  predicate Square(m: BoolMatrix)
  {
    forall i :: 0 <= i < |m| ==> |m[i]| == |m|
  }

  datatype Triplet = Triplet(nrNeighbors: nat, nrNeighborEdges: nat, longestPath: nat)

  // ---------------------------------------------------------------------
  // Neighbours

  /** The rows below n whose entry in column atid is set, in increasing order. */
  function NeighboursBelow(m: BoolMatrix, atid: nat, n: nat): (ids: seq<nat>)
    requires Square(m) && atid < |m| && n <= |m|
    ensures forall k :: 0 <= k < |ids| ==> ids[k] < n
  {
    if n == 0 then [] else NeighboursBelow(m, atid, n - 1) + (if m[n - 1][atid] then [n - 1] else [])
  }

  function Neighbours(m: BoolMatrix, atid: nat): (ids: seq<nat>)
    requires Square(m) && atid < |m|
    ensures forall k :: 0 <= k < |ids| ==> ids[k] < |m|
  {
    NeighboursBelow(m, atid, |m|)
  }

  predicate Increasing(ids: seq<nat>)
  {
    forall a, b :: 0 <= a < b < |ids| ==> ids[a] < ids[b]
  }

  /** The neighbour list holds exactly the rows whose entry in column atid is
      set, each once and in increasing order. */
  lemma {:induction false} NeighboursBelowSpec(m: BoolMatrix, atid: nat, n: nat)
    requires Square(m) && atid < |m| && n <= |m|
    ensures Increasing(NeighboursBelow(m, atid, n))
    ensures forall i :: 0 <= i < n ==> (m[i][atid] <==> i in NeighboursBelow(m, atid, n))
  {
    if n > 0 {
      NeighboursBelowSpec(m, atid, n - 1);
    }
  }

  lemma NeighboursSpec(m: BoolMatrix, atid: nat)
    requires Square(m) && atid < |m|
    ensures Increasing(Neighbours(m, atid))
    ensures forall i :: 0 <= i < |m| ==> (m[i][atid] <==> i in Neighbours(m, atid))
  {
    NeighboursBelowSpec(m, atid, |m|);
  }

  // ---------------------------------------------------------------------
  // Edges among the neighbours

  predicate Among(m: BoolMatrix, ids: seq<nat>)
  {
    Square(m) && forall k :: 0 <= k < |ids| ==> ids[k] < |m|
  }

  /** Neighbours a < b are joined when the matrix links ids[a] to ids[b]. */
  predicate Edge(m: BoolMatrix, ids: seq<nat>, a: nat, b: nat)
    requires Among(m, ids) && a < |ids| && b < |ids|
  {
    a < b && m[ids[a]][ids[b]]
  }

  /** The undirected graph on the neighbours. */
  predicate Linked(m: BoolMatrix, ids: seq<nat>, a: nat, b: nat)
    requires Among(m, ids) && a < |ids| && b < |ids|
  {
    Edge(m, ids, a, b) || Edge(m, ids, b, a)
  }

  function Subgraph(m: BoolMatrix, ids: seq<nat>): (g: BoolMatrix)
    requires Among(m, ids)
    ensures |g| == |ids| && Square(g)
  {
    seq(|ids|, a requires 0 <= a < |ids| =>
      seq(|ids|, b requires 0 <= b < |ids| => Linked(m, ids, a, b)))
  }

  /** Edges from neighbour i to the neighbours i+1..j-1. */
  function RowEdges(m: BoolMatrix, ids: seq<nat>, i: nat, j: nat): (c: nat)
    requires Among(m, ids) && i < |ids| && j <= |ids|
    ensures c <= if j > i then j - i - 1 else 0
  {
    if j <= i + 1 then 0 else RowEdges(m, ids, i, j - 1) + (if m[ids[i]][ids[j - 1]] then 1 else 0)
  }

  /** Edges whose lower end is one of the first i neighbours. */
  function EdgesBelow(m: BoolMatrix, ids: seq<nat>, i: nat): nat
    requires Among(m, ids) && i <= |ids|
  {
    if i == 0 then 0 else EdgesBelow(m, ids, i - 1) + RowEdges(m, ids, i - 1, |ids|)
  }

  function EdgeCount(m: BoolMatrix, ids: seq<nat>): nat
    requires Among(m, ids)
  {
    EdgesBelow(m, ids, |ids|)
  }

  lemma {:induction false} EdgesBelowBound(m: BoolMatrix, ids: seq<nat>, i: nat)
    requires Among(m, ids) && i <= |ids|
    ensures 2 * EdgesBelow(m, ids, i) <= 2 * i * (|ids| - 1) - i * (i - 1)
  {
    if i > 0 {
      EdgesBelowBound(m, ids, i - 1);
      var k := |ids|;
      assert RowEdges(m, ids, i - 1, k) <= k - i;
      TriangleStep(i - 1, k);
    }
  }

  lemma TriangleStep(j: nat, k: nat)
    ensures 2 * (j + 1) * (k - 1) - (j + 1) * j == 2 * j * (k - 1) - j * (j - 1) + 2 * (k - 1 - j)
  {
    assert (j + 1) * j == j * (j - 1) + 2 * j;
    assert 2 * (j + 1) * (k - 1) == 2 * j * (k - 1) + 2 * (k - 1);
  }

  /** k neighbours have at most k(k-1)/2 edges among them. */
  lemma EdgeCountBound(m: BoolMatrix, ids: seq<nat>)
    requires Among(m, ids)
    ensures 2 * EdgeCount(m, ids) <= |ids| * (|ids| - 1)
  {
    var k := |ids|;
    EdgesBelowBound(m, ids, k);
    assert 2 * k * (k - 1) - k * (k - 1) == k * (k - 1);
  }

  // ---------------------------------------------------------------------
  // Shortest paths with unit weights

  /** v can be reached from src in at most d steps. */
  predicate InReach(g: BoolMatrix, src: nat, d: nat, v: nat)
    requires Square(g) && src < |g| && v < |g|
    decreases d
  {
    if d == 0 then v == src
    else InReach(g, src, d - 1, v) || exists u :: 0 <= u < |g| && InReach(g, src, d - 1, u) && g[u][v]
  }

  /** The first layer at or after d that holds v, searched up to |g|. */
  function Search(g: BoolMatrix, src: nat, v: nat, d: nat): (r: Option<nat>)
    requires Square(g) && src < |g| && v < |g|
    ensures r.Some? ==> d <= r.value && InReach(g, src, r.value, v)
    ensures r.Some? ==> forall e :: d <= e < r.value ==> !InReach(g, src, e, v)
    ensures r.None? ==> forall e :: d <= e <= |g| ==> !InReach(g, src, e, v)
    decreases |g| - d
  {
    if InReach(g, src, d, v) then Some(d)
    else if d >= |g| then None
    else Search(g, src, v, d + 1)
  }

  /** The unit-weight distance from src to v, None when v is not reached. */
  function Distance(g: BoolMatrix, src: nat, v: nat): (r: Option<nat>)
    requires Square(g) && src < |g| && v < |g|
  {
    Search(g, src, v, 0)
  }

  /** A walk: a non-empty sequence of vertices, each linked to the next. */
  predicate IsWalk(g: BoolMatrix, w: seq<nat>, src: nat, v: nat)
    requires Square(g)
  {
    && |w| >= 1 && w[0] == src && w[|w| - 1] == v
    && (forall k :: 0 <= k < |w| ==> w[k] < |g|)
    && (forall k :: 0 <= k < |w| - 1 ==> g[w[k]][w[k + 1]])
  }

  lemma {:induction false} ReachMonotone(g: BoolMatrix, src: nat, d: nat, e: nat, v: nat)
    requires Square(g) && src < |g| && v < |g| && d <= e
    requires InReach(g, src, d, v)
    ensures InReach(g, src, e, v)
    decreases e - d
  {
    if d < e {
      assert InReach(g, src, d + 1, v);
      ReachMonotone(g, src, d + 1, e, v);
    }
  }

  /** The end of a walk with at most d steps is in reach within d steps. */
  lemma {:induction false} WalkReaches(g: BoolMatrix, w: seq<nat>, src: nat, v: nat, d: nat)
    requires Square(g) && src < |g| && v < |g|
    requires IsWalk(g, w, src, v) && |w| <= d + 1
    ensures InReach(g, src, d, v)
    decreases |w|
  {
    if |w| == 1 {
      ReachMonotone(g, src, 0, d, v);
    } else {
      var u := w[|w| - 2];
      var w' := w[..|w| - 1];
      WalkReaches(g, w', src, u, d - 1);
      assert g[u][v];
    }
  }

  /** A vertex in reach within d steps ends a walk with at most d steps. */
  lemma {:induction false} ReachHasWalk(g: BoolMatrix, src: nat, d: nat, v: nat) returns (w: seq<nat>)
    requires Square(g) && src < |g| && v < |g|
    requires InReach(g, src, d, v)
    ensures IsWalk(g, w, src, v) && |w| <= d + 1
    decreases d
  {
    if d == 0 {
      w := [src];
    } else if InReach(g, src, d - 1, v) {
      w := ReachHasWalk(g, src, d - 1, v);
    } else {
      var u :| 0 <= u < |g| && InReach(g, src, d - 1, u) && g[u][v];
      var w' := ReachHasWalk(g, src, d - 1, u);
      w := w' + [v];
      assert forall k :: 0 <= k < |w'| ==> w[k] == w'[k];
    }
  }

  /** The distance is the number of steps of a shortest walk. */
  lemma DistanceIsShortest(g: BoolMatrix, src: nat, v: nat) returns (w: seq<nat>)
    requires Square(g) && src < |g| && v < |g|
    requires Distance(g, src, v).Some?
    ensures IsWalk(g, w, src, v) && |w| == Distance(g, src, v).value + 1
    ensures forall w' :: IsWalk(g, w', src, v) ==> |w'| >= |w|
  {
    var d := Distance(g, src, v).value;
    w := ReachHasWalk(g, src, d, v);
    forall w' | IsWalk(g, w', src, v)
      ensures |w'| >= d + 1
    {
      if |w'| < d + 1 {
        WalkReaches(g, w', src, v, |w'| - 1);
      }
    }
  }

  /** path_dist(i, j): the distance, where the model puts 0 for a pair the
      search does not connect. */
  function Hops(g: BoolMatrix, i: nat, j: nat): nat
    requires Square(g) && i < |g| && j < |g|
  {
    match Distance(g, i, j)
    case Some(d) => d
    case None => 0
  }

  function Max(a: nat, b: nat): nat { if a >= b then a else b }

  /** The largest of Hops(g, i, 0..j-1), or 0. */
  function MaxRow(g: BoolMatrix, i: nat, j: nat): nat
    requires Square(g) && i < |g| && j <= |g|
  {
    if j == 0 then 0 else Max(MaxRow(g, i, j - 1), Hops(g, i, j - 1))
  }

  /** The largest entry in the first i rows, or 0. */
  function MaxUpTo(g: BoolMatrix, i: nat): nat
    requires Square(g) && i <= |g|
  {
    if i == 0 then 0 else Max(MaxUpTo(g, i - 1), MaxRow(g, i - 1, |g|))
  }

  /** maxCoeff of the distance table. */
  function LongestPath(g: BoolMatrix): nat
    requires Square(g)
  {
    MaxUpTo(g, |g|)
  }

  lemma {:induction false} MaxRowBounds(g: BoolMatrix, i: nat, j: nat) returns (b: nat)
    requires Square(g) && i < |g| && 0 < j <= |g|
    ensures forall c :: 0 <= c < j ==> Hops(g, i, c) <= MaxRow(g, i, j)
    ensures b < j && Hops(g, i, b) == MaxRow(g, i, j)
  {
    if j == 1 {
      b := 0;
    } else {
      var b' := MaxRowBounds(g, i, j - 1);
      b := if Hops(g, i, j - 1) >= MaxRow(g, i, j - 1) then j - 1 else b';
    }
  }

  lemma {:induction false} HopsAtMostMaxUpTo(g: BoolMatrix, i: nat, r: nat, c: nat)
    requires Square(g) && r < i <= |g| && c < |g|
    ensures Hops(g, r, c) <= MaxUpTo(g, i)
  {
    if r == i - 1 {
      var _ := MaxRowBounds(g, r, |g|);
    } else {
      HopsAtMostMaxUpTo(g, i - 1, r, c);
    }
  }

  lemma {:induction false} MaxUpToAttained(g: BoolMatrix, i: nat) returns (a: nat, b: nat)
    requires Square(g) && 0 < i <= |g|
    ensures a < i && b < |g| && Hops(g, a, b) == MaxUpTo(g, i)
  {
    var b' := MaxRowBounds(g, i - 1, |g|);
    if i == 1 {
      a, b := 0, b';
    } else {
      var a2, b2 := MaxUpToAttained(g, i - 1);
      if MaxRow(g, i - 1, |g|) >= MaxUpTo(g, i - 1) {
        a, b := i - 1, b';
      } else {
        a, b := a2, b2;
      }
    }
  }

  /** The longest path bounds every neighbour-to-neighbour distance and is
      one of them. */
  lemma LongestPathIsMax(g: BoolMatrix) returns (a: nat, b: nat)
    requires Square(g) && |g| > 0
    ensures forall r, c :: 0 <= r < |g| && 0 <= c < |g| ==> Hops(g, r, c) <= LongestPath(g)
    ensures a < |g| && b < |g| && Hops(g, a, b) == LongestPath(g)
  {
    forall r, c | 0 <= r < |g| && 0 <= c < |g|
      ensures Hops(g, r, c) <= LongestPath(g)
    {
      HopsAtMostMaxUpTo(g, |g|, r, c);
    }
    a, b := MaxUpToAttained(g, |g|);
  }

  // ---------------------------------------------------------------------
  // The triplet

  function TripletOf(m: BoolMatrix, atid: nat): (t: Triplet)
    requires Square(m) && atid < |m|
  {
    var ids := Neighbours(m, atid);
    Triplet(|ids|, EdgeCount(m, ids), if ids == [] then 0 else LongestPath(Subgraph(m, ids)))
  }

  /** What a triplet says about atom atid: the neighbours are exactly the rows
      linked to it, the edge count fits the neighbour count, an atom without
      neighbours has path length 0, and otherwise the path length is the
      largest distance between two neighbours. */
  lemma TripletFacts(m: BoolMatrix, atid: nat)
    requires Square(m) && atid < |m|
    ensures var t := TripletOf(m, atid);
      && t.nrNeighbors == |Neighbours(m, atid)|
      && 2 * t.nrNeighborEdges <= t.nrNeighbors * (t.nrNeighbors - 1)
      && (t.nrNeighbors == 0 ==> t.longestPath == 0)
    ensures var ids := Neighbours(m, atid);
      && Increasing(ids)
      && (forall i :: 0 <= i < |m| ==> (m[i][atid] <==> i in ids))
    ensures var ids := Neighbours(m, atid); var g := Subgraph(m, ids);
      forall r, c :: 0 <= r < |ids| && 0 <= c < |ids| ==> Hops(g, r, c) <= TripletOf(m, atid).longestPath
  {
    var ids := Neighbours(m, atid);
    NeighboursSpec(m, atid);
    EdgeCountBound(m, ids);
    if ids != [] {
      var _, _ := LongestPathIsMax(Subgraph(m, ids));
    }
  }

  /** The edge-adding loop of the constructor has added the pair (a, b). */
  predicate Added(i: nat, j: nat, a: nat, b: nat)
  {
    var lo := if a < b then a else b;
    var hi := if a < b then b else a;
    lo < i || (lo == i && hi < j)
  }

  /** The constructor of CNATriplet: collects the neighbours, adds an edge per
      linked neighbour pair while counting them, runs a shortest-path search
      from every neighbour and takes the largest distance. */
  method MakeTriplet(m: BoolMatrix, atid: nat) returns (t: Triplet)
    requires Square(m) && atid < |m|
    ensures t == TripletOf(m, atid)
  {
    var ids, nrNeighbors := CollectNeighbours(m, atid);
    var g, nrEdges := BuildNeighbourGraph(m, ids);
    if nrNeighbors == 0 {
      return Triplet(nrNeighbors, nrEdges, 0);
    }
    var longest := LongestDistance(g);
    t := Triplet(nrNeighbors, nrEdges, longest);
  }

  /** identify neighbours: the rows linked to atid, in increasing order. */
  method CollectNeighbours(m: BoolMatrix, atid: nat) returns (ids: seq<nat>, nrNeighbors: nat)
    requires Square(m) && atid < |m|
    ensures ids == Neighbours(m, atid) && nrNeighbors == |ids|
  {
    ids := [];
    nrNeighbors := 0;
    for i := 0 to |m|
      invariant ids == NeighboursBelow(m, atid, i) && nrNeighbors == |ids|
    {
      if m[i][atid] {
        ids := ids + [i];
        nrNeighbors := nrNeighbors + 1;
      }
    }
  }

  /** The graph on the neighbours, one edge per linked pair, and its edge
      count. */
  method BuildNeighbourGraph(m: BoolMatrix, ids: seq<nat>) returns (g: BoolMatrix, nrEdges: nat)
    requires Among(m, ids)
    ensures g == Subgraph(m, ids) && nrEdges == EdgeCount(m, ids)
  {
    var k := |ids|;
    g := seq(k, _ => seq(k, _ => false));
    nrEdges := 0;
    for i := 0 to k
      invariant |g| == k && Square(g)
      invariant forall a, b :: 0 <= a < k && 0 <= b < k ==>
        g[a][b] == (Linked(m, ids, a, b) && Added(i, i + 1, a, b))
      invariant nrEdges == EdgesBelow(m, ids, i)
    {
      for j := i + 1 to k
        invariant |g| == k && Square(g)
        invariant forall a, b :: 0 <= a < k && 0 <= b < k ==>
          g[a][b] == (Linked(m, ids, a, b) && Added(i, j, a, b))
        invariant nrEdges == EdgesBelow(m, ids, i) + RowEdges(m, ids, i, j)
      {
        if m[ids[i]][ids[j]] {
          g := g[i := g[i][j := true]];
          g := g[j := g[j][i := true]];
          nrEdges := nrEdges + 1;
        }
      }
    }
    assert forall a :: 0 <= a < k ==> g[a] == Subgraph(m, ids)[a];
  }

  /** All shortest distances in a table, then their maximum. */
  method LongestDistance(g: BoolMatrix) returns (longest: nat)
    requires Square(g) && |g| > 0
    ensures longest == LongestPath(g)
  {
    var k := |g|;
    var pathDist := new nat[k, k]((_, _) => 0);
    for i := 0 to k
      invariant forall r, c :: 0 <= r < i && 0 <= c < k ==> pathDist[r, c] == Hops(g, r, c)
    {
      for j := 0 to k
        invariant forall r, c :: 0 <= r < i && 0 <= c < k ==> pathDist[r, c] == Hops(g, r, c)
        invariant forall c :: 0 <= c < j ==> pathDist[i, c] == Hops(g, i, c)
      {
        pathDist[i, j] := Hops(g, i, j);
      }
    }
    longest := 0;
    for i := 0 to k
      invariant longest == MaxUpTo(g, i)
    {
      var rowMax := 0;
      for j := 0 to k
        invariant rowMax == MaxRow(g, i, j)
      {
        rowMax := Max(rowMax, pathDist[i, j]);
      }
      longest := Max(longest, rowMax);
    }
  }

  /** get_str: "(n,e,l)" with the three counts in decimal. */
  function TripletStr(t: Triplet): string
  {
    ['('] + (NatToString(t.nrNeighbors) + ([','] + (NatToString(t.nrNeighborEdges)
      + ([','] + (NatToString(t.longestPath) + [')'])))))
  }

  /** operator<<: "{n,e,l}" with the same three counts. */
  function TripletBraces(t: Triplet): string
  {
    ['{'] + (NatToString(t.nrNeighbors) + ([','] + (NatToString(t.nrNeighborEdges)
      + ([','] + (NatToString(t.longestPath) + ['}'])))))
  }

  /** The two renderings differ only in their brackets, and distinct triplets
      have distinct strings. */
  lemma TripletStrings(t: Triplet, u: Triplet)
    ensures |TripletStr(t)| == |TripletBraces(t)|
    ensures TripletBraces(t) == ['{'] + TripletStr(t)[1..|TripletStr(t)| - 1] + ['}']
    ensures TripletStr(t) == TripletStr(u) ==> t == u
  {
    if TripletStr(t) == TripletStr(u) {
      TripletStrInjective(t, u);
    }
  }

  lemma TripletStrInjective(t: Triplet, u: Triplet)
    requires TripletStr(t) == TripletStr(u)
    ensures t == u
  {
    var s := TripletStr(t);
    var n1, n2 := NatToString(t.nrNeighbors), NatToString(u.nrNeighbors);
    var e1, e2 := NatToString(t.nrNeighborEdges), NatToString(u.nrNeighborEdges);
    var l1, l2 := NatToString(t.longestPath), NatToString(u.longestPath);
    CommaSplit(n1, e1 + ([','] + (l1 + [')'])), n2, e2 + ([','] + (l2 + [')'])), s[1..]);
    CommaSplit(e1, l1 + [')'], e2, l2 + [')'], (e1 + ([','] + (l1 + [')']))));
    assert l1 == l2 by {
      assert l1 + [')'] == l2 + [')'];
      assert l1 == (l1 + [')'])[..|l1 + [')']| - 1];
      assert l2 == (l2 + [')'])[..|l2 + [')']| - 1];
    }
    NatToStringInjective(t.nrNeighbors, u.nrNeighbors);
    NatToStringInjective(t.nrNeighborEdges, u.nrNeighborEdges);
    NatToStringInjective(t.longestPath, u.longestPath);
  }

  /** Two digit runs followed by a comma split a string at the same place. */
  lemma CommaSplit(a: string, x: string, b: string, y: string, s: string)
    requires AllDigits(a) && AllDigits(b)
    requires s == a + ([','] + x) && s == b + ([','] + y)
    ensures a == b && x == y
  {
    TakeUntilOfClean(a, [','] + x, NotDigit);
    TakeUntilOfClean(b, [','] + y, NotDigit);
    assert x == s[|a| + 1..] && y == s[|b| + 1..];
  }
}
