/** Common neighbour analysis (src/cna.cpp): for every atom of the unit cell,
    the neighbours closer than a cutoff, the adjacency matrix among those
    neighbours, and the fingerprint string that counts the distinct triplets of
    its rows. The std::map<std::string, int, std::greater> that counts the
    triplets is an association list kept in strictly descending key order. */
module CommonNeighbour {
  import opened Wrappers
  import opened Text
  import opened Validators
  import opened CnaTriplet
  import opened StateModel
  import PatternLibrary

  // ---------------------------------------------------------------------
  // Counting triplet strings

  type Counts = seq<(string, nat)>

  /** std::greater: every key is larger than the keys after it. */
  predicate Descending(c: Counts)
  {
    forall a, b :: 0 <= a < b < |c| ==> Less(c[b].0, c[a].0)
  }

  predicate Below(c: Counts, top: string)
  {
    forall i :: 0 <= i < |c| ==> Less(c[i].0, top)
  }

  predicate Positive(c: Counts)
  {
    forall i :: 0 <= i < |c| ==> c[i].1 >= 1
  }

  /** The keys of c all occur in keys. */
  predicate KeysFrom(c: Counts, keys: seq<string>)
  {
    forall i :: 0 <= i < |c| ==> c[i].0 in keys
  }

  /** The count c holds for x (zero when x is absent). */
  function CountOf(c: Counts, x: string): nat
  {
    if c == [] then 0 else (if c[0].0 == x then c[0].1 else 0) + CountOf(c[1..], x)
  }

  /** The sum of all counts. */
  function Total(c: Counts): nat
  {
    if c == [] then 0 else c[0].1 + Total(c[1..])
  }

  /** map.find(key): on a hit the count goes up by one, otherwise
      map.emplace(key, 1) puts key in its place in the order. */
  function Bump(c: Counts, key: string): Counts
  {
    if c == [] then [(key, 1)]
    else if c[0].0 == key then [(key, c[0].1 + 1)] + c[1..]
    else if Less(c[0].0, key) then [(key, 1)] + c
    else [c[0]] + Bump(c[1..], key)
  }

  /** The counting loop: one bump per key, in order. */
  function Tally(keys: seq<string>): Counts
  {
    if keys == [] then [] else Bump(Tally(keys[..|keys| - 1]), keys[|keys| - 1])
  }

  lemma {:induction false} BumpBelow(c: Counts, key: string, top: string)
    requires Below(c, top) && Less(key, top)
    ensures Below(Bump(c, key), top)
  {
    if c != [] && c[0].0 != key && !Less(c[0].0, key) {
      BumpBelow(c[1..], key, top);
    }
  }

  lemma {:induction false} BumpDescending(c: Counts, key: string)
    requires Descending(c)
    ensures Descending(Bump(c, key))
  {
    if c == [] {
    } else if c[0].0 == key {
      assert forall i :: 0 <= i < |c| ==> Bump(c, key)[i].0 == c[i].0;
    } else if Less(c[0].0, key) {
      var r := Bump(c, key);
      forall a, b | 0 <= a < b < |r|
        ensures Less(r[b].0, r[a].0)
      {
        if a == 0 && b > 1 {
          LessTransitive(c[b - 1].0, c[0].0, key);
        }
      }
    } else {
      LessTotal(c[0].0, key);
      BumpDescending(c[1..], key);
      BumpBelow(c[1..], key, c[0].0);
    }
  }

  lemma {:induction false} BumpCount(c: Counts, key: string, x: string)
    ensures CountOf(Bump(c, key), x) == CountOf(c, x) + (if x == key then 1 else 0)
  {
    if c != [] {
      if c[0].0 == key {
        assert Bump(c, key)[1..] == c[1..];
      } else if Less(c[0].0, key) {
        assert Bump(c, key)[1..] == c;
      } else {
        BumpCount(c[1..], key, x);
        assert Bump(c, key)[1..] == Bump(c[1..], key);
      }
    }
  }

  lemma {:induction false} BumpTotal(c: Counts, key: string)
    ensures Total(Bump(c, key)) == Total(c) + 1
  {
    if c != [] {
      if c[0].0 == key {
        assert Bump(c, key)[1..] == c[1..];
      } else if Less(c[0].0, key) {
        assert Bump(c, key)[1..] == c;
      } else {
        BumpTotal(c[1..], key);
        assert Bump(c, key)[1..] == Bump(c[1..], key);
      }
    }
  }

  lemma {:induction false} BumpKeeps(c: Counts, key: string, keys: seq<string>)
    requires Positive(c) && KeysFrom(c, keys) && key in keys
    ensures Positive(Bump(c, key)) && KeysFrom(Bump(c, key), keys)
  {
    if c != [] && c[0].0 != key && !Less(c[0].0, key) {
      BumpKeeps(c[1..], key, keys);
    }
  }

  /** The count table after the loop: keys strictly descending, each count at
      least one and equal to the number of times its key occurs, the counts
      summing to the number of keys, and no key that did not occur. */
  lemma {:induction false} TallyFacts(keys: seq<string>)
    ensures Descending(Tally(keys)) && Positive(Tally(keys)) && KeysFrom(Tally(keys), keys)
    ensures Total(Tally(keys)) == |keys|
    ensures forall x :: CountOf(Tally(keys), x) == multiset(keys)[x]
  {
    if keys != [] {
      var front, last := keys[..|keys| - 1], keys[|keys| - 1];
      TallyFacts(front);
      var c := Tally(front);
      BumpDescending(c, last);
      BumpTotal(c, last);
      assert keys == front + [last];
      assert KeysFrom(c, keys);
      BumpKeeps(c, last, keys);
      forall x
        ensures CountOf(Tally(keys), x) == multiset(keys)[x]
      {
        BumpCount(c, last, x);
      }
    }
  }

  lemma {:induction false} CountOfAbsent(c: Counts, x: string)
    requires forall i :: 0 <= i < |c| ==> c[i].0 != x
    ensures CountOf(c, x) == 0
  {
    if c != [] {
      CountOfAbsent(c[1..], x);
    }
  }

  lemma {:induction false} CountOfEntry(c: Counts, i: nat)
    requires Descending(c) && i < |c|
    ensures CountOf(c, c[i].0) == c[i].1
  {
    var x := c[i].0;
    if i == 0 {
      forall k | 0 <= k < |c[1..]|
        ensures c[1..][k].0 != x
      {
        LessIrreflexive(x);
      }
      CountOfAbsent(c[1..], x);
    } else {
      LessIrreflexive(x);
      CountOfEntry(c[1..], i - 1);
    }
  }

  lemma {:induction false} CountOfPresent(c: Counts, x: string) returns (i: nat)
    requires CountOf(c, x) > 0
    ensures i < |c| && c[i].0 == x
  {
    if c[0].0 != x {
      var j := CountOfPresent(c[1..], x);
      i := j + 1;
    } else {
      i := 0;
    }
  }

  /** Every entry of the table counts its key exactly, and every key occurs
      in exactly one entry. */
  lemma TallyEntries(keys: seq<string>, x: string)
    ensures var c := Tally(keys);
      forall i :: 0 <= i < |c| ==> c[i].1 == multiset(keys)[c[i].0] >= 1
    ensures var c := Tally(keys);
      x in keys <==> exists i :: 0 <= i < |c| && c[i].0 == x
  {
    var c := Tally(keys);
    TallyFacts(keys);
    forall i | 0 <= i < |c|
      ensures c[i].1 == multiset(keys)[c[i].0]
    {
      CountOfEntry(c, i);
    }
    if x in keys {
      var _ := CountOfPresent(c, x);
    }
  }

  // ---------------------------------------------------------------------
  // The fingerprint string

  /** The stringstream loop: each count in decimal followed by its key. */
  function FingerprintText(c: Counts): string
  {
    if c == [] then "" else NatToString(c[0].1) + c[0].0 + FingerprintText(c[1..])
  }

  lemma {:induction false} FingerprintTextSnoc(c: Counts, e: (string, nat))
    ensures FingerprintText(c + [e]) == FingerprintText(c) + (NatToString(e.1) + e.0)
  {
    if c != [] {
      assert (c + [e])[1..] == c[1..] + [e];
      FingerprintTextSnoc(c[1..], e);
    }
  }

  /** The triplet strings of the rows of am, one per row. */
  function RowKeys(am: BoolMatrix): (keys: seq<string>)
    requires Square(am)
    ensures |keys| == |am|
  {
    seq(|am|, i requires 0 <= i < |am| => TripletStr(TripletOf(am, i)))
  }

  /** calculate_fingerprint_from_adjacency_matrix. */
  function Fingerprint(am: BoolMatrix): string
    requires Square(am)
  {
    FingerprintText(Tally(RowKeys(am)))
  }

  /** A count table over triplet strings renders as a sequence of
      well-formed fingerprint groups. */
  lemma {:induction false} GroupsOf(c: Counts, am: BoolMatrix) returns (gs: seq<Group>)
    requires Square(am) && Positive(c) && KeysFrom(c, RowKeys(am))
    ensures AllWellFormed(Intended, gs) && Render(gs) == FingerprintText(c)
  {
    if c == [] {
      gs := [];
    } else {
      var rest := GroupsOf(c[1..], am);
      var r :| 0 <= r < |am| && RowKeys(am)[r] == c[0].0;
      var g := GroupOfTriplet(c[0].1, TripletOf(am, r));
      gs := [g] + rest;
      assert gs[1..] == rest;
    }
  }

  /** The group of one table entry: its count, then the triplet's three
      numbers. */
  lemma GroupOfTriplet(count: nat, t: Triplet) returns (g: Group)
    requires count >= 1
    ensures WellFormed(Intended, g) && GroupText(g) == NatToString(count) + TripletStr(t)
  {
    g := Group(NatToString(count), NatToString(t.nrNeighbors),
               NatToString(t.nrNeighborEdges), NatToString(t.longestPath));
  }

  /** Every fingerprint the analysis produces is a well-formed fingerprint:
      groups "count(n,e,l)" with a decimal count without a leading zero. */
  lemma FingerprintWellFormed(am: BoolMatrix)
    requires Square(am)
    ensures IsValidPatternIntended(Fingerprint(am))
  {
    TallyFacts(RowKeys(am));
    var gs := GroupsOf(Tally(RowKeys(am)), am);
    ParseFingerprintComplete(Intended, gs);
  }

  /** Counting the smaller of two keys again. */
  lemma BumpSecond(b: string, n: nat, a: string, m: nat)
    requires b != a && !Less(b, a)
    ensures Bump([(b, n), (a, m)], a) == [(b, n), (a, m + 1)]
  {
    assert [(b, n), (a, m)][1..] == [(a, m)];
  }

  /** One more key is one more bump. */
  lemma TallySnoc(keys: seq<string>, k: string)
    ensures Tally(keys + [k]) == Bump(Tally(keys), k)
  {
    assert (keys + [k])[..|keys|] == keys;
  }

  /** Counting the larger of two keys again. */
  lemma BumpFirst(b: string, n: nat, a: string, m: nat)
    ensures Bump([(b, n), (a, m)], b) == [(b, n + 1), (a, m)]
  {
    assert [(b, n), (a, m)][1..] == [(a, m)];
  }

  /** The two triplet strings of the sample, in std::string order. */
  lemma SampleKeysOrdered(a: string, b: string)
    requires a == "(3,1,1)" && b == "(4,2,1)"
    ensures Less(a, b) && !Less(b, a) && a != b
  {
    assert Less(a[1..], b[1..]);
    assert a[1] != b[1];
  }

  /** The counting loop over the sample's row keys, for any two keys in
      that order. */
  lemma SampleTally(a: string, b: string, keys: seq<string>)
    requires Less(a, b) && !Less(b, a) && a != b
    requires keys == [a, b, a, a, b, a, a, b, a]
    ensures Tally(keys) == [(b, 3), (a, 6)]
  {
    var k1: seq<string> := [a];
    assert Tally(k1) == [(a, 1)] by {
      TallySnoc([], a);
      assert [] + [a] == k1;
    }
    var k2 := k1 + [b];
    assert Tally(k2) == [(b, 1), (a, 1)] by {
      TallySnoc(k1, b);
    }
    var k3 := k2 + [a];
    assert Tally(k3) == [(b, 1), (a, 2)] by {
      TallySnoc(k2, a);
      BumpSecond(b, 1, a, 1);
    }
    var k4 := k3 + [a];
    assert Tally(k4) == [(b, 1), (a, 3)] by {
      TallySnoc(k3, a);
      BumpSecond(b, 1, a, 2);
    }
    var k5 := k4 + [b];
    assert Tally(k5) == [(b, 2), (a, 3)] by {
      TallySnoc(k4, b);
      BumpFirst(b, 1, a, 3);
    }
    var k6 := k5 + [a];
    assert Tally(k6) == [(b, 2), (a, 4)] by {
      TallySnoc(k5, a);
      BumpSecond(b, 2, a, 3);
    }
    var k7 := k6 + [a];
    assert Tally(k7) == [(b, 2), (a, 5)] by {
      TallySnoc(k6, a);
      BumpSecond(b, 2, a, 4);
    }
    var k8 := k7 + [b];
    assert Tally(k8) == [(b, 3), (a, 5)] by {
      TallySnoc(k7, b);
      BumpFirst(b, 2, a, 5);
    }
    var k9 := k8 + [a];
    assert Tally(k9) == [(b, 3), (a, 6)] by {
      TallySnoc(k8, a);
      BumpSecond(b, 3, a, 5);
    }
    assert k9 == keys;
  }

  /** The fingerprint expected for the atoms at the edge of the POSCAR test
      geometry: six rows with triplet (3,1,1) and three with (4,2,1), written
      largest key first. */
  lemma SampleFingerprint()
    ensures FingerprintText(Tally(["(3,1,1)", "(4,2,1)", "(3,1,1)", "(3,1,1)", "(4,2,1)",
                                   "(3,1,1)", "(3,1,1)", "(4,2,1)", "(3,1,1)"]))
            == "3(4,2,1)6(3,1,1)"
  {
    var a, b := "(3,1,1)", "(4,2,1)";
    SampleKeysOrdered(a, b);
    SampleTally(a, b, [a, b, a, a, b, a, a, b, a]);
    TwoGroupText(b, 3, a, 6);
    assert NatToString(3) == "3" && NatToString(6) == "6";
    assert "3" + b + "6" + a == "3(4,2,1)6(3,1,1)";
  }

  /** The text of a two-entry table. */
  lemma TwoGroupText(b: string, n: nat, a: string, m: nat)
    ensures FingerprintText([(b, n), (a, m)]) == NatToString(n) + b + NatToString(m) + a
  {
    var c: Counts := [(b, n), (a, m)];
    var rest: Counts := [(a, m)];
    assert c[1..] == rest && rest[1..] == [];
    assert FingerprintText(rest) == NatToString(m) + a;
    assert FingerprintText(c) == NatToString(n) + b + FingerprintText(rest);
  }

  /** calculate_fingerprint_from_adjacency_matrix: one triplet per row, the
      counting loop over the triplet strings, then each count followed by its
      triplet string in descending string order. */
  method FingerprintFromAdjacency(am: BoolMatrix) returns (fp: string)
    requires Square(am)
    ensures fp == Fingerprint(am)
    ensures |am| == 0 ==> fp == ""
  {
    var triplets := RowTriplets(am);
    var counts := CountTriplets(triplets, RowKeys(am));
    fp := WriteCounts(counts);
  }

  /** One CNATriplet per row of the adjacency matrix. */
  method RowTriplets(am: BoolMatrix) returns (triplets: seq<Triplet>)
    requires Square(am)
    ensures |triplets| == |am|
    ensures forall k :: 0 <= k < |am| ==> triplets[k] == TripletOf(am, k)
  {
    triplets := [];
    for i := 0 to |am|
      invariant |triplets| == i
      invariant forall k :: 0 <= k < i ==> triplets[k] == TripletOf(am, k)
    {
      var t := MakeTriplet(am, i);
      triplets := triplets + [t];
    }
  }

  /** The counting loop: the std::map from triplet string to count. */
  method CountTriplets(triplets: seq<Triplet>, ghost keys: seq<string>) returns (counts: Counts)
    requires |keys| == |triplets| && forall k :: 0 <= k < |keys| ==> keys[k] == TripletStr(triplets[k])
    ensures counts == Tally(keys)
  {
    counts := [];
    for k := 0 to |triplets|
      invariant counts == Tally(keys[..k])
    {
      assert keys[..k + 1][..k] == keys[..k];
      counts := Bump(counts, TripletStr(triplets[k]));
    }
    assert keys[..|triplets|] == keys;
  }

  /** The stringstream loop over the counts, in the order of the table. */
  method WriteCounts(counts: Counts) returns (fp: string)
    ensures fp == FingerprintText(counts)
  {
    fp := "";
    for k := 0 to |counts|
      invariant fp == FingerprintText(counts[..k])
    {
      FingerprintTextSnoc(counts[..k], counts[k]);
      assert counts[..k + 1] == counts[..k] + [counts[k]];
      fp := fp + NatToString(counts[k].1) + counts[k].0;
    }
    assert counts[..|counts|] == counts;
  }

  // ---------------------------------------------------------------------
  // Neighbours and the adjacency matrix

  /** The indices i < n, other than atid, whose distance to atid is below the
      cutoff, in increasing order. */
  function CutoffNeighbours(row: seq<real>, atid: nat, n: nat, cutoff: real): (ids: seq<nat>)
    requires n <= |row|
    ensures forall k :: 0 <= k < |ids| ==> ids[k] < n
  {
    if n == 0 then [] else
    var last := if n - 1 != atid && row[n - 1] < cutoff then [n - 1] else [];
    CutoffNeighbours(row, atid, n - 1, cutoff) + last
  }

  /** The neighbours are exactly the other atoms strictly closer than the
      cutoff, each once, in increasing order. */
  lemma {:induction false} CutoffNeighboursSpec(row: seq<real>, atid: nat, n: nat, cutoff: real)
    requires n <= |row|
    ensures Increasing(CutoffNeighbours(row, atid, n, cutoff))
    ensures forall i :: 0 <= i < n ==>
      (i in CutoffNeighbours(row, atid, n, cutoff) <==> i != atid && row[i] < cutoff)
  {
    if n > 0 {
      CutoffNeighboursSpec(row, atid, n - 1, cutoff);
    }
  }

  predicate IsSquare(d: seq<seq<real>>, dd: nat)
  {
    |d| == dd && forall i :: 0 <= i < dd ==> |d[i]| == dd
  }

  predicate InRange(ids: seq<nat>, dd: nat)
  {
    forall k :: 0 <= k < |ids| ==> ids[k] < dd
  }

  /** Entry (a, b) of the adjacency matrix: off the diagonal, whether the
      distance between the two neighbours, read with the lower position first,
      is below the cutoff. */
  function AdjacencyEntry(d: seq<seq<real>>, ids: seq<nat>, cutoff: real, a: nat, b: nat): bool
    requires IsSquare(d, |d|) && InRange(ids, |d|) && a < |ids| && b < |ids|
  {
    a != b && (if a < b then d[ids[a]][ids[b]] else d[ids[b]][ids[a]]) < cutoff
  }

  function Adjacency(d: seq<seq<real>>, ids: seq<nat>, cutoff: real): (am: BoolMatrix)
    requires IsSquare(d, |d|) && InRange(ids, |d|)
    ensures |am| == |ids| && Square(am)
  {
    seq(|ids|, a requires 0 <= a < |ids| =>
      seq(|ids|, b requires 0 <= b < |ids| => AdjacencyEntry(d, ids, cutoff, a, b)))
  }

  /** The adjacency matrix is symmetric with a false diagonal; for a
      symmetric distance matrix, neighbours a and b are adjacent exactly when
      they are closer than the cutoff. */
  lemma AdjacencyShape(d: seq<seq<real>>, ids: seq<nat>, cutoff: real)
    requires IsSquare(d, |d|) && InRange(ids, |d|)
    ensures var am := Adjacency(d, ids, cutoff);
      forall a, b :: 0 <= a < |ids| && 0 <= b < |ids| ==> am[a][b] == am[b][a]
    ensures var am := Adjacency(d, ids, cutoff);
      forall a :: 0 <= a < |ids| ==> !am[a][a]
    ensures (forall i, j :: 0 <= i < |d| && 0 <= j < |d| ==> d[i][j] == d[j][i]) ==>
      var am := Adjacency(d, ids, cutoff);
      forall a, b :: 0 <= a < |ids| && 0 <= b < |ids| ==>
        (am[a][b] <==> a != b && d[ids[a]][ids[b]] < cutoff)
  {
  }

  /** The neighbours of atom atid and its adjacency matrix. */
  function AtomAdjacency(d: seq<seq<real>>, atid: nat, cutoff: real): BoolMatrix
    requires IsSquare(d, |d|) && atid < |d|
  {
    Adjacency(d, CutoffNeighbours(d[atid], atid, |d|, cutoff), cutoff)
  }

  /** The fingerprint of atom atid. */
  function AtomFingerprint(d: seq<seq<real>>, atid: nat, cutoff: real): string
    requires IsSquare(d, |d|) && atid < |d|
  {
    Fingerprint(AtomAdjacency(d, atid, cutoff))
  }

  /** The fill loop of construct_adjancy_matrix: entry (i, j), i <= j, and its
      mirror, row by row. */
  method FillAdjacency(d: seq<seq<real>>, ids: seq<nat>, cutoff: real) returns (am: BoolMatrix)
    requires IsSquare(d, |d|) && InRange(ids, |d|)
    ensures am == Adjacency(d, ids, cutoff)
  {
    var k := |ids|;
    am := seq(k, _ => seq(k, _ => false));
    for i := 0 to k
      invariant |am| == k && forall a :: 0 <= a < k ==> |am[a]| == k
      invariant forall a, b :: 0 <= a < k && 0 <= b < k && Added(i, i, a, b) ==>
        am[a][b] == AdjacencyEntry(d, ids, cutoff, a, b)
    {
      for j := i to k
        invariant |am| == k && forall a :: 0 <= a < k ==> |am[a]| == k
        invariant forall a, b :: 0 <= a < k && 0 <= b < k && Added(i, j, a, b) ==>
          am[a][b] == AdjacencyEntry(d, ids, cutoff, a, b)
      {
        if i == j {
          am := am[i := am[i][j := false]];
          continue;
        }
        var id1 := ids[i];
        var id2 := ids[j];
        var linked := d[id1][id2] < cutoff;
        am := am[i := am[i][j := linked]];
        am := am[j := am[j][i := linked]];
      }
    }
    forall a | 0 <= a < k
      ensures am[a] == Adjacency(d, ids, cutoff)[a]
    {
      assert forall b :: 0 <= b < k ==> Added(k, k, a, b);
    }
  }

  /** CNA: the distance matrix of the state under analysis, the neighbour
      list, adjacency matrix and fingerprint of every unit-cell atom. */
  class CNA {
    var pl: PatternLibrary.Library
    var state: State?
    var distances: seq<seq<real>>
    var neighborIds: seq<seq<nat>>
    var adjacencyMatrices: seq<BoolMatrix>
    var fingerprints: seq<string>

    constructor (pl: PatternLibrary.Library)
      ensures this.pl == pl && state == null
      ensures distances == [] && neighborIds == [] && adjacencyMatrices == [] && fingerprints == []
    {
      this.pl := pl;
      state := null;
      distances := [];
      neighborIds := [];
      adjacencyMatrices := [];
      fingerprints := [];
    }

    /** construct_adjancy_matrix: appends the neighbours of atid to its
        neighbour list and builds the adjacency matrix of that list. The scan
        runs to the size of the distance matrix the state selected. */
    method ConstructAdjacencyMatrix(atid: nat, cutoff: real) returns (am: BoolMatrix)
      requires state != null && state.Ready() && distances == state.distances
      requires atid < |neighborIds| && atid < |distances|
      requires InRange(neighborIds[atid], |distances|)
      modifies this`neighborIds
      ensures var dd := MatrixSize(|state.atoms|, |state.atomsSupercell|, state.periodic);
        && dd == |distances|
        && neighborIds == old(neighborIds)[atid := old(neighborIds[atid]) + CutoffNeighbours(distances[atid], atid, dd, cutoff)]
        && InRange(neighborIds[atid], dd)
        && am == Adjacency(distances, neighborIds[atid], cutoff)
    {
      var dd := |state.atomsSupercell|;
      if dd > MaxSizeAtomsUnitcell || !state.periodic {
        dd := |state.atoms|;
      }
      var found: seq<nat> := [];
      for i := 0 to dd
        invariant found == CutoffNeighbours(distances[atid], atid, i, cutoff)
      {
        if i == atid {
          continue;
        }
        if distances[atid][i] < cutoff {
          found := found + [i];
        }
      }
      neighborIds := neighborIds[atid := neighborIds[atid] + found];
      am := FillAdjacency(distances, neighborIds[atid], cutoff);
    }

    /** calculate_fingerprint with the cutoff given: the adjacency matrix of
        atid is stored and its fingerprint returned. */
    method CalculateFingerprint(atid: nat, cutoff: real) returns (fp: string)
      requires state != null && state.Ready() && distances == state.distances
      requires atid < |neighborIds| && atid < |distances| && neighborIds[atid] == []
      requires atid < |adjacencyMatrices|
      modifies this`neighborIds, this`adjacencyMatrices
      ensures neighborIds == old(neighborIds)[atid := CutoffNeighbours(distances[atid], atid, |distances|, cutoff)]
      ensures adjacencyMatrices == old(adjacencyMatrices)[atid := AtomAdjacency(distances, atid, cutoff)]
      ensures fp == AtomFingerprint(distances, atid, cutoff)
    {
      var am := ConstructAdjacencyMatrix(atid, cutoff);
      assert neighborIds[atid] == CutoffNeighbours(distances[atid], atid, |distances|, cutoff);
      adjacencyMatrices := adjacencyMatrices[atid := am];
      fp := FingerprintFromAdjacency(am);
    }

    /** analyze: refuses a null state; otherwise clears the previous results
        and computes one fingerprint per unit-cell atom. The cutoff of each
        atom is a parameter. */
    method Analyze(st: State?, cutoff: nat -> real) returns (r: Outcome<Exception>)
      requires st != null ==> st.Ready()
      modifies this
      ensures r.Fail? <==> st == null
      ensures r.Fail? ==> r.error.RuntimeError? && unchanged(this)
      ensures r.Pass? ==>
        && st != null && state == st && distances == st.distances && pl == old(pl)
        && |fingerprints| == |st.atoms| && |neighborIds| == |st.atoms|
        && |adjacencyMatrices| == |st.atoms|
        && forall i :: 0 <= i < |st.atoms| ==>
          && neighborIds[i] == CutoffNeighbours(distances[i], i, |distances|, cutoff(i))
          && adjacencyMatrices[i] == AtomAdjacency(distances, i, cutoff(i))
          && fingerprints[i] == AtomFingerprint(distances, i, cutoff(i))
    {
      if st == null {
        return Fail(RuntimeError(NullStateError));
      }
      var n := |st.atoms|;
      distances := [];
      neighborIds := [];
      fingerprints := [];
      state := st;
      neighborIds := seq(n, _ => []);
      distances := st.distances;
      adjacencyMatrices := Resize(adjacencyMatrices, n);
      fingerprints := seq(n, _ => "");
      FingerprintAtoms(cutoff);
      return Pass;
    }

    /** The loop of analyze over the unit-cell atoms, each with its own
        cutoff. */
    method FingerprintAtoms(cutoff: nat -> real)
      requires state != null && state.Ready() && distances == state.distances
      requires |fingerprints| == |state.atoms| && |neighborIds| == |state.atoms|
      requires |adjacencyMatrices| == |state.atoms|
      requires forall k :: 0 <= k < |neighborIds| ==> neighborIds[k] == []
      modifies this`neighborIds, this`adjacencyMatrices, this`fingerprints
      ensures |fingerprints| == |state.atoms| && |neighborIds| == |state.atoms|
      ensures |adjacencyMatrices| == |state.atoms|
      ensures forall i :: 0 <= i < |state.atoms| ==>
        && neighborIds[i] == CutoffNeighbours(distances[i], i, |distances|, cutoff(i))
        && adjacencyMatrices[i] == AtomAdjacency(distances, i, cutoff(i))
        && fingerprints[i] == AtomFingerprint(distances, i, cutoff(i))
    {
      var n := |state.atoms|;
      for i := 0 to n
        invariant |fingerprints| == n && |neighborIds| == n && |adjacencyMatrices| == n
        invariant forall k :: i <= k < n ==> neighborIds[k] == []
        invariant forall k :: 0 <= k < i ==>
          && neighborIds[k] == CutoffNeighbours(distances[k], k, |distances|, cutoff(k))
          && adjacencyMatrices[k] == AtomAdjacency(distances, k, cutoff(k))
          && fingerprints[k] == AtomFingerprint(distances, k, cutoff(k))
      {
        var fp := CalculateFingerprint(i, cutoff(i));
        fingerprints := fingerprints[i := fp];
      }
    }
  }

  /** The message of the null-state exception (the line and file that follow
      it in the source are left out). */
  const NullStateError: string := "NULLPTR detected in state pointer: "

  /** std::vector::resize: keeps the first n entries and pads with empty
      matrices. */
  function Resize(v: seq<BoolMatrix>, n: nat): (r: seq<BoolMatrix>)
    ensures |r| == n
    ensures forall i :: 0 <= i < n ==> r[i] == if i < |v| then v[i] else []
  {
    if n <= |v| then v[..n] else v + seq(n - |v|, _ => [])
  }
}
