/** The permutation generator of src/permutation_generator.cpp. For a size sz it
    stores every permutation of 0..sz-1, in the order std::next_permutation
    produces them, each packed into a record of six bytes holding two 4-bit
    values per byte; it can hand out one permutation, a flat vector of all of
    them, a 0/1 exchange matrix, or a printable exchange pattern. */
module PermutationGenerator {
  import opened Wrappers
  import opened Text
  import opened Permutations

  /** The byte count of one exchange record (std::array<uint8_t, 6>). */
  const RecordBytes: nat := 6

  /** The constructor's size check as the source writes it: sz > 13 is refused. */
  predicate AcceptsAsWritten(size: nat) { !(size > 13) }

  /** The size check the six-byte record needs: sz > 12 is refused. */
  predicate Accepts(size: nat) { !(size > 12) }

  /** Every element index of a size is written to a byte inside the record. */
  predicate PacksInRecord(size: nat)
  {
    forall i :: 0 <= i < size ==> i / 2 < RecordBytes
  }

  /** Finding: the source's check lets size 13 through, and element 12 of such
      a permutation is written to byte 6 of a six-byte record. */
  lemma GuardAsWrittenAdmitsOverflow()
    ensures AcceptsAsWritten(13) && !PacksInRecord(13)
  {
    assert !(12 / 2 < RecordBytes);
  }

  /** The corrected check admits only sizes whose records fit. */
  lemma GuardFits(size: nat)
    ensures Accepts(size) <==> PacksInRecord(size)
  {
    if !Accepts(size) {
      assert !(12 / 2 < RecordBytes);
    }
  }

  predicate Nibbles(p: seq<nat>)
  {
    forall i :: 0 <= i < |p| ==> p[i] < 16
  }

  /** Byte k of the record of p: element 2k in the high four bits and element
      2k+1 in the low four bits; positions past the end of p stay zero. */
  function PackedByte(p: seq<nat>, k: nat): bv8
    requires Nibbles(p)
  {
    (if 2 * k < |p| then (p[2 * k] as bv8) << 4 else 0)
    | (if 2 * k + 1 < |p| then p[2 * k + 1] as bv8 else 0)
  }

  function Packed(p: seq<nat>): (ex: seq<bv8>)
    requires Nibbles(p)
    ensures |ex| == RecordBytes
  {
    seq(RecordBytes, k requires 0 <= k < RecordBytes => PackedByte(p, k))
  }

  /** Element i of a record: the high four bits of byte i/2 for even i, the low
      four bits for odd i. */
  function Unpacked(ex: seq<bv8>, i: nat): (v: nat)
    requires i / 2 < |ex|
    ensures v < 16
  {
    if i % 2 == 0 then (ex[i / 2] >> 4) as nat else (ex[i / 2] & 15) as nat
  }

  /** The first n elements of a record. */
  function UnpackedAll(ex: seq<bv8>, n: nat): (p: seq<nat>)
    requires |ex| == RecordBytes && n <= 2 * RecordBytes
    ensures |p| == n
  {
    seq(n, i requires 0 <= i < n => Unpacked(ex, i))
  }

  lemma NibbleRoundTrip(a: bv8, b: bv8)
    requires a < 16 && b < 16
    ensures ((a << 4) | b) >> 4 == a
    ensures ((a << 4) | b) & 15 == b
  {
  }

  /** Unpacking a packed record gives back every element of a permutation of
      up to twelve values below 16. */
  lemma {:induction false} UnpackPacked(p: seq<nat>)
    requires |p| <= 2 * RecordBytes && Nibbles(p)
    ensures UnpackedAll(Packed(p), |p|) == p
  {
    forall i | 0 <= i < |p|
      ensures Unpacked(Packed(p), i) == p[i]
    {
      UnpackedAt(p, i);
    }
  }

  lemma UnpackedAt(p: seq<nat>, i: nat)
    requires |p| <= 2 * RecordBytes && Nibbles(p) && i < |p|
    ensures Unpacked(Packed(p), i) == p[i]
  {
    var k := i / 2;
    var hi: nat := if 2 * k < |p| then p[2 * k] else 0;
    var lo: nat := if 2 * k + 1 < |p| then p[2 * k + 1] else 0;
    PackedByteOf(p, k, hi, lo);
    var x := Packed(p)[k];
    NibblesOf(hi, lo, x);
    if i % 2 == 0 {
      assert i == 2 * k;
    } else {
      assert i == 2 * k + 1;
    }
  }

  lemma PackedByteOf(p: seq<nat>, k: nat, hi: nat, lo: nat)
    requires Nibbles(p) && k < RecordBytes
    requires hi == (if 2 * k < |p| then p[2 * k] else 0)
    requires lo == (if 2 * k + 1 < |p| then p[2 * k + 1] else 0)
    ensures hi < 16 && lo < 16 && Packed(p)[k] == ((hi as bv8) << 4) | (lo as bv8)
  {
  }

  lemma NibblesOf(hi: nat, lo: nat, x: bv8)
    requires hi < 16 && lo < 16 && x == ((hi as bv8) << 4) | (lo as bv8)
    ensures (x >> 4) as nat == hi && (x & 15) as nat == lo
  {
    NibbleRoundTrip(hi as bv8, lo as bv8);
  }

  /** The inner loop of get_permutation_vector: the first n elements of a
      record, one nibble at a time. */
  method UnpackRecord(ex: seq<bv8>, n: nat) returns (r: seq<nat>)
    requires |ex| == RecordBytes && n <= 2 * RecordBytes
    ensures r == UnpackedAll(ex, n)
  {
    r := [];
    for j := 0 to n
      invariant r == UnpackedAll(ex, n)[..j]
    {
      var idx := Unpacked(ex, j);
      assert idx == UnpackedAll(ex, n)[j];
      r := r + [idx];
    }
  }

  /** Adding element i to a prefix changes only byte i/2, by OR-ing it in. */
  lemma PackedByteStep(p: seq<nat>, i: nat, k: nat)
    requires Nibbles(p) && i < |p|
    ensures Nibbles(p[..i]) && Nibbles(p[..i + 1])
    ensures PackedByte(p[..i + 1], k) ==
      if k != i / 2 then PackedByte(p[..i], k)
      else if i % 2 == 0 then PackedByte(p[..i], k) | ((p[i] as bv8) << 4)
      else PackedByte(p[..i], k) | (p[i] as bv8)
  {
    var q, q' := p[..i], p[..i + 1];
    assert forall j :: 0 <= j < i ==> q'[j] == q[j] == p[j];
    assert q'[i] == p[i];
  }

  /** The loop body of generate_permutations that fills the local record ex:
      element i is OR-ed, shifted or not, into byte i/2. */
  method Pack(myints: seq<nat>) returns (ex: seq<bv8>)
    requires |myints| <= 2 * RecordBytes && Nibbles(myints)
    ensures ex == Packed(myints)
  {
    var a := new bv8[RecordBytes](_ => 0);
    for i := 0 to |myints|
      invariant forall k :: 0 <= k < RecordBytes ==> a[k] == PackedByte(myints[..i], k)
    {
      forall k | 0 <= k < RecordBytes {
        PackedByteStep(myints, i, k);
      }
      if i % 2 == 0 {
        a[i / 2] := a[i / 2] | ((myints[i] as bv8) << 4);
      } else {
        a[i / 2] := a[i / 2] | (myints[i] as bv8);
      }
    }
    assert myints[..|myints|] == myints;
    ex := a[..];
  }

  /** All permutations written one after the other. */
  function Flatten(ps: seq<seq<nat>>): (r: seq<nat>)
  {
    if ps == [] then [] else ps[0] + Flatten(ps[1..])
  }

  lemma {:induction false} FlattenSnoc(ps: seq<seq<nat>>, p: seq<nat>)
    ensures Flatten(ps + [p]) == Flatten(ps) + p
    decreases |ps|
  {
    if ps != [] {
      assert (ps + [p])[1..] == ps[1..] + [p];
      FlattenSnoc(ps[1..], p);
    }
  }

  /** When every permutation has length n, the flat vector has |ps|·n
      entries. */
  lemma {:induction false} FlattenLength(ps: seq<seq<nat>>, n: nat)
    requires forall k :: 0 <= k < |ps| ==> |ps[k]| == n
    ensures |Flatten(ps)| == |ps| * n
    decreases |ps|
  {
    if ps != [] {
      var tail := ps[1..];
      assert forall k :: 0 <= k < |tail| ==> tail[k] == ps[k + 1];
      FlattenLength(tail, n);
      assert Flatten(ps) == ps[0] + Flatten(tail);
      MulPred(|ps|, n);
    }
  }

  lemma MulPred(m: nat, n: nat)
    requires m > 0
    ensures m * n == n + (m - 1) * n
  {
  }

  /** ... and entry pid·n + j is element j of permutation pid. */
  lemma {:induction false} FlattenIndex(ps: seq<seq<nat>>, n: nat, pid: nat, j: nat)
    requires forall k :: 0 <= k < |ps| ==> |ps[k]| == n
    requires pid < |ps| && j < n
    ensures pid * n + j < |Flatten(ps)| && Flatten(ps)[pid * n + j] == ps[pid][j]
    decreases |ps|
  {
    var tail := ps[1..];
    assert forall k :: 0 <= k < |tail| ==> tail[k] == ps[k + 1];
    FlattenLength(ps, n);
    assert Flatten(ps) == ps[0] + Flatten(tail);
    if pid > 0 {
      FlattenIndex(tail, n, pid - 1, j);
      MulPred(pid, n);
      assert pid * n + j == n + ((pid - 1) * n + j);
    }
  }

  /** The cached flat vector once it has been filled. */
  function PermVector(size: nat): seq<nat>
  {
    Flatten(Perms(size))
  }

  /** Every entry of the flat vector of a permutation generator: nr_perm·sz
      entries, and entry pid·sz + j is element j of permutation pid. */
  lemma PermVectorIndex(size: nat, pid: nat, j: nat)
    requires pid < |Perms(size)| && j < size
    ensures |PermVector(size)| == Fact(size) * size
    ensures |Perms(size)[pid]| == size && pid * size + j < |PermVector(size)|
      && PermVector(size)[pid * size + j] == Perms(size)[pid][j]
  {
    PermsFacts(size);
    forall k | 0 <= k < |Perms(size)|
      ensures |Perms(size)[k]| == size
    {
      PermEntries(size, k);
    }
    FlattenLength(Perms(size), size);
    FlattenIndex(Perms(size), size, pid, j);
  }

  /** Permutation pid is the run of sz entries starting at pid·sz. */
  lemma PermVectorSlice(size: nat, pid: nat)
    requires 1 <= size && pid < |Perms(size)|
    ensures pid * size + size <= |PermVector(size)|
    ensures PermVector(size)[pid * size .. pid * size + size] == Perms(size)[pid]
  {
    forall k | 0 <= k < |Perms(size)|
      ensures |Perms(size)[k]| == size
    {
      PermEntries(size, k);
    }
    FlattenSlice(Perms(size), size, pid);
  }

  /** When every permutation has length n, permutation pid is the run of n
      entries of the flat vector from pid·n on. */
  lemma {:induction false} FlattenSlice(ps: seq<seq<nat>>, n: nat, pid: nat)
    requires forall k :: 0 <= k < |ps| ==> |ps[k]| == n
    requires pid < |ps|
    ensures pid * n + n <= |Flatten(ps)| && Flatten(ps)[pid * n .. pid * n + n] == ps[pid]
    decreases pid
  {
    var rest := Flatten(ps[1..]);
    assert Flatten(ps) == ps[0] + rest;
    if pid > 0 {
      FlattenSlice(ps[1..], n, pid - 1);
      var b := (pid - 1) * n;
      assert pid * n == n + b;
      assert Flatten(ps)[n + b .. n + b + n] == rest[b .. b + n];
    } else {
      assert Flatten(ps)[..n] == ps[0];
    }
  }

  /** Cell (a, b) of an exchange matrix is 1 when b is the image of a or a is
      the image of b under p. */
  predicate Linked(p: seq<nat>, a: nat, b: nat)
  {
    (a < |p| && p[a] == b) || (b < |p| && p[b] == a)
  }

  /** The same, only for the positions below i. */
  predicate LinkedBelow(p: seq<nat>, i: nat, a: nat, b: nat)
  {
    (a < i && a < |p| && p[a] == b) || (b < i && b < |p| && p[b] == a)
  }

  lemma ShortNatToString(v: nat)
    ensures v < 100 ==> |NatToString(v)| <= 2
  {
    if 10 <= v < 100 {
      assert |NatToString(v / 10)| == 1;
    }
  }

  /** "%02i  ": at least two digits, zero-filled, then two blanks. */
  function Cell(v: nat): string
  {
    PadLeft(NatToString(v), 2, '0') + "  "
  }

  function Cells(vs: seq<nat>): string
  {
    if vs == [] then "" else Cells(vs[..|vs| - 1]) + Cell(vs[|vs| - 1])
  }

  /** A value below 100 takes four characters: two digits and two blanks. */
  lemma CellLength(v: nat)
    requires v < 100
    ensures |Cell(v)| == 4
  {
    ShortNatToString(v);
  }

  lemma {:induction false} CellsLength(vs: seq<nat>)
    requires forall i :: 0 <= i < |vs| ==> vs[i] < 100
    ensures |Cells(vs)| == 4 * |vs|
    decreases |vs|
  {
    if vs != [] {
      CellsLength(vs[..|vs| - 1]);
      CellLength(vs[|vs| - 1]);
    }
  }

  /** The printable exchange pattern: the positions 0..sz-1 on one line and the
      permutation below them. */
  function ExchangePattern(p: seq<nat>): string
  {
    Cells(Range(|p|)) + "\n" + Cells(p)
  }

  /** A pattern of n two-digit cells per line has 8n + 1 characters, with the
      line break right after the first line. */
  lemma ExchangePatternShape(p: seq<nat>)
    requires forall i :: 0 <= i < |p| ==> p[i] < 100
    requires |p| < 100
    ensures |ExchangePattern(p)| == 8 * |p| + 1
    ensures ExchangePattern(p)[4 * |p|] == '\n'
  {
    CellsLength(Range(|p|));
    CellsLength(p);
  }

  lemma Assoc(a: string, b: string, c: string)
    ensures a + b + c == a + (b + c)
  {
  }

  lemma CellsSnoc(vs: seq<nat>, v: nat)
    ensures Cells(vs + [v]) == Cells(vs) + Cell(v)
  {
    assert (vs + [v])[..|vs|] == vs;
  }

  /** The first line of an exchange pattern: the positions 0..n-1. */
  method WriteHeader(n: nat) returns (line: string)
    ensures line == Cells(Range(n))
  {
    line := "";
    for i := 0 to n
      invariant line == Cells(Range(n)[..i])
    {
      assert Range(n)[..i + 1] == Range(n)[..i] + [i];
      CellsSnoc(Range(n)[..i], i);
      line := line + Cell(i);
    }
    assert Range(n)[..n] == Range(n);
  }

  /** The second line of an exchange pattern: the first n elements of a
      record, read back from their nibbles. */
  method WriteRow(ex: seq<bv8>, n: nat) returns (line: string)
    requires |ex| == RecordBytes && n <= 2 * RecordBytes
    ensures line == Cells(UnpackedAll(ex, n))
  {
    ghost var p := UnpackedAll(ex, n);
    line := "";
    for i := 0 to n
      invariant line == Cells(p[..i])
    {
      assert p[..i + 1] == p[..i] + [p[i]];
      var idx := Unpacked(ex, i);
      CellsSnoc(p[..i], idx);
      line := line + Cell(idx);
    }
    assert p[..n] == p;
  }

  class Generator {
    const sz: nat
    var exchanges: seq<seq<bv8>>
    var permvec: seq<nat>

    /** Record k decodes to the k-th permutation of 0..sz-1. */
    ghost predicate Valid()
      reads this
    {
      && Accepts(sz)
      && |exchanges| == |Perms(sz)|
      && (forall k :: 0 <= k < |exchanges| ==>
            |exchanges[k]| == RecordBytes && UnpackedAll(exchanges[k], sz) == Perms(sz)[k])
      && (permvec == [] || permvec == PermVector(sz))
    }

    /** The constructor: generate the records, then fill the flat vector. */
    constructor (size: nat)
      requires Accepts(size)
      ensures sz == size && Valid()
      ensures |exchanges| == Fact(size)
      ensures permvec == PermVector(size)
    {
      sz := size;
      exchanges := [];
      permvec := [];
      new;
      GeneratePermutations();
      var _ := GetPermutationVector();
      PermsFacts(size);
    }

    /** generate_permutations: starting from 0..sz-1, packs the current
        arrangement and steps to the next one until the last has been packed.
        std::next_permutation is taken as stepping to the next entry of Perms. */
    method GeneratePermutations()
      requires Accepts(sz) && exchanges == [] && permvec == []
      modifies this`exchanges
      ensures Valid()
    {
      PermsFacts(sz);
      var all := Perms(sz);
      var k := 0;
      var myints := Range(sz);
      var more := true;
      while more
        invariant 0 <= k <= |all|
        invariant more ==> k < |all| && myints == all[k]
        invariant !more ==> k == |all|
        invariant |exchanges| == k
        invariant forall j :: 0 <= j < k ==>
          |exchanges[j]| == RecordBytes && UnpackedAll(exchanges[j], sz) == all[j]
        decreases |all| - k, more
      {
        PermEntries(sz, k);
        assert Nibbles(myints);
        var ex := Pack(myints);
        UnpackPacked(myints);
        exchanges := exchanges + [ex];
        k := k + 1;
        if k < |all| {
          myints := all[k];
        } else {
          more := false;
        }
      }
    }

    /** get_permutation_single_vector: the elements of record pid. */
    method GetPermutationSingleVector(pid: nat) returns (permutation: seq<nat>)
      requires Valid() && pid < |exchanges|
      ensures permutation == Perms(sz)[pid]
    {
      permutation := [];
      for i := 0 to sz
        invariant permutation == Perms(sz)[pid][..i]
      {
        var idx := Unpacked(exchanges[pid], i);
        assert idx == UnpackedAll(exchanges[pid], sz)[i];
        permutation := permutation + [idx];
      }
    }

    /** get_permutation_vector: a filled vector is returned as it is; an empty
        one is filled with the elements of every record, record by record. */
    method GetPermutationVector() returns (v: seq<nat>)
      requires Valid()
      modifies this`permvec
      ensures Valid()
      ensures old(permvec) != [] ==> permvec == old(permvec)
      ensures permvec == PermVector(sz) || (permvec == [] && PermVector(sz) == [])
      ensures v == permvec
    {
      if permvec != [] {
        return permvec;
      }
      ghost var all := Perms(sz);
      for i := 0 to |exchanges|
        invariant permvec == Flatten(all[..i])
      {
        var record := UnpackRecord(exchanges[i], sz);
        assert record == all[i];
        permvec := permvec + record;
        FlattenSnoc(all[..i], all[i]);
        assert all[..i + 1] == all[..i] + [all[i]];
      }
      assert all[..|exchanges|] == all;
      v := permvec;
    }

    /** get_permutation_matrix: an n×n matrix of zeros with the cells (i, p[i])
        and (p[i], i) set to 1 for every position i of permutation pid. */
    method GetPermutationMatrix(pid: nat, n: nat) returns (ans: array2<nat>)
      requires Valid() && pid < |exchanges| && sz <= n
      ensures ans.Length0 == n && ans.Length1 == n
      ensures forall a, b :: 0 <= a < n && 0 <= b < n ==>
        ans[a, b] == if Linked(Perms(sz)[pid], a, b) then 1 else 0
    {
      ghost var p := Perms(sz)[pid];
      PermEntries(sz, pid);
      ans := new nat[n, n]((_, _) => 0);
      for i := 0 to sz
        invariant forall a, b :: 0 <= a < n && 0 <= b < n ==>
          ans[a, b] == if LinkedBelow(p, i, a, b) then 1 else 0
      {
        var idx := Unpacked(exchanges[pid], i);
        assert idx == UnpackedAll(exchanges[pid], sz)[i] == p[i];
        ans[i, idx] := 1;
        ans[idx, i] := 1;
      }
    }

    /** get_exchange_pattern_str */
    method GetExchangePatternStr(pid: nat) returns (s: string)
      requires Valid() && pid < |exchanges|
      ensures s == ExchangePattern(Perms(sz)[pid])
    {
      var header := WriteHeader(sz);
      var row := WriteRow(exchanges[pid], sz);
      s := header + "\n" + row;
    }

    function NrPerm(): (n: nat)
      reads this
      requires Valid()
      ensures n == Fact(sz)
    {
      PermsFacts(sz);
      |exchanges|
    }
  }

  /** Constructing a generator: sizes above twelve raise, any other size gives
      a generator holding all sz! permutations. */
  method Create(size: nat) returns (r: Result<Generator, Exception>)
    ensures r.Err? <==> !Accepts(size)
    ensures r.Err? ==> r.error == RuntimeError("Exchange patterns larger than 12 are not allowed")
    ensures r.Ok? ==> fresh(r.value) && r.value.sz == size && r.value.Valid()
  {
    if size > 12 {
      return Err(RuntimeError("Exchange patterns larger than 12 are not allowed"));
    }
    var g := new Generator(size);
    return Ok(g);
  }
}
