/** The enumeration std::next_permutation walks through when it starts from the
    sorted sequence 0..n-1: every permutation, once, in increasing
    lexicographic order. PermsOf lists the permutations of a strictly sorted
    sequence block by block: first those starting with its smallest element,
    then those starting with the next one, and so on. */
module Permutations {

  function Fact(n: nat): (f: nat)
    ensures f >= 1
  {
    if n == 0 then 1 else n * Fact(n - 1)
  }

  /** 0, 1, ..., n-1 */
  function Range(n: nat): (r: seq<nat>)
    ensures |r| == n && forall i :: 0 <= i < n ==> r[i] == i
  {
    seq(n, i => i)
  }

  predicate StrictlySorted(xs: seq<nat>)
  {
    forall i, j :: 0 <= i < j < |xs| ==> xs[i] < xs[j]
  }

  /** xs without its element at position j. */
  function Remove(xs: seq<nat>, j: nat): (r: seq<nat>)
    requires j < |xs|
    ensures |r| == |xs| - 1
    ensures multiset(r) == multiset(xs) - multiset{xs[j]}
  {
    assert xs == xs[..j] + [xs[j]] + xs[j + 1..];
    xs[..j] + xs[j + 1..]
  }

  function Prepend(x: nat, ps: seq<seq<nat>>): (r: seq<seq<nat>>)
    ensures |r| == |ps|
    ensures forall k :: 0 <= k < |ps| ==> r[k] == [x] + ps[k]
  {
    seq(|ps|, k requires 0 <= k < |ps| => [x] + ps[k])
  }

  /** All orderings of the elements of xs. */
  function PermsOf(xs: seq<nat>): seq<seq<nat>>
    decreases |xs|, |xs| + 1
  {
    if xs == [] then [[]] else PermsFrom(xs, 0)
  }

  /** The blocks of PermsOf(xs) whose first element is xs[i], xs[i+1], .... */
  function PermsFrom(xs: seq<nat>, i: nat): seq<seq<nat>>
    requires i <= |xs|
    decreases |xs|, |xs| - i
  {
    if i == |xs| then [] else Prepend(xs[i], PermsOf(Remove(xs, i))) + PermsFrom(xs, i + 1)
  }

  /** The sequence of permutations of 0..n-1 that the generator stores. */
  function Perms(n: nat): seq<seq<nat>>
  {
    PermsOf(Range(n))
  }

  /** Lexicographic order on sequences of equal length, as std::next_permutation
      uses it. */
  predicate LexLess(a: seq<nat>, b: seq<nat>)
    decreases |a|
  {
    a != [] && b != [] && (a[0] < b[0] || (a[0] == b[0] && LexLess(a[1..], b[1..])))
  }

  predicate Increasing(ps: seq<seq<nat>>)
  {
    forall k :: 0 <= k < |ps| - 1 ==> LexLess(ps[k], ps[k + 1])
  }

  // ---------------------------------------------------------------------
  // The number of permutations

  lemma {:induction false} PermsOfLength(xs: seq<nat>)
    ensures |PermsOf(xs)| == Fact(|xs|)
    decreases |xs|, |xs| + 1
  {
    if xs != [] {
      PermsFromLength(xs, 0);
      assert PermsOf(xs) == PermsFrom(xs, 0);
      assert Fact(|xs|) == (|xs| - 0) * Fact(|xs| - 1);
    }
  }

  lemma {:induction false} PermsFromLength(xs: seq<nat>, i: nat)
    requires 0 < |xs| && i <= |xs|
    ensures |PermsFrom(xs, i)| == (|xs| - i) * Fact(|xs| - 1)
    decreases |xs|, |xs| - i
  {
    if i < |xs| {
      var f := Fact(|xs| - 1);
      PermsOfLength(Remove(xs, i));
      PermsFromLength(xs, i + 1);
      assert |PermsFrom(xs, i)| == f + |PermsFrom(xs, i + 1)|;
      var m := |xs| - i - 1;
      assert (m + 1) * f == m * f + f;
    }
  }

  // ---------------------------------------------------------------------
  // Every entry is a permutation

  lemma {:induction false} PermsOfArePermutations(xs: seq<nat>)
    ensures forall k :: 0 <= k < |PermsOf(xs)| ==> multiset(PermsOf(xs)[k]) == multiset(xs)
    decreases |xs|, |xs| + 1
  {
    if xs != [] {
      PermsFromArePermutations(xs, 0);
    }
  }

  lemma {:induction false} PermsFromArePermutations(xs: seq<nat>, i: nat)
    requires i <= |xs|
    ensures forall k :: 0 <= k < |PermsFrom(xs, i)| ==> multiset(PermsFrom(xs, i)[k]) == multiset(xs)
    decreases |xs|, |xs| - i
  {
    if i < |xs| {
      var rest := Remove(xs, i);
      var block := Prepend(xs[i], PermsOf(rest));
      PermsOfArePermutations(rest);
      PermsFromArePermutations(xs, i + 1);
      assert forall k :: 0 <= k < |block| ==> multiset(block[k]) == multiset(xs) by {
        forall k | 0 <= k < |block|
          ensures multiset(block[k]) == multiset(xs)
        {
          assert block[k] == [xs[i]] + PermsOf(rest)[k];
          assert xs[i] in multiset(xs);
        }
      }
      var tail := PermsFrom(xs, i + 1);
      var all: seq<seq<nat>> := block + tail;
      assert PermsFrom(xs, i) == all;
      forall k | 0 <= k < |all|
        ensures multiset(all[k]) == multiset(xs)
      {
        if k >= |block| { assert all[k] == tail[k - |block|]; }
      }
    }
  }

  // ---------------------------------------------------------------------
  // The first entry is the sorted sequence itself

  lemma {:induction false} PermsOfFirst(xs: seq<nat>)
    ensures |PermsOf(xs)| >= 1 && PermsOf(xs)[0] == xs
    decreases |xs|
  {
    PermsOfLength(xs);
    if xs != [] {
      var rest := Remove(xs, 0);
      assert rest == xs[1..];
      PermsOfFirst(rest);
      PermsOfLength(rest);
      assert PermsFrom(xs, 0)[0] == Prepend(xs[0], PermsOf(rest))[0];
      assert [xs[0]] + xs[1..] == xs;
    }
  }

  // ---------------------------------------------------------------------
  // The order is strictly increasing

  lemma {:induction false} LexLessPrepend(x: nat, a: seq<nat>, b: seq<nat>)
    requires LexLess(a, b)
    ensures LexLess([x] + a, [x] + b)
  {
    assert ([x] + a)[1..] == a && ([x] + b)[1..] == b;
  }

  lemma IncreasingPrepend(x: nat, ps: seq<seq<nat>>)
    requires Increasing(ps)
    ensures Increasing(Prepend(x, ps))
  {
    var r := Prepend(x, ps);
    forall k | 0 <= k < |r| - 1
      ensures LexLess(r[k], r[k + 1])
    {
      LexLessPrepend(x, ps[k], ps[k + 1]);
    }
  }

  lemma IncreasingConcat(a: seq<seq<nat>>, b: seq<seq<nat>>)
    requires Increasing(a) && Increasing(b)
    requires a != [] && b != [] ==> LexLess(a[|a| - 1], b[0])
    ensures Increasing(a + b)
  {
    var c := a + b;
    forall k | 0 <= k < |c| - 1
      ensures LexLess(c[k], c[k + 1])
    {
      if k + 1 < |a| {
        assert c[k] == a[k] && c[k + 1] == a[k + 1];
      } else if k + 1 == |a| {
        assert c[k] == a[|a| - 1] && c[k + 1] == b[0];
      } else {
        assert c[k] == b[k - |a|] && c[k + 1] == b[k - |a| + 1];
      }
    }
  }

  lemma RemoveKeepsSorted(xs: seq<nat>, j: nat)
    requires StrictlySorted(xs) && j < |xs|
    ensures StrictlySorted(Remove(xs, j))
  {
    var r := Remove(xs, j);
    forall a, b | 0 <= a < b < |r|
      ensures r[a] < r[b]
    {
      var a' := if a < j then a else a + 1;
      var b' := if b < j then b else b + 1;
      assert r[a] == xs[a'] && r[b] == xs[b'];
    }
  }

  /** Every entry from block i on is non-empty and starts with xs[i] or a
      larger element. */
  lemma {:induction false} PermsFromHeads(xs: seq<nat>, i: nat)
    requires StrictlySorted(xs) && i < |xs|
    ensures forall k :: 0 <= k < |PermsFrom(xs, i)| ==>
      PermsFrom(xs, i)[k] != [] && PermsFrom(xs, i)[k][0] >= xs[i]
    decreases |xs| - i
  {
    var block := Prepend(xs[i], PermsOf(Remove(xs, i)));
    var tail := PermsFrom(xs, i + 1);
    var all: seq<seq<nat>> := block + tail;
    assert PermsFrom(xs, i) == all;
    if i + 1 < |xs| {
      PermsFromHeads(xs, i + 1);
    }
    forall k | 0 <= k < |all|
      ensures all[k] != [] && all[k][0] >= xs[i]
    {
      if k < |block| {
        assert all[k] == [xs[i]] + PermsOf(Remove(xs, i))[k];
      } else {
        assert all[k] == tail[k - |block|];
      }
    }
  }

  lemma {:induction false} PermsOfIncreasing(xs: seq<nat>)
    requires StrictlySorted(xs)
    ensures Increasing(PermsOf(xs))
    decreases |xs|, |xs| + 1
  {
    if xs != [] {
      PermsFromIncreasing(xs, 0);
    }
  }

  lemma {:induction false} PermsFromIncreasing(xs: seq<nat>, i: nat)
    requires StrictlySorted(xs) && i <= |xs|
    ensures Increasing(PermsFrom(xs, i))
    decreases |xs|, |xs| - i
  {
    if i < |xs| {
      var rest := Remove(xs, i);
      RemoveKeepsSorted(xs, i);
      PermsOfIncreasing(rest);
      IncreasingPrepend(xs[i], PermsOf(rest));
      var block := Prepend(xs[i], PermsOf(rest));
      var tail := PermsFrom(xs, i + 1);
      PermsFromIncreasing(xs, i + 1);
      if tail != [] {
        PermsFromHeads(xs, i + 1);
        PermsOfLength(rest);
        assert block[|block| - 1] == [xs[i]] + PermsOf(rest)[|block| - 1];
        assert tail[0][0] >= xs[i + 1] > xs[i];
      }
      IncreasingConcat(block, tail);
    }
  }

  lemma {:induction false} LexLessTransitive(a: seq<nat>, b: seq<nat>, c: seq<nat>)
    requires LexLess(a, b) && LexLess(b, c)
    ensures LexLess(a, c)
    decreases |a|
  {
    if a[0] == b[0] && b[0] == c[0] {
      LexLessTransitive(a[1..], b[1..], c[1..]);
    }
  }

  lemma {:induction false} LexLessIrreflexive(a: seq<nat>)
    ensures !LexLess(a, a)
    decreases |a|
  {
    if a != [] {
      LexLessIrreflexive(a[1..]);
    }
  }

  /** Adjacent entries in increasing order make every earlier entry smaller
      than every later one, so no entry occurs twice. */
  lemma {:induction false} IncreasingDistinct(ps: seq<seq<nat>>, i: nat, j: nat)
    requires Increasing(ps) && i < j < |ps|
    ensures LexLess(ps[i], ps[j]) && ps[i] != ps[j]
    decreases j - i
  {
    if i + 1 < j {
      IncreasingDistinct(ps, i + 1, j);
      LexLessTransitive(ps[i], ps[i + 1], ps[j]);
    }
    if ps[i] == ps[j] {
      LexLessIrreflexive(ps[i]);
    }
  }

  // ---------------------------------------------------------------------
  // Every permutation is listed

  lemma {:induction false} BlockInPermsFrom(xs: seq<nat>, i: nat, j: nat, q: seq<nat>)
    requires i <= j < |xs|
    requires q in Prepend(xs[j], PermsOf(Remove(xs, j)))
    ensures q in PermsFrom(xs, i)
    decreases j - i
  {
    if i < j {
      BlockInPermsFrom(xs, i + 1, j, q);
    }
  }

  lemma {:induction false} PermsOfComplete(xs: seq<nat>, p: seq<nat>)
    requires StrictlySorted(xs)
    requires multiset(p) == multiset(xs)
    ensures p in PermsOf(xs)
    decreases |xs|
  {
    if xs == [] {
      assert |p| == |multiset(p)| == 0;
    } else {
      assert |p| == |xs| by { assert |multiset(p)| == |multiset(xs)|; }
      assert p[0] in multiset(xs) by { assert p[0] in multiset(p); }
      var j :| 0 <= j < |xs| && xs[j] == p[0];
      var rest := Remove(xs, j);
      RemoveKeepsSorted(xs, j);
      assert p == [p[0]] + p[1..];
      assert multiset(p[1..]) == multiset(rest);
      PermsOfComplete(rest, p[1..]);
      var k :| 0 <= k < |PermsOf(rest)| && PermsOf(rest)[k] == p[1..];
      assert Prepend(xs[j], PermsOf(rest))[k] == p;
      BlockInPermsFrom(xs, 0, j, p);
    }
  }

  // ---------------------------------------------------------------------
  // The same facts for 0..n-1

  lemma RangeSorted(n: nat)
    ensures StrictlySorted(Range(n))
  {
  }

  /** The generator's enumeration: n! entries, each a permutation of 0..n-1
      with every value below n, the first one the identity, in strictly
      increasing lexicographic order, and containing every permutation. */
  lemma PermsFacts(n: nat)
    ensures |Perms(n)| == Fact(n)
    ensures Perms(n)[0] == Range(n)
    ensures Increasing(Perms(n))
    ensures forall k :: 0 <= k < |Perms(n)| ==> multiset(Perms(n)[k]) == multiset(Range(n))
  {
    PermsOfLength(Range(n));
    PermsOfFirst(Range(n));
    RangeSorted(n);
    PermsOfIncreasing(Range(n));
    PermsOfArePermutations(Range(n));
  }

  /** Each entry has length n and its values lie below n. */
  lemma PermEntries(n: nat, k: nat)
    requires k < |Perms(n)|
    ensures |Perms(n)[k]| == n
    ensures forall i :: 0 <= i < n ==> Perms(n)[k][i] < n
  {
    PermsOfArePermutations(Range(n));
    var p := Perms(n)[k];
    assert |p| == |multiset(p)| == |multiset(Range(n))| == n;
    forall i | 0 <= i < n
      ensures p[i] < n
    {
      assert p[i] in multiset(p);
      assert p[i] in multiset(Range(n));
      assert p[i] in Range(n);
    }
  }

  /** Every permutation of 0..n-1 occurs exactly once. */
  lemma PermsExactlyOnce(n: nat, p: seq<nat>)
    requires multiset(p) == multiset(Range(n))
    ensures p in Perms(n)
    ensures forall i, j :: 0 <= i < j < |Perms(n)| ==> Perms(n)[i] != Perms(n)[j]
  {
    RangeSorted(n);
    PermsOfComplete(Range(n), p);
    PermsOfIncreasing(Range(n));
    forall i, j | 0 <= i < j < |Perms(n)|
      ensures Perms(n)[i] != Perms(n)[j]
    {
      IncreasingDistinct(Perms(n), i, j);
    }
  }
}
