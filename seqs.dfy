/** Sequence helpers shared by the classifier, the flaw resolver and the
    first-fix analyzer: order-preserving filtering, first-occurrence
    deduplication and ascending sorting of id lists. */
module Seqs {

  predicate NoDuplicates<T(==)>(s: seq<T>) {
    forall i, j :: 0 <= i < j < |s| ==> s[i] != s[j]
  }

  /** Putting a new element in front keeps a sequence free of duplicates. */
  lemma NoDuplicatesCons<T>(x: T, s: seq<T>)
    requires NoDuplicates(s) && x !in s
    ensures NoDuplicates([x] + s)
  {
    var r := [x] + s;
    forall i, j | 0 <= i < j < |r| ensures r[i] != r[j] {
      assert r[j] == s[j - 1];
      assert s[j - 1] in s;
      assert i > 0 ==> r[i] == s[i - 1];
    }
  }

  predicate StrictlyIncreasing(s: seq<nat>) {
    forall i, j :: 0 <= i < j < |s| ==> s[i] < s[j]
  }

  /** The elements of `s` that satisfy `p`, in their original order. */
  function Filter<T(!new)>(p: T -> bool, s: seq<T>): (r: seq<T>)
    ensures |r| <= |s|
    ensures forall x :: x in r <==> x in s && p(x)
  {
    if s == [] then []
    else (if p(s[0]) then [s[0]] else []) + Filter(p, s[1..])
  }

  /** Filtering commutes with concatenation, so it keeps the relative order
      of the elements it keeps. */
  lemma {:induction false} FilterAppend<T(!new)>(p: T -> bool, a: seq<T>, b: seq<T>)
    ensures Filter(p, a + b) == Filter(p, a) + Filter(p, b)
  {
    if a == [] {
      assert a + b == b;
    } else {
      assert (a + b)[1..] == a[1..] + b;
      FilterAppend(p, a[1..], b);
    }
  }

  /** Filtering keeps every element of a sequence whose elements all pass. */
  lemma {:induction false} FilterAll<T(!new)>(p: T -> bool, s: seq<T>)
    requires forall i :: 0 <= i < |s| ==> p(s[i])
    ensures Filter(p, s) == s
  {
    if s != [] {
      FilterAll(p, s[1..]);
    }
  }

  /** Filtering drops every element of a sequence whose elements all fail. */
  lemma {:induction false} FilterNone<T(!new)>(p: T -> bool, s: seq<T>)
    requires forall i :: 0 <= i < |s| ==> !p(s[i])
    ensures Filter(p, s) == []
  {
    if s != [] {
      FilterNone(p, s[1..]);
    }
  }

  /** Position of the first occurrence of `x` in `s`. */
  function FirstIndex<T(==)>(s: seq<T>, x: T): (i: nat)
    requires x in s
    ensures i < |s| && s[i] == x && x !in s[..i]
  {
    if s[0] == x then 0 else 1 + FirstIndex(s[1..], x)
  }

  /** `s` without repetitions, each element kept at its first occurrence. */
  function Dedup<T(==,!new)>(s: seq<T>): (r: seq<T>)
    ensures NoDuplicates(r)
    ensures forall x :: x in r <==> x in s
    decreases |s|
  {
    if s == [] then []
    else
      var r := Dedup(s[..|s| - 1]);
      if s[|s| - 1] in r then r else r + [s[|s| - 1]]
  }

  /** Appending an element keeps it only when it is new. */
  lemma DedupSnoc<T(!new)>(s: seq<T>, x: T)
    ensures Dedup(s + [x]) == if x in s then Dedup(s) else Dedup(s) + [x]
  {
    assert (s + [x])[..|s|] == s;
  }

  lemma {:induction false} FirstIndexInPrefix<T>(s: seq<T>, k: nat, x: T)
    requires k <= |s| && x in s[..k]
    ensures FirstIndex(s, x) == FirstIndex(s[..k], x)
  {
    assert s[..k][0] == s[0];
    if s[0] != x {
      assert s[..k][1..] == s[1..][..k - 1];
      FirstIndexInPrefix(s[1..], k - 1, x);
    }
  }

  /** The elements Dedup keeps appear in the order of their first occurrences
      in the input. */
  lemma {:induction false} DedupFirstOccurrenceOrder<T(!new)>(s: seq<T>)
    ensures forall i, j :: 0 <= i < j < |Dedup(s)| ==>
      FirstIndex(s, Dedup(s)[i]) < FirstIndex(s, Dedup(s)[j])
    decreases |s|
  {
    if s != [] {
      var n := |s| - 1;
      var init := s[..n];
      DedupFirstOccurrenceOrder(init);
      var p := Dedup(init);
      forall x | x in p ensures FirstIndex(s, x) == FirstIndex(init, x) < n {
        FirstIndexInPrefix(s, n, x);
      }
      if s[n] !in p {
        assert s[n] !in init;
        assert FirstIndex(s, s[n]) == n;
      }
    }
  }

  /** Inserts `x` into the ascending sequence `s`, unless it is already there. */
  function InsertUnique(x: nat, s: seq<nat>): (r: seq<nat>)
    requires StrictlyIncreasing(s)
    ensures StrictlyIncreasing(r)
    ensures forall y :: y in r <==> y == x || y in s
  {
    if s == [] then [x]
    else if x < s[0] then [x] + s
    else if x == s[0] then s
    else
      var r := InsertUnique(x, s[1..]);
      forall k | 0 <= k < |r| ensures s[0] < r[k] {
        assert r[k] in r;
      }
      [s[0]] + r
  }

  /** The distinct elements of `s` in ascending order. */
  function SortedUnique(s: seq<nat>): (r: seq<nat>)
    ensures StrictlyIncreasing(r)
    ensures forall y :: y in r <==> y in s
  {
    if s == [] then [] else InsertUnique(s[0], SortedUnique(s[1..]))
  }

  /** An ascending sequence is determined by the elements it holds. */
  lemma {:induction false} StrictlyIncreasingUnique(a: seq<nat>, b: seq<nat>)
    requires StrictlyIncreasing(a) && StrictlyIncreasing(b)
    requires forall y :: y in a <==> y in b
    ensures a == b
  {
    assert a != [] ==> a[0] in b;
    assert b != [] ==> b[0] in a;
    if a != [] && b != [] {
      assert a == [a[0]] + a[1..] && b == [b[0]] + b[1..];
      assert a[0] == b[0] by {
        var i :| 0 <= i < |b| && b[i] == a[0];
        var j :| 0 <= j < |a| && a[j] == b[0];
        assert a[0] <= a[j] && b[0] <= b[i];
      }
      forall y ensures y in a[1..] <==> y in b[1..] {
        if y in a[1..] {
          var k :| 0 <= k < |a[1..]| && a[1..][k] == y;
          assert a[0] < a[k + 1] && y in a;
          assert y in b && y != b[0];
        }
        if y in b[1..] {
          var k :| 0 <= k < |b[1..]| && b[1..][k] == y;
          assert b[0] < b[k + 1] && y in b;
          assert y in a && y != a[0];
        }
      }
      StrictlyIncreasingUnique(a[1..], b[1..]);
    }
  }
}
