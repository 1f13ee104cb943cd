/** Selection and de-duplication of rows, the two sequence operations the
    application's queries are made of. */
module Seqs {

  /** The rows of `s` for which `keep` holds, in their original order:
      a SQL `WHERE` clause, or a boolean mask on a pandas frame. */
  function Select<T(!new)>(s: seq<T>, keep: T -> bool): (r: seq<T>)
    ensures |r| <= |s|
    ensures forall x :: x in r <==> x in s && keep(x)
    ensures forall x :: multiset(r)[x] == if keep(x) then multiset(s)[x] else 0
  {
    if s == [] then []
    else
      assert s == [s[0]] + s[1..];
      (if keep(s[0]) then [s[0]] else []) + Select(s[1..], keep)
  }

  /** Selection keeps relative order: it distributes over concatenation. */
  lemma {:induction false} SelectAppend<T(!new)>(a: seq<T>, b: seq<T>, keep: T -> bool)
    ensures Select(a + b, keep) == Select(a, keep) + Select(b, keep)
  {
    if a == [] {
      assert a + b == b;
    } else {
      assert (a + b)[0] == a[0];
      assert (a + b)[1..] == a[1..] + b;
      SelectAppend(a[1..], b, keep);
    }
  }

  /** Selecting rows that all pass gives them back unchanged. */
  lemma {:induction false} SelectAll<T(!new)>(s: seq<T>, keep: T -> bool)
    requires forall x :: x in s ==> keep(x)
    ensures Select(s, keep) == s
  {
    if s != [] {
      assert s[0] in s;
      assert forall x :: x in s[1..] ==> x in s;
      SelectAll(s[1..], keep);
    }
  }

  /** Appending one row adds it to the selection exactly when it passes. */
  lemma SelectSnoc<T(!new)>(s: seq<T>, x: T, keep: T -> bool)
    ensures Select(s + [x], keep) == Select(s, keep) + (if keep(x) then [x] else [])
  {
    SelectAppend(s, [x], keep);
    assert [x][1..] == [];
    assert Select([x][1..], keep) == [];
    assert Select([x], keep) == (if keep(x) then [x] else []);
  }

  predicate NoDuplicates<T(==)>(s: seq<T>)
  {
    forall i, j :: 0 <= i < j < |s| ==> s[i] != s[j]
  }

  /** Each value of `s` once, in the order of its first occurrence:
      pandas' `Series.unique()`. */
  function Distinct<T(==,!new)>(s: seq<T>): (r: seq<T>)
    ensures NoDuplicates(r)
    ensures forall x :: x in r <==> x in s
  {
    if s == [] then []
    else
      var d := Distinct(s[..|s| - 1]);
      assert s == s[..|s| - 1] + [s[|s| - 1]];
      if s[|s| - 1] in d then d else d + [s[|s| - 1]]
  }

  /** The position of the first occurrence of `x` in `s`. */
  function FirstIndex<T(==)>(s: seq<T>, x: T): (k: nat)
    requires x in s
    ensures k < |s| && s[k] == x
    ensures forall j :: 0 <= j < k ==> s[j] != x
  {
    if s[0] == x then 0 else 1 + FirstIndex(s[1..], x)
  }

  /** `Distinct` lists values in the order in which they first occur in `s`. */
  lemma {:induction false} DistinctFirstOccurrenceOrder<T(!new)>(s: seq<T>, i: nat, j: nat)
    requires i < j < |Distinct(s)|
    ensures FirstIndex(s, Distinct(s)[i]) < FirstIndex(s, Distinct(s)[j])
  {
    assert s != [];
    var p := s[..|s| - 1];
    var last := s[|s| - 1];
    assert s == p + [last];
    var d := Distinct(p);
    var r := Distinct(s);
    assert r == if last in d then d else d + [last];
    var x, y := r[i], r[j];
    assert x in d;
    FirstIndexPrefix(p, last, x);
    if j < |d| {
      assert y == d[j];
      DistinctFirstOccurrenceOrder(p, i, j);
      FirstIndexPrefix(p, last, y);
    } else {
      // y is the last value of s and new to its prefix
      assert y == last && y !in p;
      FirstIndexOfNew(p, last);
    }
  }

  /** A value missing from `p` first occurs in `p + [x]` at its end. */
  lemma FirstIndexOfNew<T>(p: seq<T>, x: T)
    requires x !in p
    ensures FirstIndex(p + [x], x) == |p|
  {
    forall k | 0 <= k < |p| ensures (p + [x])[k] != x {
      assert (p + [x])[k] == p[k];
    }
    FirstIndexUnique(p + [x], x, |p|);
  }

  /** Extending a sequence does not move the first occurrence of a value it already holds. */
  lemma FirstIndexPrefix<T>(p: seq<T>, last: T, x: T)
    requires x in p
    ensures FirstIndex(p + [last], x) == FirstIndex(p, x)
  {
    var k := FirstIndex(p, x);
    assert (p + [last])[k] == x;
    forall j | 0 <= j < k ensures (p + [last])[j] != x {
      assert (p + [last])[j] == p[j];
    }
    FirstIndexUnique(p + [last], x, k);
  }

  /** The first occurrence is characterised by its two properties. */
  lemma {:induction false} FirstIndexUnique<T>(s: seq<T>, x: T, k: nat)
    requires k < |s| && s[k] == x
    requires forall j :: 0 <= j < k ==> s[j] != x
    ensures FirstIndex(s, x) == k
  {
    if k > 0 {
      assert s[0] != x;
      FirstIndexUnique(s[1..], x, k - 1);
    }
  }
}
