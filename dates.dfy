/** Calendar dates as the application stores them, and the order SQLite uses on them. */
module Dates {

  /** A date is the text written by strftime("%Y-%m-%d"), e.g. "2024-01-31". */
  type Date = string

  /** `a` and `b` agree on their first `k` characters, and there `a` ends
      while `b` goes on, or `a` has the smaller character. */
  predicate LessAt(a: string, b: string, k: nat)
  {
    && k <= |a| && k <= |b| && a[..k] == b[..k]
    && ((k == |a| && k < |b|) || (k < |a| && k < |b| && a[k] < b[k]))
  }

  /** Strict lexicographic order on text: what SQLite's default BINARY collation
      applies to the TEXT column `date` in an ORDER BY. On "%Y-%m-%d" text this is
      the chronological order, so it is also the order in which pandas sorts
      the groups of a groupby on the parsed dates. */
  predicate Before(a: string, b: string)
  {
    if a == [] then b != []
    else if b == [] then false
    else a[0] < b[0] || (a[0] == b[0] && Before(a[1..], b[1..]))
  }

  /** `Before` is the lexicographic order: `a` comes before `b` exactly when
      they first differ at some position where `a` ends or has the smaller
      character. */
  lemma {:induction false} BeforeIsLexicographic(a: string, b: string)
    ensures Before(a, b) <==> exists k :: LessAt(a, b, k)
  {
    if a == [] {
      assert b != [] ==> LessAt(a, b, 0);
    } else if b != [] {
      LessAtTail(a, b);
      BeforeIsLexicographic(a[1..], b[1..]);
    }
  }

  /** Two non-empty texts differ first at position 0, or agree there and
      differ first somewhere in their tails. */
  lemma LessAtTail(a: string, b: string)
    requires a != [] && b != []
    ensures (exists k :: LessAt(a, b, k))
            <==> a[0] < b[0] || (a[0] == b[0] && exists k :: LessAt(a[1..], b[1..], k))
  {
    if exists k :: LessAt(a, b, k) {
      var k: nat :| LessAt(a, b, k);
      if k > 0 {
        assert a[0] == a[..k][0] == b[..k][0] == b[0];
        assert a[1..][..k - 1] == a[..k][1..] == b[..k][1..] == b[1..][..k - 1];
        assert LessAt(a[1..], b[1..], k - 1);
      }
    }
    if a[0] < b[0] {
      assert LessAt(a, b, 0);
    } else if a[0] == b[0] && exists k :: LessAt(a[1..], b[1..], k) {
      var k: nat :| LessAt(a[1..], b[1..], k);
      assert a[..k + 1] == [a[0]] + a[1..][..k] == [b[0]] + b[1..][..k] == b[..k + 1];
      assert LessAt(a, b, k + 1);
    }
  }

  lemma {:induction false} BeforeIrreflexive(a: string)
    ensures !Before(a, a)
  {
    if a != [] {
      BeforeIrreflexive(a[1..]);
    }
  }

  lemma {:induction false} BeforeTransitive(a: string, b: string, c: string)
    requires Before(a, b) && Before(b, c)
    ensures Before(a, c)
  {
    if a != [] && a[0] == b[0] && b[0] == c[0] {
      BeforeTransitive(a[1..], b[1..], c[1..]);
    }
  }

  /** Any two dates are equal or ordered one way or the other. */
  lemma {:induction false} BeforeTotal(a: string, b: string)
    ensures a == b || Before(a, b) || Before(b, a)
  {
    if a != [] && b != [] && a[0] == b[0] {
      BeforeTotal(a[1..], b[1..]);
      if a[1..] == b[1..] {
        assert a == [a[0]] + a[1..] && b == [b[0]] + b[1..];
      }
    }
  }

  lemma {:induction false} BeforeAsymmetric(a: string, b: string)
    requires Before(a, b)
    ensures !Before(b, a)
  {
    if Before(b, a) {
      BeforeTransitive(a, b, a);
      BeforeIrreflexive(a);
    }
  }

  /** "not before" is the reflexive order "at or after"; it is transitive too. */
  lemma NotBeforeTransitive(a: string, b: string, c: string)
    requires !Before(a, b) && !Before(b, c)
    ensures !Before(a, c)
  {
    BeforeTotal(a, b);
    BeforeTotal(b, c);
    if Before(a, c) {
      if a != b && b != c {
        BeforeTransitive(c, b, a);
        BeforeAsymmetric(a, c);
      }
    }
  }

  /** Text that agrees up to position `k` is ordered by its characters at `k`. */
  lemma {:induction false} BeforeAfterCommonPrefix(a: string, b: string, k: nat)
    requires k < |a| && k < |b| && a[..k] == b[..k] && a[k] < b[k]
    ensures Before(a, b)
  {
    if k > 0 {
      assert a[0] == a[..k][0] == b[..k][0] == b[0];
      assert a[1..][..k - 1] == a[..k][1..] == b[..k][1..] == b[1..][..k - 1];
      BeforeAfterCommonPrefix(a[1..], b[1..], k - 1);
    }
  }
}
