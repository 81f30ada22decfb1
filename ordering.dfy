/**
  Python's `<` on sequences: on lists of integers (what `LooseVersion`
  compares) and on strings, which compare by code point (what `sorted`
  uses for the option names).
 */
module Ordering {

  /** `a < b`: the first difference decides, and a proper prefix is smaller. */
  predicate SeqLess(a: seq<int>, b: seq<int>)
  {
    |b| > 0 && (|a| == 0 || a[0] < b[0] || (a[0] == b[0] && SeqLess(a[1..], b[1..])))
  }

  /** The code points of a string. */
  function Codes(s: string): (r: seq<int>)
    ensures |r| == |s|
    ensures forall k :: 0 <= k < |s| ==> r[k] == s[k] as int
  {
    seq(|s|, k requires 0 <= k < |s| => s[k] as int)
  }

  /** Python's `a < b` on strings. */
  predicate StringLess(a: string, b: string)
  {
    SeqLess(Codes(a), Codes(b))
  }

  lemma {:induction false} SeqLessIrreflexive(a: seq<int>)
    ensures !SeqLess(a, a)
    decreases |a|
  {
    if |a| > 0 {
      SeqLessIrreflexive(a[1..]);
    }
  }

  lemma {:induction false} SeqLessAsymmetric(a: seq<int>, b: seq<int>)
    requires SeqLess(a, b)
    ensures !SeqLess(b, a)
    decreases |a|
  {
    if |a| > 0 && a[0] == b[0] {
      SeqLessAsymmetric(a[1..], b[1..]);
    }
  }

  lemma {:induction false} SeqLessTransitive(a: seq<int>, b: seq<int>, c: seq<int>)
    requires SeqLess(a, b) && SeqLess(b, c)
    ensures SeqLess(a, c)
    decreases |a|
  {
    if |a| > 0 && a[0] == b[0] && b[0] == c[0] {
      SeqLessTransitive(a[1..], b[1..], c[1..]);
    }
  }

  lemma {:induction false} SeqLessTotal(a: seq<int>, b: seq<int>)
    ensures a == b || SeqLess(a, b) || SeqLess(b, a)
    decreases |a|
  {
    if |a| > 0 && |b| > 0 && a[0] == b[0] {
      SeqLessTotal(a[1..], b[1..]);
      if a[1..] == b[1..] {
        assert a == [a[0]] + a[1..] && b == [b[0]] + b[1..];
      }
    }
  }

  /** Equal up to index `k`, smaller at `k`: then smaller. */
  lemma {:induction false} SeqLessAt(a: seq<int>, b: seq<int>, k: nat)
    requires k < |a| && k < |b| && a[..k] == b[..k] && a[k] < b[k]
    ensures SeqLess(a, b)
    decreases k
  {
    if k > 0 {
      assert a[0] == a[..k][0] == b[..k][0] == b[0];
      assert a[1..][..k - 1] == a[..k][1..] == b[..k][1..] == b[1..][..k - 1];
      SeqLessAt(a[1..], b[1..], k - 1);
    }
  }
}
