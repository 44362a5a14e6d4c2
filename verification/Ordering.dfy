/** Orders shared by the components. */
module Ordering {

  function Min(a: nat, b: nat): nat { if a <= b then a else b }

  /** The lexicographic order on sequences of code units or bytes. */
  predicate Less(a: seq<int>, b: seq<int>)
  {
    b != [] && (a == [] || a[0] < b[0] || (a[0] == b[0] && Less(a[1..], b[1..])))
  }

  /** At the first place where they differ, a ends or has the smaller element. */
  ghost predicate FirstDifference(a: seq<int>, b: seq<int>)
  {
    exists p: nat :: p <= |a| && p < |b| && a[..p] == b[..p] && (p == |a| || a[p] < b[p])
  }

  lemma SameFront(a: seq<int>, b: seq<int>, p: nat)
    requires 0 < p <= |a| && p <= |b|
    ensures a[..p] == b[..p] ==> a[0] == b[0]
  {
    assert a[0] == a[..p][0] && b[0] == b[..p][0];
  }

  lemma {:induction false} LessIsFirstDifference(a: seq<int>, b: seq<int>)
    ensures Less(a, b) <==> FirstDifference(a, b)
  {
    if a != [] && b != [] && a[0] == b[0] {
      LessIsFirstDifference(a[1..], b[1..]);
      if p: nat :| p <= |a| && p < |b| && a[..p] == b[..p] && (p == |a| || a[p] < b[p]) {
        assert a[1..][..p - 1] == a[..p][1..] && b[1..][..p - 1] == b[..p][1..];
      }
      if p: nat :| p < |a| && p + 1 < |b| && a[1..][..p] == b[1..][..p] && (p + 1 == |a| || a[p + 1] < b[p + 1]) {
        assert a[..p + 1] == [a[0]] + a[1..][..p] && b[..p + 1] == [b[0]] + b[1..][..p];
      }
    } else if b != [] && (a == [] || a[0] < b[0]) {
      assert a[..0] == b[..0];
    } else {
      forall p | 0 < p <= |a| && p < |b| ensures a[..p] == b[..p] ==> a[0] == b[0] {
        SameFront(a, b, p);
      }
    }
  }

  lemma {:induction false} LessTotal(a: seq<int>, b: seq<int>)
    ensures Less(a, b) || Less(b, a) || a == b
    ensures !(Less(a, b) && Less(b, a)) && !(Less(a, b) && a == b)
  {
    if a != [] && b != [] && a[0] == b[0] {
      LessTotal(a[1..], b[1..]);
      assert a == [a[0]] + a[1..] && b == [b[0]] + b[1..];
    }
  }

  lemma {:induction false} LessTransitive(a: seq<int>, b: seq<int>, c: seq<int>)
    requires Less(a, b) && Less(b, c)
    ensures Less(a, c)
  {
    if a != [] && a[0] == b[0] == c[0] {
      LessTransitive(a[1..], b[1..], c[1..]);
    }
  }
}
