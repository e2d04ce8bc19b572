// Subsequences: what a channel that may drop passes on.
module Subsequences {

  /** `a` is `b` with some elements left out. */
  ghost predicate Sub<T>(a: seq<T>, b: seq<T>) {
    a == [] || (b != [] && (Sub(a, b[..|b| - 1]) || (a[|a| - 1] == b[|b| - 1] && Sub(a[..|a| - 1], b[..|b| - 1]))))
  }

  lemma SubGrows<T>(a: seq<T>, b: seq<T>, x: T)
    requires Sub(a, b)
    ensures Sub(a, b + [x]) && Sub(a + [x], b + [x])
  {}

  /** A part of a subsequence is a subsequence. */
  lemma {:induction false} SubPart<T>(a: seq<T>, b: seq<T>, i: nat, j: nat)
    requires Sub(a, b) && i <= j <= |a|
    ensures Sub(a[i..j], b)
    decreases |b|
  {
    if i < j {
      var n, m := |a| - 1, |b| - 1;
      if Sub(a, b[..m]) {
        SubPart(a, b[..m], i, j);
      } else if j == |a| {
        SubPart(a[..n], b[..m], i, n);
        assert a[..n][i..n] == a[i..n] == a[i..j][..j - i - 1];
      } else {
        SubPart(a[..n], b[..m], i, j);
        assert a[..n][i..j] == a[i..j];
      }
    }
  }

  lemma {:induction false} SubLength<T>(a: seq<T>, b: seq<T>)
    requires Sub(a, b)
    ensures |a| <= |b| && (|a| == |b| ==> a == b)
    decreases |b|
  {
    if a != [] {
      var n, m := |a| - 1, |b| - 1;
      if Sub(a, b[..m]) {
        SubLength(a, b[..m]);
      } else {
        SubLength(a[..n], b[..m]);
        assert a == a[..n] + [a[n]] && b == b[..m] + [b[m]];
      }
    }
  }

  lemma {:induction false} SubLonger<T>(a: seq<T>, b: seq<T>, c: seq<T>)
    requires Sub(a, b) && b <= c
    ensures Sub(a, c)
    decreases |c|
  {
    if |b| < |c| {
      var n := |c| - 1;
      SubLonger(a, b, c[..n]);
      SubGrows(a, c[..n], c[n]);
      assert c[..n] + [c[n]] == c;
    } else {
      assert b == c;
    }
  }

  lemma {:induction false} SubSame<T>(a: seq<T>)
    ensures Sub(a, a)
    decreases |a|
  {
    if a != [] {
      SubSame(a[..|a| - 1]);
    }
  }

  lemma {:induction false} SubIn<T>(a: seq<T>, b: seq<T>, i: nat)
    requires Sub(a, b) && i < |a|
    ensures a[i] in b
    decreases |b|
  {
    var m := |b| - 1;
    if Sub(a, b[..m]) {
      SubIn(a, b[..m], i);
    } else if i < |a| - 1 {
      SubIn(a[..|a| - 1], b[..m], i);
    }
  }
}
