/** Python's float helpers with floats modelled as reals: truthiness,
    `int()` truncation, and `sum` over a list together with the facts the
    models of normalisation and merging rely on. */
module Reals {
  import opened Wrappers

  /** Python truthiness of an optional float: set and non-zero. */
  predicate Truthy(x: Option<real>) {
    x.Some? && x.value != 0.0
  }

  /** Python `int()` on a float: truncation toward zero. */
  function Trunc(x: real): (r: int)
    ensures x >= 0.0 ==> r as real <= x < r as real + 1.0
    ensures x < 0.0 ==> r as real - 1.0 < x <= r as real
  {
    if x >= 0.0 then x.Floor else -((-x).Floor)
  }

  /** Truncating keeps the order of non-negative values. */
  lemma TruncMonotone(x1: real, x2: real)
    requires 0.0 <= x1 <= x2
    ensures Trunc(x1) <= Trunc(x2)
  {
  }

  /** `sum(s)`. */
  function Sum(s: seq<real>): real
  {
    if |s| == 0 then 0.0 else s[0] + Sum(s[1..])
  }

  /** Summing a concatenation sums the parts. */
  lemma {:induction false} SumAppend(a: seq<real>, b: seq<real>)
    ensures Sum(a + b) == Sum(a) + Sum(b)
    decreases |a|
  {
    if |a| > 0 {
      assert (a + b)[1..] == a[1..] + b;
      SumAppend(a[1..], b);
    } else {
      assert a + b == b;
    }
  }

  /** Summing up to the last element, then adding it. */
  lemma SumSnoc(s: seq<real>, x: real)
    ensures Sum(s + [x]) == Sum(s) + x
  {
    SumAppend(s, [x]);
    assert [x][1..] == [];
  }

  /** `s` with every element multiplied by `k`. */
  function ScaleAll(s: seq<real>, k: real): (r: seq<real>)
    ensures |r| == |s|
  {
    seq(|s|, i requires 0 <= i < |s| => s[i] * k)
  }

  /** Scaling every element scales the sum. */
  lemma {:induction false} SumScaleAll(s: seq<real>, k: real)
    ensures Sum(ScaleAll(s, k)) == Sum(s) * k
    decreases |s|
  {
    if |s| > 0 {
      assert ScaleAll(s, k)[1..] == ScaleAll(s[1..], k) by {
        forall i | 0 <= i < |s| - 1 ensures ScaleAll(s, k)[1..][i] == ScaleAll(s[1..], k)[i] {
          assert s[1..][i] == s[i + 1];
        }
      }
      SumScaleAll(s[1..], k);
    }
  }

  predicate NonNegative(s: seq<real>) {
    forall i :: 0 <= i < |s| ==> s[i] >= 0.0
  }

  /** A sum of non-negative terms is non-negative. */
  lemma {:induction false} SumNonNegative(s: seq<real>)
    requires NonNegative(s)
    ensures Sum(s) >= 0.0
    decreases |s|
  {
    if |s| > 0 {
      assert NonNegative(s[1..]) by {
        forall i | 0 <= i < |s| - 1 ensures s[1..][i] >= 0.0 {
          assert s[1..][i] == s[i + 1];
        }
      }
      SumNonNegative(s[1..]);
    }
  }

  /** Each term of a sum of non-negative terms is at most the sum. */
  lemma {:induction false} TermAtMostSum(s: seq<real>, i: nat)
    requires NonNegative(s) && i < |s|
    ensures s[i] <= Sum(s)
    decreases |s|
  {
    assert NonNegative(s[1..]) by {
      forall j | 0 <= j < |s| - 1 ensures s[1..][j] >= 0.0 {
        assert s[1..][j] == s[j + 1];
      }
    }
    if i == 0 {
      SumNonNegative(s[1..]);
    } else {
      assert s[1..][i - 1] == s[i];
      TermAtMostSum(s[1..], i - 1);
    }
  }

  /** Pointwise smaller terms give a smaller sum. */
  lemma {:induction false} SumMonotone(a: seq<real>, b: seq<real>)
    requires |a| == |b|
    requires forall i :: 0 <= i < |a| ==> a[i] <= b[i]
    ensures Sum(a) <= Sum(b)
    decreases |a|
  {
    if |a| > 0 {
      forall i | 0 <= i < |a| - 1 ensures a[1..][i] <= b[1..][i] {
        assert a[1..][i] == a[i + 1] && b[1..][i] == b[i + 1];
      }
      SumMonotone(a[1..], b[1..]);
    }
  }

  /** A sequence of zeros sums to zero. */
  lemma {:induction false} SumZeros(s: seq<real>)
    requires forall i :: 0 <= i < |s| ==> s[i] == 0.0
    ensures Sum(s) == 0.0
    decreases |s|
  {
    if |s| > 0 {
      forall i | 0 <= i < |s| - 1 ensures s[1..][i] == 0.0 {
        assert s[1..][i] == s[i + 1];
      }
      SumZeros(s[1..]);
    }
  }
}
