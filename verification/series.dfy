/**
 * Per-snapshot time series (a load's demand, a storage unit's inflow) and
 * the two things the scripts do with them: multiply every entry by a scalar
 * and sum over the snapshots.
 */
module Series {

  /** The sum of a series over all snapshots (pandas' column `sum()`). */
  function Total(s: seq<real>): real
  {
    if s == [] then 0.0 else Total(s[..|s| - 1]) + s[|s| - 1]
  }

  /** Every entry multiplied by `f` (pandas' `column *= f`). */
  function Scale(s: seq<real>, f: real): (r: seq<real>)
    ensures |r| == |s|
    ensures forall i :: 0 <= i < |s| ==> r[i] == s[i] * f
  {
    seq(|s|, i requires 0 <= i < |s| => s[i] * f)
  }

  /** Scaling a series scales its total by the same factor. */
  lemma {:induction false} TotalScale(s: seq<real>, f: real)
    ensures Total(Scale(s, f)) == f * Total(s)
  {
    if s != [] {
      var init, last := s[..|s| - 1], s[|s| - 1];
      TotalScale(init, f);
      ScaleInit(s, f);
      assert Total(Scale(s, f)) == Total(Scale(init, f)) + last * f;
      Distributes(f, Total(init), last);
    }
  }

  /** Scaling commutes with dropping the last snapshot. */
  lemma ScaleInit(s: seq<real>, f: real)
    requires s != []
    ensures Scale(s, f)[..|s| - 1] == Scale(s[..|s| - 1], f)
  {
    var init := s[..|s| - 1];
    assert forall i :: 0 <= i < |init| ==> Scale(s, f)[..|s| - 1][i] == Scale(init, f)[i];
  }

  /** `f (t + x) == f t + x f`. */
  lemma Distributes(f: real, t: real, x: real)
    ensures f * (t + x) == f * t + x * f
  {
  }

  /** A series of zeros sums to zero. */
  lemma {:induction false} TotalOfZeros(s: seq<real>)
    requires forall i :: 0 <= i < |s| ==> s[i] == 0.0
    ensures Total(s) == 0.0
  {
    if s != [] {
      TotalOfZeros(s[..|s| - 1]);
    }
  }

  /** Scaling by one keeps a series. */
  lemma ScaleByOne(s: seq<real>)
    ensures Scale(s, 1.0) == s
  {
  }

  /** `x f (1 / f) == x` for a non-zero `f`. */
  lemma MulInverse(x: real, f: real)
    requires f != 0.0
    ensures x * f * (1.0 / f) == x
  {
    var g := 1.0 / f;
    assert f * g == 1.0;
    var xf := x * f;
    assert xf * g == x * (f * g);
  }

  /** Scaling by `f` and then by `1 / f` gives back the series. */
  lemma ScaleInverse(s: seq<real>, f: real)
    requires f != 0.0
    ensures Scale(Scale(s, f), 1.0 / f) == s
  {
    forall i | 0 <= i < |s|
      ensures Scale(Scale(s, f), 1.0 / f)[i] == s[i]
    {
      MulInverse(s[i], f);
    }
  }
}
