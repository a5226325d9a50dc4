/** Vector reductions over exact reals: the arithmetic gonum's mat.Sum,
    mat.Max, Scale and Sub perform on one row or column. */
module Sums {

  /** The sum of all entries, first to last. */
  function Sum(v: seq<real>): real {
    if |v| == 0 then 0.0 else v[0] + Sum(v[1..])
  }

  /** `n` zeros. */
  function Zeros(n: nat): (z: seq<real>)
    ensures |z| == n
    ensures forall i :: 0 <= i < n ==> z[i] == 0.0
  {
    seq(n, _ => 0.0)
  }

  /** Every entry multiplied by `c`. */
  function Scale(c: real, v: seq<real>): (w: seq<real>)
    ensures |w| == |v|
    ensures forall i :: 0 <= i < |v| ==> w[i] == c * v[i]
  {
    seq(|v|, i requires 0 <= i < |v| => c * v[i])
  }

  /** Entry-wise sum of two vectors of one length. */
  function Add(a: seq<real>, b: seq<real>): (w: seq<real>)
    requires |a| == |b|
    ensures |w| == |a|
    ensures forall i :: 0 <= i < |a| ==> w[i] == a[i] + b[i]
  {
    seq(|a|, i requires 0 <= i < |a| => a[i] + b[i])
  }

  /** Entry-wise difference of two vectors of one length. */
  function Sub(a: seq<real>, b: seq<real>): (w: seq<real>)
    requires |a| == |b|
    ensures |w| == |a|
    ensures forall i :: 0 <= i < |a| ==> w[i] == a[i] - b[i]
  {
    seq(|a|, i requires 0 <= i < |a| => a[i] - b[i])
  }

  /** The largest entry: no entry exceeds it and some entry equals it. */
  function MaxOf(v: seq<real>): (m: real)
    requires |v| >= 1
    ensures forall i :: 0 <= i < |v| ==> v[i] <= m
    ensures exists i :: 0 <= i < |v| && v[i] == m
  {
    if |v| == 1 then v[0]
    else
      var rest := MaxOf(v[1..]);
      assert forall i :: 1 <= i < |v| ==> v[i] == v[1..][i - 1];
      if v[0] < rest then rest else v[0]
  }

  /** Summing a concatenation sums the parts. */
  lemma {:induction false} SumAppend(a: seq<real>, b: seq<real>)
    ensures Sum(a + b) == Sum(a) + Sum(b)
  {
    if |a| == 0 {
      assert a + b == b;
    } else {
      assert (a + b)[1..] == a[1..] + b;
      SumAppend(a[1..], b);
    }
  }

  /** Appending one entry adds it to the sum. */
  lemma SumSnoc(a: seq<real>, x: real)
    ensures Sum(a + [x]) == Sum(a) + x
  {
    SumAppend(a, [x]);
  }

  /** The sum of zeros is zero. */
  lemma {:induction false} SumZeros(v: seq<real>)
    requires forall i :: 0 <= i < |v| ==> v[i] == 0.0
    ensures Sum(v) == 0.0
  {
    if |v| > 0 {
      SumZeros(v[1..]);
    }
  }

  /** A constant factor comes out of the sum. */
  lemma {:induction false} SumScale(c: real, v: seq<real>)
    ensures Sum(Scale(c, v)) == c * Sum(v)
  {
    if |v| > 0 {
      forall i | 0 <= i < |v| - 1
        ensures Scale(c, v)[1..][i] == Scale(c, v[1..])[i]
      {
        assert v[1..][i] == v[i + 1];
      }
      assert Scale(c, v)[1..] == Scale(c, v[1..]);
      SumScale(c, v[1..]);
    }
  }

  /** Summing an entry-wise sum adds the sums. */
  lemma {:induction false} SumAdd(a: seq<real>, b: seq<real>)
    requires |a| == |b|
    ensures Sum(Add(a, b)) == Sum(a) + Sum(b)
  {
    if |a| > 0 {
      assert Add(a, b)[1..] == Add(a[1..], b[1..]);
      SumAdd(a[1..], b[1..]);
    }
  }

  /** Summing an entry-wise difference subtracts the sums. */
  lemma {:induction false} SumSub(a: seq<real>, b: seq<real>)
    requires |a| == |b|
    ensures Sum(Sub(a, b)) == Sum(a) - Sum(b)
  {
    if |a| > 0 {
      assert Sub(a, b)[1..] == Sub(a[1..], b[1..]);
      SumSub(a[1..], b[1..]);
    }
  }

  /** Summing the difference of two scaled vectors gives the difference of
      the scaled sums. */
  lemma SumScaledDifference(c: real, a: seq<real>, d: real, b: seq<real>)
    requires |a| == |b|
    ensures Sum(Sub(Scale(c, a), Scale(d, b))) == c * Sum(a) - d * Sum(b)
  {
    SumSub(Scale(c, a), Scale(d, b));
    SumScale(c, a);
    SumScale(d, b);
  }
}
