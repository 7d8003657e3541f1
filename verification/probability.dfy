/** Exact-real probability vectors and matrices: sums, scaling and the
    divide-by-the-total normalisation the teacher applies to policies and to
    its posterior. */
module Probability {

  function Sum(v: seq<real>): real
  {
    if |v| == 0 then 0.0 else v[0] + Sum(v[1..])
  }

  predicate NonNeg(v: seq<real>)
  {
    forall i | 0 <= i < |v| :: 0.0 <= v[i]
  }

  predicate IsDistribution(v: seq<real>)
  {
    NonNeg(v) && Sum(v) == 1.0
  }

  function Scale(v: seq<real>, k: real): (r: seq<real>)
    ensures |r| == |v|
  {
    seq(|v|, i requires 0 <= i < |v| => v[i] * k)
  }

  /** Divide every entry by the total (`p /= p.sum()` in the policies and in `observe`). */
  function Normalize(v: seq<real>): (r: seq<real>)
    requires Sum(v) != 0.0
    ensures |r| == |v|
  {
    Scale(v, 1.0 / Sum(v))
  }

  lemma {:induction false} SumNonNeg(v: seq<real>)
    requires NonNeg(v)
    ensures Sum(v) >= 0.0
  {
    if |v| > 0 {
      SumNonNeg(v[1..]);
    }
  }

  lemma {:induction false} SumScale(v: seq<real>, k: real)
    ensures Sum(Scale(v, k)) == Sum(v) * k
  {
    if |v| > 0 {
      ScaleTail(v, k);
      SumScale(v[1..], k);
    }
  }

  lemma ScaleTail(v: seq<real>, k: real)
    requires |v| > 0
    ensures Scale(v, k)[1..] == Scale(v[1..], k)
  {
    forall i | 0 <= i < |v| - 1
      ensures Scale(v, k)[1..][i] == Scale(v[1..], k)[i]
    {
    }
  }

  lemma ScaleNonNeg(v: seq<real>, k: real)
    requires NonNeg(v) && k >= 0.0
    ensures NonNeg(Scale(v, k))
  {
    forall i | 0 <= i < |v|
      ensures 0.0 <= Scale(v, k)[i]
    {
      assert Scale(v, k)[i] == v[i] * k;
    }
  }

  /** A normalised non-negative vector with a positive total is a
      probability distribution. */
  lemma NormalizeIsDistribution(v: seq<real>)
    requires NonNeg(v) && Sum(v) > 0.0
    ensures IsDistribution(Normalize(v))
  {
    var s := Sum(v);
    SumScale(v, 1.0 / s);
    ScaleNonNeg(v, 1.0 / s);
    assert s * (1.0 / s) == 1.0;
  }

  /** Normalising keeps the sign of every entry: positive entries stay
      positive and zero entries stay zero. */
  lemma NormalizeSign(v: seq<real>, i: int)
    requires NonNeg(v) && Sum(v) > 0.0 && 0 <= i < |v|
    ensures v[i] > 0.0 ==> Normalize(v)[i] > 0.0
    ensures v[i] == 0.0 ==> Normalize(v)[i] == 0.0
  {
    var k := 1.0 / Sum(v);
    assert k > 0.0;
    assert Normalize(v)[i] == v[i] * k;
  }

  /** Scaling by a positive factor before normalising changes nothing. */
  lemma NormalizeScaleInvariant(v: seq<real>, k: real)
    requires Sum(v) != 0.0 && k > 0.0
    ensures Sum(Scale(v, k)) != 0.0
    ensures Normalize(Scale(v, k)) == Normalize(v)
  {
    SumScale(v, k);
    var s := Sum(v);
    forall i | 0 <= i < |v|
      ensures Normalize(Scale(v, k))[i] == Normalize(v)[i]
    {
      calc {
        Normalize(Scale(v, k))[i];
        (v[i] * k) * (1.0 / (s * k));
        { assert (v[i] * k) * (1.0 / (s * k)) == v[i] / s; }
        v[i] * (1.0 / s);
      }
    }
  }

  /** Sum of a vector whose entries all equal c. */
  lemma {:induction false} SumConstant(v: seq<real>, c: real)
    requires forall i | 0 <= i < |v| :: v[i] == c
    ensures Sum(v) == (|v| as real) * c
  {
    if |v| > 0 {
      SumConstant(v[1..], c);
    }
  }

  /** A vector with a single 1 and 0 elsewhere sums to 1. */
  lemma {:induction false} SumIndicator(v: seq<real>, k: int)
    requires 0 <= k < |v|
    requires forall i | 0 <= i < |v| :: v[i] == if i == k then 1.0 else 0.0
    ensures Sum(v) == 1.0
  {
    if k == 0 {
      SumConstant(v[1..], 0.0);
    } else {
      SumIndicator(v[1..], k - 1);
    }
  }

  /** The sum of a six-entry vector, written out. */
  lemma SumSix(v: seq<real>)
    requires |v| == 6
    ensures Sum(v) == v[0] + v[1] + v[2] + v[3] + v[4] + v[5]
  {
    assert v[1..][1..] == v[2..];
    assert v[2..][1..] == v[3..];
    assert v[3..][1..] == v[4..];
    assert v[4..][1..] == v[5..];
    assert v[5..][1..] == [];
    assert Sum(v[5..]) == v[5];
    assert Sum(v[4..]) == v[4] + v[5];
    assert Sum(v[3..]) == v[3] + v[4] + v[5];
    assert Sum(v[2..]) == v[2] + v[3] + v[4] + v[5];
    assert Sum(v[1..]) == v[1] + v[2] + v[3] + v[4] + v[5];
  }

  // ---------------------------------------------------------------- matrices

  predicate Rectangular(m: seq<seq<real>>, cols: nat)
  {
    forall i | 0 <= i < |m| :: |m[i]| == cols
  }

  /** Sum of all entries, row by row. */
  function Sum2(m: seq<seq<real>>): real
  {
    if |m| == 0 then 0.0 else Sum(m[0]) + Sum2(m[1..])
  }

  predicate NonNeg2(m: seq<seq<real>>)
  {
    forall i | 0 <= i < |m| :: NonNeg(m[i])
  }

  predicate IsDistribution2(m: seq<seq<real>>)
  {
    NonNeg2(m) && Sum2(m) == 1.0
  }

  function Scale2(m: seq<seq<real>>, k: real): (r: seq<seq<real>>)
    ensures |r| == |m|
  {
    seq(|m|, i requires 0 <= i < |m| => Scale(m[i], k))
  }

  /** Divide every entry of a matrix by the matrix total. */
  function Normalize2(m: seq<seq<real>>): (r: seq<seq<real>>)
    requires Sum2(m) != 0.0
    ensures |r| == |m|
  {
    Scale2(m, 1.0 / Sum2(m))
  }

  lemma {:induction false} Sum2NonNeg(m: seq<seq<real>>)
    requires NonNeg2(m)
    ensures Sum2(m) >= 0.0
  {
    if |m| > 0 {
      SumNonNeg(m[0]);
      Sum2NonNeg(m[1..]);
    }
  }

  lemma {:induction false} Sum2Scale(m: seq<seq<real>>, k: real)
    ensures Sum2(Scale2(m, k)) == Sum2(m) * k
  {
    if |m| > 0 {
      var sm := Scale2(m, k);
      Scale2Split(m, k);
      SumScale(m[0], k);
      Sum2Scale(m[1..], k);
      assert Sum2(sm) == Sum(sm[0]) + Sum2(sm[1..]);
      Distribute(Sum(m[0]), Sum2(m[1..]), k);
    }
  }

  /** The first row and the remaining rows of a scaled matrix. */
  lemma Scale2Split(m: seq<seq<real>>, k: real)
    requires |m| > 0
    ensures Scale2(m, k)[0] == Scale(m[0], k)
    ensures Scale2(m, k)[1..] == Scale2(m[1..], k)
  {
    assert forall i | 0 <= i < |m| - 1 :: Scale2(m, k)[1..][i] == Scale2(m[1..], k)[i];
  }

  lemma Distribute(a: real, b: real, k: real)
    ensures a * k + b * k == (a + b) * k
  {
  }

  /** A normalised non-negative matrix with a positive total is a joint
      probability distribution. */
  lemma Normalize2IsDistribution(m: seq<seq<real>>)
    requires NonNeg2(m) && Sum2(m) > 0.0
    ensures IsDistribution2(Normalize2(m))
  {
    var s := Sum2(m);
    Sum2Scale(m, 1.0 / s);
    forall i | 0 <= i < |m|
      ensures NonNeg(Normalize2(m)[i])
    {
      ScaleNonNeg(m[i], 1.0 / s);
    }
    assert s * (1.0 / s) == 1.0;
  }

  /** Scaling a matrix by a positive factor before normalising changes
      nothing. */
  lemma Normalize2ScaleInvariant(m: seq<seq<real>>, k: real)
    requires Sum2(m) != 0.0 && k > 0.0
    ensures Sum2(Scale2(m, k)) != 0.0
    ensures Normalize2(Scale2(m, k)) == Normalize2(m)
  {
    Sum2Scale(m, k);
    forall i | 0 <= i < |m|
      ensures Normalize2(Scale2(m, k))[i] == Normalize2(m)[i]
    {
      var s := Sum2(m);
      assert k * (1.0 / (s * k)) == 1.0 / s;
      var sm := Scale2(m, k);
      assert Sum2(sm) == s * k;
      assert sm[i] == Scale(m[i], k);
      assert Normalize2(sm)[i] == Scale(sm[i], 1.0 / (s * k));
      ScaleTwice(m[i], k, 1.0 / (s * k), 1.0 / s);
    }
  }

  lemma ScaleTwice(v: seq<real>, k: real, a: real, b: real)
    requires k * a == b
    ensures Scale(Scale(v, k), a) == Scale(v, b)
  {
    forall i | 0 <= i < |v|
      ensures Scale(Scale(v, k), a)[i] == Scale(v, b)[i]
    {
      assert (v[i] * k) * a == v[i] * (k * a);
    }
  }

  /** Sum of a matrix whose entries all equal c. */
  lemma {:induction false} Sum2Constant(m: seq<seq<real>>, cols: nat, c: real)
    requires Rectangular(m, cols)
    requires forall i, j | 0 <= i < |m| && 0 <= j < |m[i]| :: m[i][j] == c
    ensures Sum2(m) == (|m| as real) * (cols as real) * c
  {
    if |m| > 0 {
      SumConstant(m[0], c);
      Sum2Constant(m[1..], cols, c);
    }
  }

  /** Entry-wise product of two matrices of the same shape. */
  function Hadamard(m: seq<seq<real>>, l: seq<seq<real>>, cols: nat): (p: seq<seq<real>>)
    requires |m| == |l| && Rectangular(m, cols) && Rectangular(l, cols)
    ensures |p| == |m| && Rectangular(p, cols)
    ensures forall i, j | 0 <= i < |m| && 0 <= j < cols :: p[i][j] == m[i][j] * l[i][j]
    ensures NonNeg2(m) && NonNeg2(l) ==> NonNeg2(p)
  {
    var p := seq(|m|, i requires 0 <= i < |m| => seq(cols, j requires 0 <= j < cols => m[i][j] * l[i][j]));
    assert NonNeg2(m) && NonNeg2(l) ==> NonNeg2(p) by {
      if NonNeg2(m) && NonNeg2(l) {
        forall i | 0 <= i < |m|
          ensures NonNeg(p[i])
        {
          assert NonNeg(m[i]) && NonNeg(l[i]);
          forall j | 0 <= j < cols
            ensures 0.0 <= p[i][j]
          {
            MulNonNeg(m[i][j], l[i][j]);
          }
        }
      }
    }
    p
  }

  /** The posterior share of a hypothesis: prior times likelihood over the
      evidence. */
  function Share(prior: real, lik: real, evidence: real): real
    requires evidence != 0.0
  {
    prior * lik / evidence
  }

  /** Bayes' rule over a matrix of hypotheses: multiply each prior weight by
      its likelihood and renormalise. */
  function Posterior(prior: seq<seq<real>>, lik: seq<seq<real>>, cols: nat): (post: seq<seq<real>>)
    requires |prior| == |lik| && Rectangular(prior, cols) && Rectangular(lik, cols)
    requires NonNeg2(prior) && NonNeg2(lik) && Sum2(Hadamard(prior, lik, cols)) != 0.0
    ensures |post| == |prior| && Rectangular(post, cols) && IsDistribution2(post)
    ensures forall i, j | 0 <= i < |prior| && 0 <= j < cols ::
              post[i][j] == Share(prior[i][j], lik[i][j], Sum2(Hadamard(prior, lik, cols)))
    ensures forall i, j | 0 <= i < |prior| && 0 <= j < cols :: lik[i][j] == 0.0 ==> post[i][j] == 0.0
  {
    var m := Hadamard(prior, lik, cols);
    Sum2NonNeg(m);
    Normalize2IsDistribution(m);
    Normalize2Entries(m, cols);
    Normalize2(m)
  }

  /** Scaling the first factor scales the product. */
  lemma HadamardScale(m: seq<seq<real>>, l: seq<seq<real>>, cols: nat, k: real)
    requires |m| == |l| && Rectangular(m, cols) && Rectangular(l, cols)
    ensures Rectangular(Scale2(m, k), cols)
    ensures Hadamard(Scale2(m, k), l, cols) == Scale2(Hadamard(m, l, cols), k)
  {
    var lhs := Hadamard(Scale2(m, k), l, cols);
    var rhs := Scale2(Hadamard(m, l, cols), k);
    forall i | 0 <= i < |m|
      ensures lhs[i] == rhs[i]
    {
      forall j | 0 <= j < cols
        ensures lhs[i][j] == rhs[i][j]
      {
        assert Scale2(m, k)[i][j] == m[i][j] * k;
        assert rhs[i][j] == (m[i][j] * l[i][j]) * k;
        assert (m[i][j] * k) * l[i][j] == (m[i][j] * l[i][j]) * k;
      }
    }
  }

  lemma ScaleNonNeg2(m: seq<seq<real>>, k: real)
    requires NonNeg2(m) && k >= 0.0
    ensures NonNeg2(Scale2(m, k))
  {
    forall i | 0 <= i < |m|
      ensures NonNeg(Scale2(m, k)[i])
    {
      ScaleNonNeg(m[i], k);
    }
  }

  lemma MulNonNeg(a: real, b: real)
    requires a >= 0.0 && b >= 0.0
    ensures a * b >= 0.0
  {
  }

  /** Normalising divides every entry by the total. */
  lemma Normalize2Entries(m: seq<seq<real>>, cols: nat)
    requires Rectangular(m, cols) && Sum2(m) != 0.0
    ensures Rectangular(Normalize2(m), cols)
    ensures forall i, j | 0 <= i < |m| && 0 <= j < cols :: Normalize2(m)[i][j] == m[i][j] / Sum2(m)
  {
    var s := Sum2(m);
    forall i | 0 <= i < |m|
      ensures |Normalize2(m)[i]| == cols
      ensures forall j | 0 <= j < cols :: Normalize2(m)[i][j] == m[i][j] / s
    {
      assert Normalize2(m)[i] == Scale(m[i], 1.0 / s);
      DivideEntries(m[i], s);
    }
  }

  lemma DivideEntries(v: seq<real>, s: real)
    requires s != 0.0
    ensures forall j | 0 <= j < |v| :: Scale(v, 1.0 / s)[j] == v[j] / s
  {
    forall j | 0 <= j < |v|
      ensures Scale(v, 1.0 / s)[j] == v[j] / s
    {
      assert v[j] * (1.0 / s) == v[j] / s;
    }
  }

  // ------------------------------------------------------------------ argmax

  /** `i` indexes a largest entry of `v`. */
  predicate IsArgmax(v: seq<real>, i: int)
  {
    0 <= i < |v| && forall j | 0 <= j < |v| :: v[j] <= v[i]
  }
}
