/** What `agg_cred` produces (src/client.py): when every surviving share is a PS
    signature with the same base `h` under its IdP's key share `(x_i, Y_i)`, the
    aggregate is a PS signature with base `h` under the Lagrange-combined key
    `(Σ λ_i * x_i, Σ λ_i * Y_i)`, and `verify_sig` accepts it under the matching
    verification key `(g2, Σ λ_i * x_i * g2, Σ λ_i * Y_i * g2)`. */
module Aggregation {
  import opened Modular
  import opened Challenge
  import opened Protocol
  import opened Threshold
  import opened Client
  import opened Correctness

  // ---------------------------------------------------------------------------
  // Sums of key vectors

  /** Every key vector of `ys` has at least `n` entries. */
  predicate AllLonger(ys: seq<seq<int>>, n: nat)
  {
    forall i :: 0 <= i < |ys| ==> n <= |ys[i]|
  }

  /** The first `n` entries of `Σ_{i < |l|} l_i * ys[i]`, the Lagrange combination
      of the key vectors `ys`. */
  function CombineKeys(l: seq<int>, ys: seq<seq<int>>, n: nat): (y: seq<int>)
    requires |l| <= |ys| && AllLonger(ys, n)
    ensures |y| == n
  {
    if l == [] then seq(n, j => 0)
    else
      var k := |l| - 1;
      var prev := CombineKeys(l[..k], ys, n);
      seq(n, j requires 0 <= j < n => prev[j] + l[k] * ys[k][j])
  }

  /** `Σ_j ms_j * ys[i]_j` for every key vector `ys[i]`. */
  function Dots(ms: seq<int>, ys: seq<seq<int>>): (d: seq<int>)
    requires AllLonger(ys, |ms|)
    ensures |d| == |ys|
  {
    seq(|ys|, i requires 0 <= i < |ys| => Dot(ms, ys[i]))
  }

  /** `Dot` is linear in its second argument. */
  lemma {:induction false} DotLinearRight(l: seq<int>, a: seq<int>, b: seq<int>, v: seq<int>, p: int, q: int)
    requires |l| <= |a| && |l| <= |b| && |l| <= |v|
    requires forall j :: 0 <= j < |l| ==> v[j] == p * a[j] + q * b[j]
    ensures Dot(l, v) == p * Dot(l, a) + q * Dot(l, b)
  {
    if l != [] {
      var k := |l| - 1;
      DotLinearRight(l[..k], a, b, v, p, q);
      assert l[k] * v[k] == p * (l[k] * a[k]) + q * (l[k] * b[k]);
    }
  }

  /** `Dot` respects congruence of its second argument entry by entry. */
  lemma {:induction false} DotCongRight(o: Order, l: seq<int>, a: seq<int>, b: seq<int>)
    requires |l| <= |a| && |l| <= |b|
    requires forall j :: 0 <= j < |l| ==> Cong(o, a[j], b[j])
    ensures Cong(o, Dot(l, a), Dot(l, b))
  {
    if l != [] {
      var k := |l| - 1;
      DotCongRight(o, l[..k], a, b);
      CongMul(o, l[k], a[k], l[k], b[k]);
      CongAdd(o, Dot(l[..k], a), l[k] * a[k], Dot(l[..k], b), l[k] * b[k]);
    }
  }

  /** Weighing the attributes with the combined key equals combining the weighed
      attributes: `Σ_j m_j * (Σ_i l_i * Y_ij) = Σ_i l_i * (Σ_j m_j * Y_ij)`. */
  lemma {:induction false} DotCombineKeys(ms: seq<int>, l: seq<int>, ys: seq<seq<int>>)
    requires |l| <= |ys| && AllLonger(ys, |ms|)
    ensures Dot(ms, CombineKeys(l, ys, |ms|)) == Dot(l, Dots(ms, ys))
  {
    var n := |ms|;
    var y := CombineKeys(l, ys, n);
    if l == [] {
      DotLinearRight(ms, y, y, y, 0, 0);
    } else {
      var k := |l| - 1;
      var prev := CombineKeys(l[..k], ys, n);
      DotCombineKeys(ms, l[..k], ys);
      DotLinearRight(ms, prev, ys[k], y, 1, l[k]);
      assert Dots(ms, ys)[k] == Dot(ms, ys[k]);
    }
  }

  // ---------------------------------------------------------------------------
  // The aggregate signature

  /** Every surviving share `i` is a PS signature on `ms` with base `h` under the
      key share `(xs[i], ys[i])`. */
  predicate SharesSigned(o: Order, kept: seq<Signature>, xs: seq<int>, ys: seq<seq<int>>, h: int, ms: seq<int>)
  {
    |xs| == |kept| && |ys| == |kept| &&
    forall i :: 0 <= i < |kept| ==> SignedWith(o, kept[i], xs[i], ys[i], h, ms)
  }

  /** Each share's key vector covers the attributes it signs. */
  lemma KeysLonger(o: Order, kept: seq<Signature>, xs: seq<int>, ys: seq<seq<int>>, h: int, ms: seq<int>)
    requires SharesSigned(o, kept, xs, ys, h, ms)
    ensures AllLonger(ys, |ms|)
  {
    forall i | 0 <= i < |ys|
      ensures |ms| <= |ys[i]|
    {
      assert SignedWith(o, kept[i], xs[i], ys[i], h, ms);
    }
  }

  /** Weighing the shares with `l`: `Σ l_i * s_i = h * (Σ l_i * x_i + Σ l_i * (Σ_j m_j * Y_ij))`. */
  lemma {:induction false} SharesDot(o: Order, kept: seq<Signature>, xs: seq<int>, ys: seq<seq<int>>, h: int, ms: seq<int>, l: seq<int>)
    requires SharesSigned(o, kept, xs, ys, h, ms) && |l| == |kept|
    requires AllLonger(ys, |ms|)
    ensures Cong(o, Dot(l, SigValues(kept)), h * (Dot(l, xs) + Dot(l, Dots(ms, ys))))
  {
    var sv := SigValues(kept);
    var d := Dots(ms, ys);
    var t := seq(|kept|, i requires 0 <= i < |kept| => h * xs[i] + h * d[i]);
    forall j | 0 <= j < |l|
      ensures Cong(o, sv[j], t[j])
    {
      assert SignedWith(o, kept[j], xs[j], ys[j], h, ms);
      assert h * (xs[j] + d[j]) == t[j];
    }
    DotCongRight(o, l, sv, t);
    DotLinearRight(l, xs, d, t, h, h);
    var a, b := Dot(l, xs), Dot(l, d);
    assert h * a + h * b == h * (a + b);
  }

  /** The aggregate of PS shares with a common base `h` is a PS signature on the
      same attributes, with base `h`, under the Lagrange-combined secret key
      `(Σ λ_i * x_i, Σ λ_i * Y_i)` of the surviving positions. */
  lemma {:induction false} AggregateSigned(o: Order, sigs: seq<Option<Signature>>, xs: seq<int>, ys: seq<seq<int>>, h: int, ms: seq<int>)
    requires Kept(sigs) != []
    requires SharesSigned(o, Kept(sigs), xs, ys, h, ms)
    ensures Aggregate(o, sigs).Done?
    ensures AllLonger(ys, |ms|)
    ensures SignedWith(o, Aggregate(o, sigs).value, Dot(Lagrange(o, Positions(sigs)), xs),
      CombineKeys(Lagrange(o, Positions(sigs)), ys, |ms|), h, ms)
  {
    var kept := Kept(sigs);
    var l := Lagrange(o, Positions(sigs));
    KeysLonger(o, kept, xs, ys, h, ms);
    SharesDot(o, kept, xs, ys, h, ms, l);
    DotCombineKeys(ms, l, ys);
    var agg := Aggregate(o, sigs).value;
    CongTrans(o, agg.s, Dot(l, SigValues(kept)), h * (Dot(l, xs) + Dot(ms, CombineKeys(l, ys, |ms|))));
    assert SignedWith(o, kept[0], xs[0], ys[0], h, ms);
  }

  // ---------------------------------------------------------------------------
  // Verification keys

  /** The verification key `(g2, x * g2, [y_j * g2])` of the secret key `(x, y)`. */
  function PublicKey(o: Order, x: int, y: seq<int>): (vk: Vk)
    ensures vk.g2 == G2Gen && |vk.beta| == |y|
    ensures Cong(o, vk.alpha, x) && forall j :: 0 <= j < |y| ==> Cong(o, vk.beta[j], y[j])
  {
    var beta := seq(|y|, j requires 0 <= j < |y| => Mul(o, y[j], G2Gen));
    assert forall j :: 0 <= j < |y| ==> Cong(o, beta[j], y[j]) by {
      forall j | 0 <= j < |y|
        ensures Cong(o, beta[j], y[j])
      {
        MulCong(o, y[j], G2Gen);
      }
    }
    MulCong(o, x, G2Gen);
    Vk(G2Gen, Mul(o, x, G2Gen), beta)
  }

  /** A PS signature with a base other than the identity passes `verify_sig` under
      the verification key of the key it was made with. */
  lemma {:induction false} SignedVerifies(o: Order, sig: Signature, x: int, y: seq<int>, h: int, ms: seq<int>)
    requires SignedWith(o, sig, x, y, h, ms) && h % o != 0
    ensures PsCheck(o, sig, PublicKey(o, x, y), ms) == Done(true)
  {
    var vk := PublicKey(o, x, y);
    PsCheckMeaning(o, sig, vk, ms);
    DotCongRight(o, ms, vk.beta, y);
    CongAdd(o, vk.alpha, Dot(ms, vk.beta), x, Dot(ms, y));
    CongMul(o, sig.h, vk.alpha + Dot(ms, vk.beta), h, x + Dot(ms, y));
    CongSymm(o, sig.s, h * (x + Dot(ms, y)));
    CongTrans(o, sig.h * (vk.alpha + Dot(ms, vk.beta)), h * (x + Dot(ms, y)), sig.s);
    assert sig.s * vk.g2 == sig.s;
  }

  /** The aggregate of PS shares with a common base other than the identity passes
      `verify_sig` under the verification key of the Lagrange-combined secret key. */
  lemma {:induction false} AggregateVerifies(o: Order, sigs: seq<Option<Signature>>, xs: seq<int>, ys: seq<seq<int>>, h: int, ms: seq<int>)
    requires Kept(sigs) != [] && h % o != 0
    requires SharesSigned(o, Kept(sigs), xs, ys, h, ms)
    ensures Aggregate(o, sigs).Done?
    ensures AllLonger(ys, |ms|)
    ensures PsCheck(o, Aggregate(o, sigs).value,
      PublicKey(o, Dot(Lagrange(o, Positions(sigs)), xs), CombineKeys(Lagrange(o, Positions(sigs)), ys, |ms|)), ms) == Done(true)
  {
    AggregateSigned(o, sigs, xs, ys, h, ms);
    var l := Lagrange(o, Positions(sigs));
    SignedVerifies(o, Aggregate(o, sigs).value, Dot(l, xs), CombineKeys(l, ys, |ms|), h, ms);
  }
}
