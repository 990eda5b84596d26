/** Completeness and correctness of the protocol in the exponent model: an honestly
    built issuance proof passes the IdP's check (src/client.py against src/idp.py),
    unblinding a blind signature share gives a PS signature on the hidden and public
    attributes (src/idp.py and src/client.py), and an honest presentation of a valid
    credential is accepted by the relying party (src/client.py against src/rp.py). */
module Correctness {
  import opened Modular
  import opened Challenge
  import opened Protocol
  import opened Client
  import opened IdP
  import opened RP

  // ---------------------------------------------------------------------------
  // Linear algebra of responses and sums

  /** A Schnorr response is `w - c * x` up to the order. */
  lemma {:induction false} ResponseCong(o: Order, w: int, c: int, x: int)
    ensures Cong(o, Response(o, w, c, x), w - c * x)
  {
    var r := Response(o, w, c, x);
    CongAdd(o, r + c * x, -(c * x), w, -(c * x));
  }

  /** The same, as a linear combination of the witness and the secret. */
  lemma {:induction false} ResponseLinear(o: Order, w: int, c: int, x: int)
    ensures Affine(o, Response(o, w, c, x), 1, w, -c, x)
  {
    ResponseCong(o, w, c, x);
    UnitDifference(w, c, x);
  }

  /** A response times a point: `(w - c * x) * P = w * P - c * (x * P)`. */
  lemma {:induction false} ResponseTerm(o: Order, w: int, c: int, x: int, p: int)
    ensures Cong(o, Mul(o, Response(o, w, c, x), p), w * p - c * (x * p))
  {
    var r := Response(o, w, c, x);
    ResponseCong(o, w, c, x);
    CongMul(o, r, p, w - c * x, p);
    ScaleDifference(w, c, x, p);
    MulCong(o, r, p);
  }

  /** Dot products are linear in their left argument. */
  lemma {:induction false} DotLinear(o: Order, t: seq<int>, u: seq<int>, v: seq<int>, p: seq<int>, a: int, b: int)
    requires |t| == |u| == |v| <= |p|
    requires forall i :: 0 <= i < |t| ==> Affine(o, t[i], a, u[i], b, v[i])
    ensures Affine(o, Dot(t, p), a, Dot(u, p), b, Dot(v, p))
  {
    if t != [] {
      var n := |t| - 1;
      assert forall i :: 0 <= i < n ==> t[..n][i] == t[i] && u[..n][i] == u[i] && v[..n][i] == v[i];
      DotLinear(o, t[..n], u[..n], v[..n], p, a, b);
      LinearProduct(o, t[n], u[n], v[n], p[n], a, b);
      LinearStep(o, Dot(t[..n], p), Dot(u[..n], p), Dot(v[..n], p), t[n] * p[n], u[n] * p[n], v[n] * p[n], a, b);
    }
  }

  lemma {:induction false} LinearProduct(o: Order, t: int, u: int, v: int, p: int, a: int, b: int)
    requires Affine(o, t, a, u, b, v)
    ensures Affine(o, t * p, a, u * p, b, v * p)
  {
    var w := a * u + b * v;
    CongMul(o, t, p, w, p);
    Distribute(a, u, b, v, p);
    assert w * p == a * (u * p) + b * (v * p);
  }

  /** A dot product over a concatenation splits at the seam. */
  lemma {:induction false} DotAppend(xs: seq<int>, zs: seq<int>, ys: seq<int>)
    requires |xs| + |zs| <= |ys|
    ensures Dot(xs + zs, ys) == Dot(xs, ys) + Dot(zs, ys[|xs|..])
  {
    if zs == [] {
      assert xs + zs == xs;
    } else {
      var n := |zs| - 1;
      assert (xs + zs)[..|xs| + n] == xs + zs[..n];
      DotAppend(xs, zs[..n], ys);
      assert ys[|xs|..][n] == ys[|xs| + n];
    }
  }

  /** `DotAppend` with the seam given by a length equal to the first part's. */
  lemma {:induction false} DotAppendAt(xs: seq<int>, zs: seq<int>, ys: seq<int>, n: nat)
    requires n == |xs| && |xs| + |zs| <= |ys|
    ensures Dot(xs + zs, ys) == Dot(xs, ys) + Dot(zs, ys[n..])
  {
    DotAppend(xs, zs, ys);
  }

  /** `zip(scalars, points)` with the scalars on the left is the term list of the
      points weighted by the scalars. */
  lemma {:induction false} ZipMulTerms(o: Order, ys: seq<int>, xs: seq<int>)
    requires |xs| <= |ys|
    ensures ZipMul(o, ys, xs) == Terms(o, xs, ys)
  {
    assert forall i :: 0 <= i < |xs| ==> ys[i] * xs[i] == xs[i] * ys[i];
  }

  /** A folded multi-scalar sum is its start plus the dot product. */
  lemma {:induction false} FoldTerms(o: Order, start: int, xs: seq<int>, ys: seq<int>)
    requires |xs| <= |ys|
    ensures Cong(o, Fold(o, start, Terms(o, xs, ys)), start + Dot(xs, ys))
  {
    FoldCong(o, start, Terms(o, xs, ys));
    TermsDot(o, xs, ys);
    CongAdd(o, start, RawSum(Terms(o, xs, ys)), start, Dot(xs, ys));
  }

  /** Selected terms only depend on the selected scalars. */
  lemma {:induction false} MaskedTermsAgree(o: Order, mask: seq<bool>, xs: seq<int>, ys: seq<int>, points: seq<int>)
    requires MaskFits(mask, xs, points) && MaskFits(mask, ys, points)
    requires forall i :: 0 <= i < Reach(mask) && mask[i] ==> xs[i] == ys[i]
    ensures MaskedTerms(o, mask, xs, points) == MaskedTerms(o, mask, ys, points)
  {
    if mask != [] {
      var n := |mask| - 1;
      MaskedTermsAgree(o, mask[..n], xs, ys, points);
      MaskedStep(o, mask, xs, points);
      MaskedStep(o, mask, ys, points);
    }
  }

  // ---------------------------------------------------------------------------
  // Issuance

  /** With the hidden attributes first, `Bw` lists `wk[j] * pk + wm[j] * h` for the
      first `|HiddenValues(attrs)|` positions. */
  lemma {:induction false} HiddenCommitmentsLayout(o: Order, attrs: seq<Attribute>, wk: seq<int>, wm: seq<int>, pk: int, h: int)
    requires HiddenFirst(attrs)
    requires forall i :: 0 <= i < |attrs| && attrs[i].hidden ==> i < |wk| && i < |wm|
    requires |HiddenValues(attrs)| <= |wk| && |HiddenValues(attrs)| <= |wm|
    ensures |HiddenCommitments(o, attrs, wk, wm, pk, h)| == |HiddenValues(attrs)|
    ensures forall j :: 0 <= j < |HiddenValues(attrs)| ==>
      HiddenCommitments(o, attrs, wk, wm, pk, h)[j] == Add(o, Mul(o, wk[j], pk), Mul(o, wm[j], h))
  {
    if attrs != [] {
      var n := |attrs| - 1;
      var init := attrs[..n];
      assert forall i :: 0 <= i < n ==> init[i] == attrs[i];
      assert HiddenFirst(init);
      HiddenPrefix(attrs, n);
      HiddenCommitmentsLayout(o, init, wk, wm, pk, h);
      HiddenFirstLayout(attrs);
      HiddenFirstLayout(init);
    }
  }

  /** One entry of `Va`: `c * (k * g1) + (wk - c * k) * g1 = wk * g1`. */
  lemma {:induction false} VaEntry(o: Order, c: int, a: int, k: int, w: int)
    requires Cong(o, a, k * G1Gen)
    ensures Add(o, Mul(o, c, a), Mul(o, Response(o, w, c, k), G1Gen)) == Mul(o, w, G1Gen)
  {
    ResponseTerm(o, w, c, k, G1Gen);
    MulCong(o, c, a);
    CongMul(o, c, a, c, k * G1Gen);
    AddCong(o, Mul(o, c, a), Mul(o, Response(o, w, c, k), G1Gen), c * (k * G1Gen), w * G1Gen - c * (k * G1Gen));
    MulCong(o, w, G1Gen);
    CongReduced(o, Add(o, Mul(o, c, a), Mul(o, Response(o, w, c, k), G1Gen)), Mul(o, w, G1Gen));
  }

  /** One entry of `Vb`: `c * (k * pk + m * h) + (wk - c * k) * pk + (wm - c * m) * h
      = wk * pk + wm * h`. */
  lemma {:induction false} VbEntry(o: Order, c: int, b: int, k: int, pk: int, m: int, h: int, wk: int, wm: int)
    requires Cong(o, b, k * pk + m * h)
    ensures Add(o, Add(o, Mul(o, c, b), Mul(o, Response(o, wk, c, k), pk)), Mul(o, Response(o, wm, c, m), h))
         == Add(o, Mul(o, wk, pk), Mul(o, wm, h))
  {
    var kp, mh := k * pk, m * h;
    MulCong(o, c, b);
    CongMul(o, c, b, c, kp + mh);
    SplitProduct(c, kp, mh);
    ResponseTerm(o, wk, c, k, pk);
    ResponseTerm(o, wm, c, m, h);
    var left := Add(o, Mul(o, c, b), Mul(o, Response(o, wk, c, k), pk));
    AddCong(o, Mul(o, c, b), Mul(o, Response(o, wk, c, k), pk), c * kp + c * mh, wk * pk - c * kp);
    AddCong(o, left, Mul(o, Response(o, wm, c, m), h), c * mh + wk * pk, wm * h - c * mh);
    MulCong(o, wk, pk);
    MulCong(o, wm, h);
    AddCong(o, Mul(o, wk, pk), Mul(o, wm, h), wk * pk, wm * h);
    CongReduced(o, Add(o, left, Mul(o, Response(o, wm, c, m), h)), Add(o, Mul(o, wk, pk), Mul(o, wm, h)));
  }

  /** `Vc = c * C + rr * g1 + Σ ra_i * hs_i` is the prover's `Cw = wr * g1 + Σ wm_i * hs_i`
      when `C` commits to the attribute hashes with randomness `r`. */
  lemma {:induction false} VcMatches(s: Setup, attrs: seq<Attribute>, C: int, r: int, c: int, wr: int, wm: seq<int>)
    requires |wm| == |attrs| <= |s.hs|
    requires Commitment(s, Hashes(s, attrs), r) == Done(C)
    ensures Cong(s.o,
      Fold(s.o, Add(s.o, Mul(s.o, c, C), Mul(s.o, Response(s.o, wr, c, r), G1Gen)), Terms(s.o, Responses(s.o, wm, c, Hashes(s, attrs)), s.hs)),
      Fold(s.o, Mul(s.o, wr, G1Gen), Terms(s.o, wm, s.hs)))
  {
    var o := s.o;
    var ms := Hashes(s, attrs);
    var ra := Responses(o, wm, c, ms);
    var d := Dot(ms, s.hs);
    var rr := Response(o, wr, c, r);
    CommitmentOpens(s, ms, r);
    // The starting value: c * (r + d) + (wr - c * r) = wr + c * d.
    MulCong(o, c, C);
    CongMul(o, c, C, c, r + d);
    SplitProduct(c, r, d);
    ResponseCong(o, wr, c, r);
    MulCong(o, rr, G1Gen);
    var start := Add(o, Mul(o, c, C), Mul(o, rr, G1Gen));
    AddCong(o, Mul(o, c, C), Mul(o, rr, G1Gen), c * r + c * d, wr - c * r);
    // The sum: Σ (wm_i - c * m_i) * hs_i = Σ wm_i * hs_i - c * d.
    forall i | 0 <= i < |ra| ensures Affine(o, ra[i], 1, wm[i], -c, ms[i]) {
      ResponseCong(o, wm[i], c, ms[i]);
    }
    DotLinear(o, ra, wm, ms, s.hs, 1, -c);
    NegateProduct(c, d);
    FoldTerms(o, start, ra, s.hs);
    CongAdd(o, start, Dot(ra, s.hs), wr + c * d, Dot(wm, s.hs) - c * d);
    // The prover's side.
    FoldTerms(o, Mul(o, wr, G1Gen), wm, s.hs);
    MulCong(o, wr, G1Gen);
    CongAdd(o, Mul(o, wr, G1Gen), Dot(wm, s.hs), wr, Dot(wm, s.hs));
  }

  /** What an honest client puts in a request: ciphertexts `(k_i * g1, k_i * pk + m_i * h)`
      of the hidden attribute hashes, one per hidden attribute, with the hidden
      attributes first, and a commitment `C` opening to all attribute hashes with
      randomness `r`. */
  predicate HonestRequest(s: Setup, pk: int, C: int, cypher: seq<(int, int)>, attrs: seq<Attribute>, k: seq<int>, r: int)
  {
    HiddenFirst(attrs) && |attrs| <= |s.hs|
    && 1 <= |k| && |k| == |HiddenValues(attrs)| && |cypher| == |k|
    && Commitment(s, Hashes(s, attrs), r) == Done(C)
    && (forall i :: 0 <= i < |k| ==> Cong(s.o, cypher[i].0, k[i] * G1Gen))
    && (forall i :: 0 <= i < |k| ==> Cong(s.o, cypher[i].1, k[i] * pk + s.attrHash(attrs[i].value) * HashG1(s, C)))
  }

  /** An honest request whose proof answers the witnesses `wr`, `wk`, `wm` under its
      challenge. */
  predicate HonestIssuance(s: Setup, req: Request, attrs: seq<Attribute>, k: seq<int>, r: int, wr: int, wk: seq<int>, wm: seq<int>)
  {
    HonestRequest(s, req.usersPk, req.C, req.cypher, attrs, k, r)
    && |wk| == |k| && |wm| == |attrs|
    && (forall i :: 0 <= i < |attrs| && attrs[i].hidden ==> i < |wk| && i < |wm|)
    && req.zkp.rk == Responses(s.o, wk, req.zkp.c, k) && req.zkp.ra == Responses(s.o, wm, req.zkp.c, Hashes(s, attrs))
    && req.zkp.rr == Response(s.o, wr, req.zkp.c, r)
  }

  /** With the hidden attributes first, each one has a witness. */
  lemma {:induction false} HiddenWithin(attrs: seq<Attribute>, k: seq<int>, wk: seq<int>, wm: seq<int>)
    requires HiddenFirst(attrs) && |k| == |HiddenValues(attrs)| && |wk| == |k| && |wm| == |attrs|
    ensures forall i :: 0 <= i < |attrs| && attrs[i].hidden ==> i < |k| && i < |wk| && i < |wm|
  {
    HiddenFirstLayout(attrs);
  }

  /** `Va` is the prover's `Aw`. */
  lemma {:induction false} IssuanceVaWitnesses(s: Setup, req: Request, attrs: seq<Attribute>, k: seq<int>, r: int, wr: int, wk: seq<int>, wm: seq<int>)
    requires HonestIssuance(s, req, attrs, k, r, wr, wk, wm)
    ensures IssuanceVa(s, req) == Witnesses(s.o, wk)
  {
    forall i | 0 <= i < |k| ensures IssuanceVa(s, req)[i] == Witnesses(s.o, wk)[i] {
      VaEntry(s.o, req.zkp.c, req.cypher[i].0, k[i], wk[i]);
    }
  }

  /** `Vb` is the prover's `Bw`. */
  lemma {:induction false} IssuanceVbCommitments(s: Setup, req: Request, attrs: seq<Attribute>, k: seq<int>, r: int, wr: int, wk: seq<int>, wm: seq<int>)
    requires HonestIssuance(s, req, attrs, k, r, wr, wk, wm)
    ensures IssuanceVb(s, req, HashG1(s, req.C)) == HiddenCommitments(s.o, attrs, wk, wm, req.usersPk, HashG1(s, req.C))
  {
    var h := HashG1(s, req.C);
    HiddenFirstLayout(attrs);
    HiddenCommitmentsLayout(s.o, attrs, wk, wm, req.usersPk, h);
    VbEntries(s.o, req.zkp.c, Seconds(req.cypher), req.zkp.rk, req.zkp.ra, k, req.usersPk, Hashes(s, attrs), h, wk, wm);
  }

  /** `VbEntry` at every position, over plain lists. */
  lemma {:induction false} VbEntries(o: Order, c: int, b: seq<int>, rk: seq<int>, ra: seq<int>, k: seq<int>, pk: int, ms: seq<int>, h: int,
                  wk: seq<int>, wm: seq<int>)
    requires |b| == |k| == |rk| == |wk| && |k| <= |ra| == |wm| == |ms|
    requires forall i :: 0 <= i < |k| ==> Cong(o, b[i], k[i] * pk + ms[i] * h)
    requires forall i :: 0 <= i < |k| ==> rk[i] == Response(o, wk[i], c, k[i])
    requires forall i :: 0 <= i < |ra| ==> ra[i] == Response(o, wm[i], c, ms[i])
    ensures forall i :: 0 <= i < |k| ==>
      Add(o, Add(o, Mul(o, c, b[i]), Mul(o, rk[i], pk)), Mul(o, ra[i], h)) == Add(o, Mul(o, wk[i], pk), Mul(o, wm[i], h))
  {
    forall i | 0 <= i < |k|
      ensures Add(o, Add(o, Mul(o, c, b[i]), Mul(o, rk[i], pk)), Mul(o, ra[i], h)) == Add(o, Mul(o, wk[i], pk), Mul(o, wm[i], h))
    {
      VbEntry(o, c, b[i], k[i], pk, ms[i], h, wk[i], wm[i]);
    }
  }

  /** `Vc` is the prover's `Cw`. */
  lemma {:induction false} IssuanceVcCommitment(s: Setup, req: Request, attrs: seq<Attribute>, k: seq<int>, r: int, wr: int, wk: seq<int>, wm: seq<int>)
    requires HonestIssuance(s, req, attrs, k, r, wr, wk, wm)
    ensures IssuanceVc(s, req) == Fold(s.o, Mul(s.o, wr, G1Gen), Terms(s.o, wm, s.hs))
  {
    VcMatches(s, attrs, req.C, r, req.zkp.c, wr, wm);
    CongReduced(s.o, IssuanceVc(s, req), Fold(s.o, Mul(s.o, wr, G1Gen), Terms(s.o, wm, s.hs)));
  }

  /** The IdP's check on an honest request whose challenge is the hash of `Cw`,
      `Aw` and `Bw`. */
  lemma {:induction false} IssuanceHolds(s: Setup, req: Request, attrs: seq<Attribute>, k: seq<int>, r: int, wr: int, wk: seq<int>, wm: seq<int>)
    requires HonestIssuance(s, req, attrs, k, r, wr, wk, wm)
    requires req.zkp.c == IssuanceChallenge(s, req.C, HashG1(s, req.C), Fold(s.o, Mul(s.o, wr, G1Gen), Terms(s.o, wm, s.hs)),
      Witnesses(s.o, wk), HiddenCommitments(s.o, attrs, wk, wm, req.usersPk, HashG1(s, req.C)))
    ensures VerifyIssuance(s, req) == Done(true)
  {
    IssuanceVaWitnesses(s, req, attrs, k, r, wr, wk, wm);
    IssuanceVbCommitments(s, req, attrs, k, r, wr, wk, wm);
    IssuanceVcCommitment(s, req, attrs, k, r, wr, wk, wm);
    IssuanceAccepted(s, req, attrs, k, r, wr, wk, wm);
  }

  lemma {:induction false} IssuanceAccepted(s: Setup, req: Request, attrs: seq<Attribute>, k: seq<int>, r: int, wr: int, wk: seq<int>, wm: seq<int>)
    requires HonestIssuance(s, req, attrs, k, r, wr, wk, wm)
    requires req.zkp.c == IssuanceChallenge(s, req.C, HashG1(s, req.C), Fold(s.o, Mul(s.o, wr, G1Gen), Terms(s.o, wm, s.hs)),
      Witnesses(s.o, wk), HiddenCommitments(s.o, attrs, wk, wm, req.usersPk, HashG1(s, req.C)))
    requires IssuanceVa(s, req) == Witnesses(s.o, wk)
    requires IssuanceVb(s, req, HashG1(s, req.C)) == HiddenCommitments(s.o, attrs, wk, wm, req.usersPk, HashG1(s, req.C))
    requires IssuanceVc(s, req) == Fold(s.o, Mul(s.o, wr, G1Gen), Terms(s.o, wm, s.hs))
    ensures VerifyIssuance(s, req) == Done(true)
  {
    assert IssuanceFits(s, req);
  }

  /** Completeness of the issuance proof: a request whose ciphertexts are ElGamal
      encryptions `(k_i * g1, k_i * pk + m_i * h)` of the hidden attribute hashes,
      whose commitment opens to all attribute hashes, and whose proof
      `__create_zkp_idp` built from these secrets, passes `IdP.__verify_zkp`. The
      hidden attributes come first, as `request_id` lays out `private_m + public_m`. */
  lemma {:induction false} IssuanceComplete(s: Setup, pk: int, C: int, r: int, attrs: seq<Attribute>, k: seq<int>,
                         cypher: seq<(int, int)>, wr: int, wk: seq<int>, wm: seq<int>, slots: seq<Slot>)
    requires HonestRequest(s, pk, C, cypher, attrs, k, r) && |wk| == |k| && |wm| == |attrs|
    ensures IssuanceProofOf(s, pk, C, k, r, attrs, wr, wk, wm).Done?
    ensures VerifyIssuance(s, Request(pk, C, cypher, IssuanceProofOf(s, pk, C, k, r, attrs, wr, wk, wm).value, slots)) == Done(true)
  {
    var o, h := s.o, HashG1(s, C);
    HiddenWithin(attrs, k, wk, wm);
    var c := IssuanceChallenge(s, C, h, Fold(o, Mul(o, wr, G1Gen), Terms(o, wm, s.hs)), Witnesses(o, wk),
      HiddenCommitments(o, attrs, wk, wm, pk, h));
    var proof := IssuanceProof(c, Responses(o, wk, c, k), Responses(o, wm, c, Hashes(s, attrs)), Response(o, wr, c, r));
    assert IssuanceProofOf(s, pk, C, k, r, attrs, wr, wk, wm) == Done(proof);
    var req := Request(pk, C, cypher, proof, slots);
    assert HonestIssuance(s, req, attrs, k, r, wr, wk, wm);
    IssuanceHolds(s, req, attrs, k, r, wr, wk, wm);
  }

  // ---------------------------------------------------------------------------
  // Blind signing

  /** `c_1 = Σ y_i * a_i` with `a_i = k_i * g1` is `Σ y_i * k_i`. */
  lemma {:induction false} BlindFirst(o: Order, y: seq<int>, cypher: seq<(int, int)>, k: seq<int>)
    requires |cypher| == |k| <= |y|
    requires forall i :: 0 <= i < |k| ==> Cong(o, cypher[i].0, k[i] * G1Gen)
    ensures Cong(o, Fold(o, 0, ZipMul(o, y, Firsts(cypher))), Dot(k, y))
  {
    var a := Firsts(cypher);
    ZipMulTerms(o, y, a);
    FoldTerms(o, 0, a, y);
    DotLinear(o, a, k, k, y, 1, 0);
  }

  /** `c_2 = x * h + Σ y_i * (b ++ C_pub)_i` with `b_i = k_i * pk + m_i * h` and
      `C_pub_j = H(pub_j) * h` is `x * h + pk * Σ y_i * k_i + h * Σ y_i * (m ++ H(pub))_i`. */
  lemma {:induction false} BlindSecond(s: Setup, req: Request, sk: SecretKey, pk: int, k: seq<int>, ms: seq<int>)
    requires |req.cypher| == |k| == |ms|
    requires |ms| + |RevealedValues(req.attributes)| <= |sk.y|
    requires forall i :: 0 <= i < |k| ==> Cong(s.o, req.cypher[i].1, k[i] * pk + ms[i] * HashG1(s, req.C))
    ensures |ms + HashList(s, RevealedValues(req.attributes))| <= |sk.y|
    ensures SecondShape(s.o,
      Fold(s.o, Mul(s.o, sk.x, HashG1(s, req.C)), ZipMul(s.o, sk.y, Seconds(req.cypher) + PublicCommitments(s, req.attributes, HashG1(s, req.C)))),
      sk.x, HashG1(s, req.C), pk, Dot(k, sk.y), Dot(ms + HashList(s, RevealedValues(req.attributes)), sk.y))
  {
    SecondsDot(s.o, req.cypher, k, ms, sk.y, pk, HashG1(s, req.C));
    PublicDot(s, req.attributes, HashG1(s, req.C), sk.y[|Seconds(req.cypher)|..]);
    BlindSecondSum(s.o, sk.x, HashG1(s, req.C), sk.y, Seconds(req.cypher), PublicCommitments(s, req.attributes, HashG1(s, req.C)),
      ms, HashList(s, RevealedValues(req.attributes)), pk, k);
  }

  /** The sum behind `c_2` over plain lists: the ciphertext components `b` are
      followed by the public commitments `pub`. */
  lemma {:induction false} BlindSecondSum(o: Order, x: int, h: int, y: seq<int>, b: seq<int>, pub: seq<int>, ms: seq<int>, hs: seq<int>, pk: int, k: seq<int>)
    requires |b| == |k| == |ms| && |pub| == |hs| && |ms| + |hs| <= |y|
    requires Affine(o, Dot(b, y), pk, Dot(k, y), h, Dot(ms, y))
    requires Affine(o, Dot(pub, y[|b|..]), 0, Dot(hs, y[|b|..]), h, Dot(hs, y[|b|..]))
    ensures SecondShape(o, Fold(o, Mul(o, x, h), ZipMul(o, y, b + pub)), x, h, pk, Dot(k, y), Dot(ms + hs, y))
  {
    FoldZip(o, Mul(o, x, h), b + pub, y);
    DotAppend(b, pub, y);
    DotAppendAt(ms, hs, y, |b|);
    BlindAssemble(o, Fold(o, Mul(o, x, h), ZipMul(o, y, b + pub)), x, h, Dot(b + pub, y), Dot(b, y), Dot(pub, y[|b|..]),
      pk, Dot(k, y), Dot(ms, y), Dot(hs, y[|b|..]), Dot(ms + hs, y));
  }

  /** A folded `zip(scalars, points)` is its start plus the dot product. */
  lemma {:induction false} FoldZip(o: Order, start: int, xs: seq<int>, y: seq<int>)
    requires |xs| <= |y|
    ensures Cong(o, Fold(o, start, ZipMul(o, y, xs)), start + Dot(xs, y))
  {
    ZipMulTerms(o, y, xs);
    FoldTerms(o, start, xs, y);
  }

  /** `c_2 = x * h + pk * dk + h * dm`: the second blind-signature component
      before the client removes `pk * dk`. */
  predicate SecondShape(o: Order, c2: int, x: int, h: int, pk: int, dk: int, dm: int)
  {
    Cong(o, c2, x * h + pk * dk + h * dm)
  }

  /** The arithmetic of the second blind-signature component. */
  lemma {:induction false} BlindAssemble(o: Order, c2: int, x: int, h: int, dbp: int, db: int, dp: int, pk: int, dk: int, dm: int, dhs: int, dmh: int)
    requires Cong(o, c2, Mul(o, x, h) + dbp) && dbp == db + dp
    requires Affine(o, db, pk, dk, h, dm) && Affine(o, dp, 0, dhs, h, dhs)
    requires dmh == dm + dhs
    ensures SecondShape(o, c2, x, h, pk, dk, dmh)
  {
    var start := Mul(o, x, h);
    MulCong(o, x, h);
    CongEq(o, c2, start + dbp, start + (db + dp));
    BlindAlgebra(o, c2, start, x * h, db, dp, pk, dk, h, dm, dhs);
    var e := x * h + pk * dk + h * (dm + dhs);
    assert e == x * h + pk * dk + h * dmh;
    CongEq(o, c2, e, x * h + pk * dk + h * dmh);
  }

  /** `Σ y_i * b_i` for `b_i = k_i * pk + m_i * h`. */
  lemma {:induction false} SecondsDot(o: Order, cypher: seq<(int, int)>, k: seq<int>, ms: seq<int>, y: seq<int>, pk: int, h: int)
    requires |cypher| == |k| == |ms| <= |y|
    requires forall i :: 0 <= i < |k| ==> Cong(o, cypher[i].1, k[i] * pk + ms[i] * h)
    ensures Affine(o, Dot(Seconds(cypher), y), pk, Dot(k, y), h, Dot(ms, y))
  {
    var b := Seconds(cypher);
    forall i | 0 <= i < |k| ensures Affine(o, b[i], pk, k[i], h, ms[i]) {
      Commute(k[i], pk, ms[i], h);
    }
    DotLinear(o, b, k, ms, y, pk, h);
  }

  lemma {:induction false} Commute(k: int, pk: int, m: int, h: int)
    ensures k * pk + m * h == pk * k + h * m
  {
  }

  /** `Σ y_j * C_pub_j` for `C_pub_j = H(pub_j) * h`. */
  lemma {:induction false} PublicDot(s: Setup, slots: seq<Slot>, h: int, y: seq<int>)
    requires |RevealedValues(slots)| <= |y|
    ensures Affine(s.o, Dot(PublicCommitments(s, slots, h), y), 0, Dot(HashList(s, RevealedValues(slots)), y), h, Dot(HashList(s, RevealedValues(slots)), y))
  {
    var pub, hs := PublicCommitments(s, slots, h), HashList(s, RevealedValues(slots));
    forall j | 0 <= j < |pub| ensures Affine(s.o, pub[j], 0, hs[j], h, hs[j]) {
      MulCong(s.o, hs[j], h);
      Commute(0, hs[j], hs[j], h);
    }
    DotLinear(s.o, pub, hs, hs, y, 0, h);
  }

  /** The arithmetic that assembles `c_2`. */
  lemma {:induction false} BlindAlgebra(o: Order, c2: int, xh: int, xh': int, db: int, dp: int, pk: int, dk: int, h: int, dm: int, dhs: int)
    requires Cong(o, c2, xh + (db + dp)) && Cong(o, xh, xh')
    requires Affine(o, db, pk, dk, h, dm) && Affine(o, dp, 0, dhs, h, dhs)
    ensures Cong(o, c2, xh' + pk * dk + h * (dm + dhs))
  {
    CongAdd(o, db, dp, pk * dk + h * dm, 0 * dhs + h * dhs);
    CongAdd(o, xh, db + dp, xh', pk * dk + h * dm + (0 * dhs + h * dhs));
    BlindRing(xh', pk, dk, h, dm, dhs);
  }

  lemma {:induction false} BlindRing(xh: int, pk: int, dk: int, h: int, dm: int, dhs: int)
    ensures xh + (pk * dk + h * dm + (0 * dhs + h * dhs)) == xh + pk * dk + h * (dm + dhs)
  {
  }

  /** Blind-signing correctness: if the ciphertexts are ElGamal encryptions under the
      client's key `d` (`a_i = k_i * g1`, `b_i = k_i * (d * g1) + m_i * h`), unblinding
      the IdP's share gives `h = hashG1(C)` and
      `s = (x + Σ y_i * (m ++ H(pub))_i) * h`, a PS signature on the hidden values
      followed by the hashes of the public attributes. */
  lemma {:induction false} BlindSignCorrect(s: Setup, req: Request, sk: SecretKey, d: int, k: seq<int>, ms: seq<int>)
    requires req.cypher != [] && |req.cypher| == |k| == |ms|
    requires |ms| + |RevealedValues(req.attributes)| <= |sk.y|
    requires forall i :: 0 <= i < |k| ==> Cong(s.o, req.cypher[i].0, k[i] * G1Gen)
    requires forall i :: 0 <= i < |k| ==> Cong(s.o, req.cypher[i].1, k[i] * (d * G1Gen) + ms[i] * HashG1(s, req.C))
    ensures BlindSignature(s, req, sk).Done?
    ensures SignedWith(s.o, UnbindSig(s.o, d, BlindSignature(s, req, sk).value), sk.x, sk.y, HashG1(s, req.C),
      ms + HashList(s, RevealedValues(req.attributes)))
  {
    BlindFirst(s.o, sk.y, req.cypher, k);
    BlindSecond(s, req, sk, d * G1Gen, k, ms);
    UnbindCorrect(s.o, BlindSignature(s, req, sk).value, d, sk.x, sk.y, HashG1(s, req.C), k, ms + HashList(s, RevealedValues(req.attributes)));
  }

  /** `sig = (h, (x + Σ y_i * m_i) * h)`: a PS signature on `ms` under the secret
      key `(x, y)`, with base `h`. */
  predicate SignedWith(o: Order, sig: Signature, x: int, y: seq<int>, h: int, ms: seq<int>)
  {
    |ms| <= |y| && sig.h == h && Cong(o, sig.s, h * (x + Dot(ms, y)))
  }

  /** Unblinding `(h, (c_1, c_2))` with `c_1 = Σ y_i * k_i` and
      `c_2 = x * h + (d * g1) * Σ y_i * k_i + h * Σ y_i * m_i` leaves a PS signature. */
  lemma {:induction false} UnbindCorrect(o: Order, share: BlindShare, d: int, x: int, y: seq<int>, h: int, k: seq<int>, ms: seq<int>)
    requires |k| <= |y| && |ms| <= |y| && share.h == h
    requires Cong(o, share.c1, Dot(k, y))
    requires SecondShape(o, share.c2, x, h, d * G1Gen, Dot(k, y), Dot(ms, y))
    ensures SignedWith(o, UnbindSig(o, d, share), x, y, h, ms)
  {
    UnbindAlgebra(o, share.c1, share.c2, UnbindSig(o, d, share).s, d, Dot(k, y), x, h, Dot(ms, y));
  }

  lemma {:induction false} UnbindAlgebra(o: Order, c1: int, c2: int, sv: int, d: int, dk: int, x: int, h: int, dm: int)
    requires Cong(o, c1, dk) && SecondShape(o, c2, x, h, d * G1Gen, dk, dm) && Cong(o, sv + d * c1, c2)
    ensures Cong(o, sv, h * (x + dm))
  {
    CongMul(o, d, c1, d, dk);
    NegCong(o, d * c1, d * dk);
    CongTrans(o, sv + d * c1, c2, x * h + (d * G1Gen) * dk + h * dm);
    CongAdd(o, sv + d * c1, -(d * c1), x * h + (d * G1Gen) * dk + h * dm, -(d * dk));
    UnbindRing(sv, d, c1, x, h, dk, dm);
    CongEq(o, sv + d * c1 + -(d * c1), x * h + (d * G1Gen) * dk + h * dm + -(d * dk), h * (x + dm));
  }

  lemma {:induction false} UnbindRing(sv: int, d: int, c1: int, x: int, h: int, dk: int, dm: int)
    ensures sv + d * c1 + -(d * c1) == sv
    ensures x * h + (d * G1Gen) * dk + h * dm + -(d * dk) == h * (x + dm)
  {
  }

  // ---------------------------------------------------------------------------
  // Presentation

  /** The RP reads the redacted slots exactly where the client hid attributes. */
  lemma {:induction false} RedactMask(attrs: seq<Attribute>)
    ensures RedactedMask(Redact(attrs)) == HiddenMask(attrs)
  {
  }

  /** The responses of the hidden attributes, hidden first, weigh the `beta`s like
      `wm_i - c * H(m_i)`. */
  lemma {:induction false} HiddenResponsesLinear(s: Setup, attrs: seq<Attribute>, vk: Vk, c: int, wms: seq<int>)
    requires |wms| == |HiddenValues(attrs)| && HiddenFirst(attrs) && HiddenFit(attrs, vk.beta)
    ensures MaskFits(HiddenMask(attrs), Responses(s.o, wms, c, HashList(s, HiddenValues(attrs))), vk.beta)
    ensures MaskFits(HiddenMask(attrs), wms, vk.beta) && MaskFits(HiddenMask(attrs), Hashes(s, attrs), vk.beta)
    ensures Affine(s.o, SelectedSum(s.o, HiddenMask(attrs), Responses(s.o, wms, c, HashList(s, HiddenValues(attrs))), vk.beta),
      1, SelectedSum(s.o, HiddenMask(attrs), wms, vk.beta), -c, SelectedSum(s.o, HiddenMask(attrs), Hashes(s, attrs), vk.beta))
  {
    var o, mask, ms := s.o, HiddenMask(attrs), Hashes(s, attrs);
    var hl := HashList(s, HiddenValues(attrs));
    HiddenFirstLayout(attrs);
    HiddenReach(attrs, vk.beta);
    MaskedResponses(o, mask, wms, c, hl, vk.beta);
    MaskedTermsAgree(o, mask, hl, ms, vk.beta);
  }

  /** The selected responses weigh the points like `w_i - c * x_i`. */
  lemma {:induction false} MaskedResponses(o: Order, mask: seq<bool>, ws: seq<int>, c: int, xs: seq<int>, points: seq<int>)
    requires |ws| <= |xs| && MaskFits(mask, ws, points) && MaskFits(mask, xs, points)
    requires MaskFits(mask, Responses(o, ws, c, xs), points)
    ensures Affine(o, SelectedSum(o, mask, Responses(o, ws, c, xs), points),
      1, SelectedSum(o, mask, ws, points), -c, SelectedSum(o, mask, xs, points))
  {
    ResponsesLinear(o, ws, c, xs);
    MaskedLinear(o, mask, Responses(o, ws, c, xs), ws, xs, points, 1, -c);
  }

  /** Every response is a linear combination of its witness and its secret. */
  lemma {:induction false} ResponsesLinear(o: Order, ws: seq<int>, c: int, xs: seq<int>)
    requires |ws| <= |xs|
    ensures forall i :: 0 <= i < |ws| ==> Affine(o, Responses(o, ws, c, xs)[i], 1, ws[i], -c, xs[i])
  {
    forall i | 0 <= i < |ws| ensures Affine(o, Responses(o, ws, c, xs)[i], 1, ws[i], -c, xs[i]) {
      ResponseLinear(o, ws[i], c, xs[i]);
    }
  }

  lemma {:induction false} VaAlgebra(o: Order, c: int, k: int, rr: int, g2: int, alpha: int, r: int, wt: int, sa: int, sw: int, sh: int)
    requires Cong(o, k, r * g2 + alpha + sh) && Cong(o, rr, wt - c * r) && Affine(o, sa, 1, sw, -c, sh)
    ensures Cong(o, c * k + rr * g2 + (1 - c) * alpha + sa, wt * g2 + alpha + sw)
  {
    var rg := r * g2;
    CongMul(o, c, k, c, rg + alpha + sh);
    assert c * (rg + alpha + sh) == c * rg + c * alpha + c * sh;
    CongMul(o, rr, g2, wt - c * r, g2);
    assert (wt - c * r) * g2 == wt * g2 - c * rg;
    assert (1 - c) * alpha == alpha - c * alpha;
    assert (-c) * sh == -(c * sh);
    CongAdd(o, c * k, rr * g2, c * rg + c * alpha + c * sh, wt * g2 - c * rg);
    CongAdd(o, c * k + rr * g2, (1 - c) * alpha, c * alpha + c * sh + wt * g2, alpha - c * alpha);
    CongAdd(o, c * k + rr * g2 + (1 - c) * alpha, sa, c * sh + wt * g2 + alpha, sw - c * sh);
  }

  /** The RP's `Va` is the client's `Aw` when the selected responses weigh the `beta`s
      like `wm_i - c * m_i`, `rr` is the response for `r` with witness `wt`, and `k`
      commits to the selected `m_i` with blinding `r`. */
  lemma {:induction false} PresentationVa(s: Setup, p: CredProof, vk: Vk, r: int, wt: int, mask: seq<bool>, wms: seq<int>, ms: seq<int>)
    requires MaskFits(RedactedMask(p.attributes), p.zkp.ra, vk.beta)
    requires MaskFits(mask, wms, vk.beta) && MaskFits(mask, ms, vk.beta)
    requires Affine(s.o, SelectedSum(s.o, RedactedMask(p.attributes), p.zkp.ra, vk.beta),
      1, SelectedSum(s.o, mask, wms, vk.beta), -p.zkp.c, SelectedSum(s.o, mask, ms, vk.beta))
    requires p.zkp.rr == Response(s.o, wt, p.zkp.c, r)
    requires Cong(s.o, p.k, r * vk.g2 + vk.alpha + SelectedSum(s.o, mask, ms, vk.beta))
    ensures Cong(s.o, RecomputedVa(s, p, vk), Fold(s.o, Add(s.o, Mul(s.o, wt, vk.g2), vk.alpha), MaskedTerms(s.o, mask, wms, vk.beta)))
  {
    ResponseCong(s.o, wt, p.zkp.c, r);
    FoldAffine(s.o, wt, vk.g2, vk.alpha, mask, wms, vk.beta);
    VaChain(s.o, RecomputedVa(s, p, vk), Fold(s.o, Add(s.o, Mul(s.o, wt, vk.g2), vk.alpha), MaskedTerms(s.o, mask, wms, vk.beta)),
      p.zkp.c, p.k, p.zkp.rr, Response(s.o, wt, p.zkp.c, r), vk.g2, vk.alpha, r, wt,
      SelectedSum(s.o, RedactedMask(p.attributes), p.zkp.ra, vk.beta), SelectedSum(s.o, RedactedMask(p.attributes), p.zkp.ra, vk.beta),
      SelectedSum(s.o, mask, wms, vk.beta), SelectedSum(s.o, mask, ms, vk.beta));
  }

  /** The responses in the proof, read at the redacted slots, weigh the `beta`s like
      `wm_i - c * H(m_i)`. */
  lemma {:induction false} ProofResponses(s: Setup, p: CredProof, vk: Vk, attrs: seq<Attribute>, wms: seq<int>)
    requires |wms| == |HiddenValues(attrs)| && HiddenFirst(attrs) && HiddenFit(attrs, vk.beta)
    requires p.attributes == Redact(attrs)
    requires p.zkp.ra == Responses(s.o, wms, p.zkp.c, HashList(s, HiddenValues(attrs)))
    ensures MaskFits(RedactedMask(p.attributes), p.zkp.ra, vk.beta) && MaskFits(HiddenMask(attrs), wms, vk.beta)
    ensures MaskFits(HiddenMask(attrs), Hashes(s, attrs), vk.beta)
    ensures Affine(s.o, SelectedSum(s.o, RedactedMask(p.attributes), p.zkp.ra, vk.beta),
      1, SelectedSum(s.o, HiddenMask(attrs), wms, vk.beta), -p.zkp.c, SelectedSum(s.o, HiddenMask(attrs), Hashes(s, attrs), vk.beta))
  {
    RedactMask(attrs);
    HiddenResponsesLinear(s, attrs, vk, p.zkp.c, wms);
  }

  /** `Va`, rewritten step by step into `Aw`; `rr'` and `sa'` are `rr` and `sa`
      as the lemmas about the responses name them. */
  lemma {:induction false} VaChain(o: Order, va: int, aw: int, c: int, k: int, rr: int, rr': int, g2: int, alpha: int, r: int, wt: int,
                                   sa: int, sa': int, sw: int, sh: int)
    requires Cong(o, va, c * k + rr * g2 + (1 - c) * alpha + sa)
    requires Cong(o, k, r * g2 + alpha + sh)
    requires Cong(o, rr', wt - c * r) && rr == rr'
    requires Affine(o, sa', 1, sw, -c, sh) && sa == sa'
    requires Cong(o, aw, wt * g2 + alpha + sw)
    ensures Cong(o, va, aw)
  {
    VaAlgebra(o, c, k, rr, g2, alpha, r, wt, sa, sw, sh);
    CongSymm(o, aw, wt * g2 + alpha + sw);
    CongTrans(o, va, c * k + rr * g2 + (1 - c) * alpha + sa, wt * g2 + alpha + sw);
    CongTrans(o, va, wt * g2 + alpha + sw, aw);
  }

  /** The RP's `Vr = c * vu + rr * h` is the client's `Bw = wt * h` when
      `vu = r * h` and `rr` is the response for `r` with witness `wt`. */
  lemma {:induction false} PresentationVr(s: Setup, p: CredProof, r: int, wt: int)
    requires p.vu == Mul(s.o, r, p.sig.h) && p.zkp.rr == Response(s.o, wt, p.zkp.c, r)
    ensures Cong(s.o, RecomputedVr(s, p), Mul(s.o, wt, p.sig.h))
  {
    var o, h, c := s.o, p.sig.h, p.zkp.c;
    MulCong(o, r, h);
    ResponseCong(o, wt, c, r);
    MulCong(o, wt, h);
    VrAlgebra(o, c, p.vu, p.zkp.rr, h, r, wt);
  }

  lemma {:induction false} VrAlgebra(o: Order, c: int, vu: int, rr: int, h: int, r: int, wt: int)
    requires Cong(o, vu, r * h) && Cong(o, rr, wt - c * r)
    ensures Cong(o, c * vu + rr * h, wt * h)
  {
    var rh := r * h;
    CongMul(o, c, vu, c, rh);
    CongMul(o, rr, h, wt - c * r, h);
    assert (wt - c * r) * h == wt * h - c * rh;
    CongAdd(o, c * vu, rr * h, c * rh, wt * h - c * rh);
  }

  /** What `prove_id` builds, stated field by field: the commitments and the
      responses. */
  predicate HonestPresentation(s: Setup, p: CredProof, vk: Vk, attrs: seq<Attribute>, r: int, wt: int, wms: seq<int>)
  {
    HonestCommitments(s, p, vk, attrs, r) && HonestResponses(s, p, vk, attrs, r, wt, wms)
  }

  /** The redacted slots, `vu = r * h` and `k = r * g2 + alpha + Σ_hidden H(m_i) * beta_i`. */
  predicate HonestCommitments(s: Setup, p: CredProof, vk: Vk, attrs: seq<Attribute>, r: int)
  {
    && p.attributes == Redact(attrs) && p.vu == Mul(s.o, r, p.sig.h)
    && MaskFits(HiddenMask(attrs), Hashes(s, attrs), vk.beta)
    && Cong(s.o, p.k, r * vk.g2 + vk.alpha + SelectedSum(s.o, HiddenMask(attrs), Hashes(s, attrs), vk.beta))
  }

  /** The responses to the challenge on `Aw` and `Bw = wt * h`, with the hidden
      attributes first. */
  predicate HonestResponses(s: Setup, p: CredProof, vk: Vk, attrs: seq<Attribute>, r: int, wt: int, wms: seq<int>)
  {
    && |wms| == |HiddenValues(attrs)| && HiddenFirst(attrs) && HiddenFit(attrs, vk.beta)
    && MaskFits(HiddenMask(attrs), wms, vk.beta)
    && p.zkp.ra == Responses(s.o, wms, p.zkp.c, HashList(s, HiddenValues(attrs)))
    && p.zkp.rr == Response(s.o, wt, p.zkp.c, r)
    && p.zkp.c == PresentationChallenge(s, vk,
      Fold(s.o, Add(s.o, Mul(s.o, wt, vk.g2), vk.alpha), MaskedTerms(s.o, HiddenMask(attrs), wms, vk.beta)), Mul(s.o, wt, p.sig.h))
  }

  /** `prove_id` succeeds on a layout it accepts, and what it builds is honest. */
  lemma {:induction false} PresentationHonest(s: Setup, sig: Signature, attrs: seq<Attribute>, vk: Vk, r: int, rho: int, wt: int, wms: seq<int>)
    requires |wms| == |HiddenValues(attrs)| && HiddenFirst(attrs) && HiddenFit(attrs, vk.beta)
    ensures Presentation(s, sig, attrs, vk, r, rho, wt, wms).Done?
    ensures HonestPresentation(s, Presentation(s, sig, attrs, vk, r, rho, wt, wms).value, vk, attrs, r, wt, wms)
  {
    HiddenReach(attrs, vk.beta);
    PresentationCommits(s, sig, attrs, vk, r, rho, wt, wms);
    PresentationResponds(s, sig, attrs, vk, r, rho, wt, wms);
  }

  /** The commitments `prove_id` builds: the redacted slots, `vu` and `k`. */
  lemma {:induction false} PresentationCommits(s: Setup, sig: Signature, attrs: seq<Attribute>, vk: Vk, r: int, rho: int, wt: int, wms: seq<int>)
    requires |wms| == |HiddenValues(attrs)| && MaskFits(HiddenMask(attrs), Hashes(s, attrs), vk.beta)
    requires Presentation(s, sig, attrs, vk, r, rho, wt, wms).Done?
    ensures HonestCommitments(s, Presentation(s, sig, attrs, vk, r, rho, wt, wms).value, vk, attrs, r)
  {
    BlindedKeyValue(s.o, r, vk.g2, vk.alpha, HiddenMask(attrs), Hashes(s, attrs), vk.beta);
  }

  /** The responses `prove_id` builds, to the challenge on its own witnesses. */
  lemma {:induction false} PresentationResponds(s: Setup, sig: Signature, attrs: seq<Attribute>, vk: Vk, r: int, rho: int, wt: int, wms: seq<int>)
    requires |wms| == |HiddenValues(attrs)| && HiddenFirst(attrs) && HiddenFit(attrs, vk.beta)
    ensures Presentation(s, sig, attrs, vk, r, rho, wt, wms).Done?
    ensures HonestResponses(s, Presentation(s, sig, attrs, vk, r, rho, wt, wms).value, vk, attrs, r, wt, wms)
  {
    HiddenReach(attrs, vk.beta);
    var p := Presentation(s, sig, attrs, vk, r, rho, wt, wms).value;
    assert p.zkp == PresentationProofOf(s, attrs, vk, p.sig.h, r, wt, wms).value;
  }

  /** An honest presentation passes `RP.__verify_zkp`. */
  lemma {:induction false} HonestProofHolds(s: Setup, p: CredProof, vk: Vk, attrs: seq<Attribute>, r: int, wt: int, wms: seq<int>)
    requires HonestPresentation(s, p, vk, attrs, r, wt, wms)
    ensures PresentationHolds(s, p, vk) == Done(true)
  {
    ProofResponses(s, p, vk, attrs, wms);
    PresentationVa(s, p, vk, r, wt, HiddenMask(attrs), wms, Hashes(s, attrs));
    PresentationVr(s, p, r, wt);
    ChallengeCong(s, vk, RecomputedVa(s, p, vk),
      Fold(s.o, Add(s.o, Mul(s.o, wt, vk.g2), vk.alpha), MaskedTerms(s.o, HiddenMask(attrs), wms, vk.beta)),
      RecomputedVr(s, p), Mul(s.o, wt, p.sig.h));
  }

  /** Completeness of the presentation proof: what `prove_id` builds passes
      `RP.__verify_zkp`, when the hidden attributes come first and each has a `beta`. */
  lemma {:induction false} PresentationProofComplete(s: Setup, sig: Signature, attrs: seq<Attribute>, vk: Vk, r: int, rho: int, wt: int, wms: seq<int>)
    requires |wms| == |HiddenValues(attrs)| && HiddenFirst(attrs) && HiddenFit(attrs, vk.beta)
    ensures Presentation(s, sig, attrs, vk, r, rho, wt, wms).Done?
    ensures PresentationHolds(s, Presentation(s, sig, attrs, vk, r, rho, wt, wms).value, vk) == Done(true)
  {
    PresentationHonest(s, sig, attrs, vk, r, rho, wt, wms);
    HonestProofHolds(s, Presentation(s, sig, attrs, vk, r, rho, wt, wms).value, vk, attrs, r, wt, wms);
  }

  /** The challenge only sees `Aw` and `Bw` as group elements. */
  lemma {:induction false} ChallengeCong(s: Setup, vk: Vk, aw: int, aw': int, bw: int, bw': int)
    requires Cong(s.o, aw, aw') && Cong(s.o, bw, bw')
    ensures PresentationChallenge(s, vk, aw, bw) == PresentationChallenge(s, vk, aw', bw')
  {
  }

  /** The public attributes' contribution plus the hidden ones in `k` add up to the
      full `Σ H(m_i) * beta_i`. */
  lemma {:induction false} PublicAndHidden(s: Setup, attrs: seq<Attribute>, vk: Vk)
    requires |attrs| <= |vk.beta|
    ensures MaskFits(Not(RedactedMask(Redact(attrs))), SlotHashes(s, Redact(attrs)), vk.beta)
    ensures SelectedSum(s.o, HiddenMask(attrs), Hashes(s, attrs), vk.beta)
      + SelectedSum(s.o, Not(RedactedMask(Redact(attrs))), SlotHashes(s, Redact(attrs)), vk.beta)
      == RawSum(Terms(s.o, Hashes(s, attrs), vk.beta))
  {
    var mask := HiddenMask(attrs);
    var ms := Hashes(s, attrs);
    RedactMask(attrs);
    MaskedTermsAgree(s.o, Not(mask), SlotHashes(s, Redact(attrs)), ms, vk.beta);
    MaskedSplit(s.o, mask, ms, vk.beta);
    OnesTerms(s.o, |attrs|, ms, vk.beta);
    assert ms[..|attrs|] == ms;
  }

  /** Pairing-check correctness: an honest presentation of a credential that passes
      `verify_sig` on the attribute hashes, re-randomised with a non-zero scalar in a
      group of prime order, is accepted by `RP.verify_id`. */
  lemma {:induction false} PresentationComplete(s: Setup, sig: Signature, attrs: seq<Attribute>, vk: Vk, r: int, rho: int, wt: int, wms: seq<int>)
    requires |wms| == |HiddenValues(attrs)| && HiddenFirst(attrs) && |attrs| <= |vk.beta|
    requires IsPrime(s.o) && rho % s.o != 0
    requires PsCheck(s.o, sig, vk, Hashes(s, attrs)) == Done(true)
    ensures Presentation(s, sig, attrs, vk, r, rho, wt, wms).Done?
    ensures Accepts(s, Presentation(s, sig, attrs, vk, r, rho, wt, wms).value, vk) == Done(true)
  {
    PresentationHonest(s, sig, attrs, vk, r, rho, wt, wms);
    RandomizePreserves(s.o, sig, vk, Hashes(s, attrs), rho);
    HonestProofHolds(s, Presentation(s, sig, attrs, vk, r, rho, wt, wms).value, vk, attrs, r, wt, wms);
    HonestAccepted(s, Presentation(s, sig, attrs, vk, r, rho, wt, wms).value, vk, attrs, r);
  }

  /** A presentation whose proof holds, with honest commitments and a signature
      `verify_sig` accepts, passes `verify_id`. */
  lemma {:induction false} HonestAccepted(s: Setup, p: CredProof, vk: Vk, attrs: seq<Attribute>, r: int)
    requires PresentationHolds(s, p, vk) == Done(true)
    requires HonestCommitments(s, p, vk, attrs, r) && |attrs| <= |vk.beta|
    requires PsCheck(s.o, p.sig, vk, Hashes(s, attrs)) == Done(true)
    ensures Accepts(s, p, vk) == Done(true)
  {
    PsCheckPasses(s.o, p.sig, vk, Hashes(s, attrs));
    HonestPairing(s, p, vk, attrs, r);
    AcceptedWhen(s, p, vk);
  }

  /** With honest commitments and a signature on all the attributes, the pairing
      equation of `verify_id` holds. */
  lemma {:induction false} HonestPairing(s: Setup, p: CredProof, vk: Vk, attrs: seq<Attribute>, r: int)
    requires HonestCommitments(s, p, vk, attrs, r) && |attrs| <= |vk.beta|
    requires SigEquation(s.o, p.sig.h, vk.alpha + Dot(Hashes(s, attrs), vk.beta), p.sig.s, vk.g2)
    ensures MaskFits(Not(RedactedMask(p.attributes)), SlotHashes(s, p.attributes), vk.beta)
    ensures PairingHolds(s.o, p.sig.h, p.k, SelectedSum(s.o, Not(RedactedMask(p.attributes)), SlotHashes(s, p.attributes), vk.beta),
      p.sig.s, p.vu, vk.g2)
  {
    HonestKey(s, p, vk, attrs, r);
    MulCong(s.o, r, p.sig.h);
    PairingAlgebra(s.o, p.sig.h, p.k, SelectedSum(s.o, Not(RedactedMask(p.attributes)), SlotHashes(s, p.attributes), vk.beta),
      vk.alpha + Dot(Hashes(s, attrs), vk.beta), r, vk.g2, p.sig.s, p.vu);
  }

  /** With honest commitments, `k + aggr = r * g2 + alpha + Σ m_i * beta_i`. */
  lemma {:induction false} HonestKey(s: Setup, p: CredProof, vk: Vk, attrs: seq<Attribute>, r: int)
    requires p.attributes == Redact(attrs) && |attrs| <= |vk.beta| && MaskFits(HiddenMask(attrs), Hashes(s, attrs), vk.beta)
    requires Cong(s.o, p.k, r * vk.g2 + vk.alpha + SelectedSum(s.o, HiddenMask(attrs), Hashes(s, attrs), vk.beta))
    ensures MaskFits(Not(RedactedMask(p.attributes)), SlotHashes(s, p.attributes), vk.beta)
    ensures KeyShape(s.o, p.k, SelectedSum(s.o, Not(RedactedMask(p.attributes)), SlotHashes(s, p.attributes), vk.beta),
      r, vk.g2, vk.alpha + Dot(Hashes(s, attrs), vk.beta))
  {
    HiddenAndRevealed(s, attrs, vk);
    FullKey(s.o, p.k, SelectedSum(s.o, Not(RedactedMask(p.attributes)), SlotHashes(s, p.attributes), vk.beta),
      SelectedSum(s.o, HiddenMask(attrs), Hashes(s, attrs), vk.beta), Dot(Hashes(s, attrs), vk.beta), r, vk.g2, vk.alpha);
  }

  /** The hidden terms and the revealed slots' terms add up to `Σ m_i * beta_i`. */
  lemma {:induction false} HiddenAndRevealed(s: Setup, attrs: seq<Attribute>, vk: Vk)
    requires |attrs| <= |vk.beta|
    ensures MaskFits(Not(RedactedMask(Redact(attrs))), SlotHashes(s, Redact(attrs)), vk.beta)
    ensures Cong(s.o, SelectedSum(s.o, HiddenMask(attrs), Hashes(s, attrs), vk.beta)
      + SelectedSum(s.o, Not(RedactedMask(Redact(attrs))), SlotHashes(s, Redact(attrs)), vk.beta), Dot(Hashes(s, attrs), vk.beta))
  {
    PublicAndHidden(s, attrs, vk);
    TermsDot(s.o, Hashes(s, attrs), vk.beta);
  }

  /** A signature `verify_sig` accepts: `h` is not the identity and
      `h * (alpha + Σ m_i * beta_i) = s * g2`. */
  lemma {:induction false} PsCheckPasses(o: Order, sig: Signature, vk: Vk, ms: seq<int>)
    requires PsCheck(o, sig, vk, ms) == Done(true)
    ensures |ms| <= |vk.beta| && sig.h % o != 0 && SigEquation(o, sig.h, vk.alpha + Dot(ms, vk.beta), sig.s, vk.g2)
  {
    PsCheckMeaning(o, sig, vk, ms);
  }

  /** `e(h, x) == e(s, g2)` in the exponents. */
  predicate SigEquation(o: Order, h: int, x: int, sv: int, g2: int)
  {
    Cong(o, h * x, sv * g2)
  }

  /** `RP.verify_id` accepts once the proof holds, `h` is not the identity and the
      pairing equation holds in the exponents. */
  lemma {:induction false} AcceptedWhen(s: Setup, p: CredProof, vk: Vk)
    requires PresentationHolds(s, p, vk) == Done(true)
    requires MaskFits(Not(RedactedMask(p.attributes)), SlotHashes(s, p.attributes), vk.beta)
    requires p.sig.h % s.o != 0
    requires PairingHolds(s.o, p.sig.h, p.k, SelectedSum(s.o, Not(RedactedMask(p.attributes)), SlotHashes(s, p.attributes), vk.beta),
      p.sig.s, p.vu, vk.g2)
    ensures Accepts(s, p, vk) == Done(true)
  {
    AcceptsMeaning(s, p, vk);
  }

  /** `k + aggr = r * g2 + x` in the exponents. */
  predicate KeyShape(o: Order, k: int, aggr: int, r: int, g2: int, x: int)
  {
    Cong(o, k + aggr, r * g2 + x)
  }

  /** `k` commits to the hidden sum `sh`; adding the revealed sum `aggr` completes
      the dot product. */
  lemma {:induction false} FullKey(o: Order, k: int, aggr: int, sh: int, dot: int, r: int, g2: int, alpha: int)
    requires Cong(o, k, r * g2 + alpha + sh) && Cong(o, sh + aggr, dot)
    ensures KeyShape(o, k, aggr, r, g2, alpha + dot)
  {
    CongAdd(o, k, aggr, r * g2 + alpha + sh, aggr);
    CongAdd(o, r * g2 + alpha, sh + aggr, r * g2 + alpha, dot);
    CongEq(o, k + aggr, r * g2 + alpha + sh + aggr, r * g2 + alpha + (sh + aggr));
    CongTrans(o, k + aggr, r * g2 + alpha + (sh + aggr), r * g2 + alpha + dot);
    CongEq(o, k + aggr, r * g2 + alpha + dot, r * g2 + (alpha + dot));
  }

  /** `h * (k + aggr) = (s + vu) * g2` for `k + aggr = r * g2 + x`, `vu = r * h` and a
      signature with `h * x = s * g2`. */
  lemma {:induction false} PairingAlgebra(o: Order, h: int, k: int, aggr: int, x: int, r: int, g2: int, sv: int, vu: int)
    requires KeyShape(o, k, aggr, r, g2, x) && SigEquation(o, h, x, sv, g2) && Cong(o, vu, r * h)
    ensures PairingHolds(o, h, k, aggr, sv, vu, g2)
  {
    PairingRing(h, r, g2, x, sv, vu);
    CongMul(o, h, k + aggr, h, r * g2 + x);
    CongAdd(o, h * r * g2, h * x, h * r * g2, sv * g2);
    CongEq(o, h * (k + aggr), h * (r * g2 + x), h * r * g2 + h * x);
    CongTrans(o, h * (k + aggr), h * r * g2 + h * x, h * r * g2 + sv * g2);
    CongMul(o, vu, g2, r * h, g2);
    CongAdd(o, sv * g2, vu * g2, sv * g2, (r * h) * g2);
    CongEq(o, sv * g2 + vu * g2, sv * g2 + (r * h) * g2, h * r * g2 + sv * g2);
    CongSymm(o, sv * g2 + vu * g2, h * r * g2 + sv * g2);
    CongTrans(o, h * (k + aggr), h * r * g2 + sv * g2, sv * g2 + vu * g2);
    CongEq(o, h * (k + aggr), sv * g2 + vu * g2, (sv + vu) * g2);
  }

  /** `e(h, k + aggr) == e(s + vu, g2)` in the exponents. */
  predicate PairingHolds(o: Order, h: int, k: int, aggr: int, sv: int, vu: int, g2: int)
  {
    Cong(o, h * (k + aggr), (sv + vu) * g2)
  }

  lemma {:induction false} PairingRing(h: int, r: int, g2: int, x: int, sv: int, vu: int)
    ensures h * (r * g2 + x) == h * r * g2 + h * x
    ensures sv * g2 + (r * h) * g2 == h * r * g2 + sv * g2
    ensures sv * g2 + vu * g2 == (sv + vu) * g2
  {
  }
}
