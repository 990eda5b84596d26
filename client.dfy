/** The user's side (src/client.py): committing to the attributes, proving the
    commitment to an identity provider, turning signature shares into one credential,
    checking it, and presenting it to a relying party. The randomness the source
    draws with `o.random()` is passed in. */
module Client {
  import opened Modular
  import opened Challenge
  import opened Protocol
  import opened Threshold

  /** An attribute as `__create_zkp_idp` and `prove_id` see it: its bytes and whether
      it is hidden (`attribute[1]`). */
  datatype Attribute = Attribute(value: seq<byte>, hidden: bool)

  /** A Schnorr response `(w - c * x) % o`. */
  function Response(o: Order, w: int, c: int, x: int): (r: int)
    ensures 0 <= r < o && Cong(o, r + c * x, w)
  {
    CongReduce(o, w - c * x);
    CongAdd(o, (w - c * x) % o, c * x, w - c * x, c * x);
    (w - c * x) % o
  }

  // ---------------------------------------------------------------------------
  // Commitment

  /** `__create_commitment`: `C = r * g1 + Σ attribute_i * hs[i]`; indexing `hs` past
      its end raises. */
  function Commitment(s: Setup, attrs: seq<int>, r: int): (c: Outcome<int>)
    ensures c.Raises? <==> |attrs| > |s.hs|
  {
    if |attrs| > |s.hs| then Raises else Done(Fold(s.o, Mul(s.o, r, G1Gen), Terms(s.o, attrs, s.hs)))
  }

  /** The commitment opens to its randomness and attributes: `C = r + Σ m_i * hs_i`. */
  lemma {:induction false} CommitmentOpens(s: Setup, attrs: seq<int>, r: int)
    requires |attrs| <= |s.hs|
    ensures Commitment(s, attrs, r).Done?
    ensures Cong(s.o, Commitment(s, attrs, r).value, r + Dot(attrs, s.hs))
  {
    var ts := Terms(s.o, attrs, s.hs);
    var start := Mul(s.o, r, G1Gen);
    var c := Fold(s.o, start, ts);
    assert Commitment(s, attrs, r).value == c;
    FoldCong(s.o, start, ts);
    TermsDot(s.o, attrs, s.hs);
    assert r * G1Gen == r;
    CongReduce(s.o, r);
    CongAdd(s.o, start, RawSum(ts), r, Dot(attrs, s.hs));
  }

  /** `Client.__create_commitment`, with its `C +=` loop (the randomness `r` is an input). */
  method CreateCommitment(s: Setup, attrs: seq<int>, r: int) returns (c: Outcome<int>)
    ensures c == Commitment(s, attrs, r)
  {
    var acc := Mul(s.o, r, G1Gen);
    var i := 0;
    while i < |attrs|
      invariant 0 <= i <= |attrs| && i <= |s.hs|
      invariant acc == Fold(s.o, Mul(s.o, r, G1Gen), Terms(s.o, attrs[..i], s.hs))
    {
      if i >= |s.hs| {
        return Raises;
      }
      assert Terms(s.o, attrs[..i + 1], s.hs)[..i] == Terms(s.o, attrs[..i], s.hs);
      acc := Add(s.o, acc, Mul(s.o, attrs[i], s.hs[i]));
      i := i + 1;
    }
    assert attrs[..|attrs|] == attrs;
    c := Done(acc);
  }

  // ---------------------------------------------------------------------------
  // The issuance proof

  /** The shapes under which `__create_zkp_idp` evaluates: every attribute has a
      generator, and every hidden attribute has an ElGamal randomness `k[i]`. */
  predicate IssuanceProofFits(s: Setup, attrs: seq<Attribute>, k: seq<int>)
  {
    |attrs| <= |s.hs| && forall i :: 0 <= i < |attrs| && attrs[i].hidden ==> i < |k|
  }

  /** `Bw`: `wk[i] * pk + wm[i] * h` for every hidden attribute, in order. */
  function HiddenCommitments(o: Order, attrs: seq<Attribute>, wk: seq<int>, wm: seq<int>, pk: int, h: int): seq<int>
    requires forall i :: 0 <= i < |attrs| && attrs[i].hidden ==> i < |wk| && i < |wm|
  {
    if attrs == [] then []
    else
      var n := |attrs| - 1;
      HiddenCommitments(o, attrs[..n], wk, wm, pk, h)
        + (if attrs[n].hidden then [Add(o, Mul(o, wk[n], pk), Mul(o, wm[n], h))] else [])
  }

  /** `Aw = [g1 * wki for wki in wk]`. */
  function Witnesses(o: Order, wk: seq<int>): (r: seq<int>)
    ensures |r| == |wk| && forall i :: 0 <= i < |wk| ==> r[i] == Mul(o, wk[i], G1Gen)
  {
    seq(|wk|, i requires 0 <= i < |wk| => Mul(o, wk[i], G1Gen))
  }

  /** The attribute hashes `Bn.from_binary(sha256(attributes[i][0]).digest())`. */
  function Hashes(s: Setup, attrs: seq<Attribute>): (r: seq<int>)
    ensures |r| == |attrs| && forall i :: 0 <= i < |attrs| ==> r[i] == s.attrHash(attrs[i].value)
  {
    seq(|attrs|, i requires 0 <= i < |attrs| => s.attrHash(attrs[i].value))
  }

  /** `[(ws[i] - c * xs[i]) % o for i in range(len(ws))]`. */
  function Responses(o: Order, ws: seq<int>, c: int, xs: seq<int>): (r: seq<int>)
    requires |ws| <= |xs|
    ensures |r| == |ws| && forall i :: 0 <= i < |ws| ==> r[i] == Response(o, ws[i], c, xs[i])
  {
    seq(|ws|, i requires 0 <= i < |ws| => Response(o, ws[i], c, xs[i]))
  }

  /** `__create_zkp_idp(pk, cypher, C, k, r, attributes)` with the witnesses `wr`, `wk`
      (one per ElGamal randomness) and `wm` (one per attribute): the commitments
      `Cw = wr * g1 + Σ wm_i * hs_i`, `Aw` and `Bw`, the challenge over them, and the
      responses `rr`, `rk`, `rm`. */
  function IssuanceProofOf(s: Setup, pk: int, C: int, k: seq<int>, r: int, attrs: seq<Attribute>,
                           wr: int, wk: seq<int>, wm: seq<int>): (p: Outcome<IssuanceProof>)
    requires |wk| == |k| && |wm| == |attrs|
    ensures p.Raises? <==> !IssuanceProofFits(s, attrs, k)
    ensures p.Done? ==> |p.value.rk| == |k| && |p.value.ra| == |attrs|
    ensures p.Done? ==> 0 <= p.value.rr < s.o
    ensures p.Done? ==> forall i :: 0 <= i < |k| ==> 0 <= p.value.rk[i] < s.o
    ensures p.Done? ==> forall i :: 0 <= i < |attrs| ==> 0 <= p.value.ra[i] < s.o
  {
    if !IssuanceProofFits(s, attrs, k) then Raises
    else
      var h := HashG1(s, C);
      var cw := Fold(s.o, Mul(s.o, wr, G1Gen), Terms(s.o, wm, s.hs));
      var c := IssuanceChallenge(s, C, h, cw, Witnesses(s.o, wk), HiddenCommitments(s.o, attrs, wk, wm, pk, h));
      Done(IssuanceProof(c, Responses(s.o, wk, c, k), Responses(s.o, wm, c, Hashes(s, attrs)), Response(s.o, wr, c, r)))
  }

  /** The loop of `__create_zkp_idp` that builds `Bw` and `Cw`; it raises where the
      source indexes `wk` or `hs` past its end. */
  method CommitWitnesses(s: Setup, attrs: seq<Attribute>, k: seq<int>, wk: seq<int>, wm: seq<int>, pk: int, h: int, wr: int)
    returns (r: Outcome<(seq<int>, int)>)
    requires |wk| == |k| && |wm| == |attrs|
    ensures r.Raises? <==> !IssuanceProofFits(s, attrs, k)
    ensures r.Done? ==> r.value.0 == HiddenCommitments(s.o, attrs, wk, wm, pk, h)
    ensures r.Done? ==> r.value.1 == Fold(s.o, Mul(s.o, wr, G1Gen), Terms(s.o, wm, s.hs))
  {
    var bw := [];
    var cw := Mul(s.o, wr, G1Gen);
    var i := 0;
    while i < |attrs|
      invariant 0 <= i <= |attrs| && i <= |s.hs|
      invariant forall j :: 0 <= j < i && attrs[j].hidden ==> j < |k|
      invariant bw == HiddenCommitments(s.o, attrs[..i], wk, wm, pk, h)
      invariant cw == Fold(s.o, Mul(s.o, wr, G1Gen), Terms(s.o, wm[..i], s.hs))
    {
      if attrs[i].hidden && i >= |wk| {
        return Raises;
      }
      if i >= |s.hs| {
        return Raises;
      }
      assert attrs[..i + 1][..i] == attrs[..i];
      if attrs[i].hidden {
        bw := bw + [Add(s.o, Mul(s.o, wk[i], pk), Mul(s.o, wm[i], h))];
      }
      assert Terms(s.o, wm[..i + 1], s.hs)[..i] == Terms(s.o, wm[..i], s.hs);
      cw := Add(s.o, cw, Mul(s.o, wm[i], s.hs[i]));
      i := i + 1;
    }
    assert attrs[..|attrs|] == attrs;
    assert wm[..|attrs|] == wm;
    r := Done((bw, cw));
  }

  /** `Client.__create_zkp_idp`. */
  method CreateZkpIdp(s: Setup, pk: int, C: int, k: seq<int>, r: int, attrs: seq<Attribute>,
                      wr: int, wk: seq<int>, wm: seq<int>) returns (p: Outcome<IssuanceProof>)
    requires |wk| == |k| && |wm| == |attrs|
    ensures p == IssuanceProofOf(s, pk, C, k, r, attrs, wr, wk, wm)
  {
    var h := HashG1(s, C);
    var aw := Witnesses(s.o, wk);
    var commitments := CommitWitnesses(s, attrs, k, wk, wm, pk, h, wr);
    if commitments.Raises? {
      return Raises;
    }
    var (bw, cw) := commitments.value;
    var c := IssuanceChallenge(s, C, h, cw, aw, bw);
    p := Done(IssuanceProof(c, Responses(s.o, wk, c, k), Responses(s.o, wm, c, Hashes(s, attrs)), Response(s.o, wr, c, r)));
  }

  // ---------------------------------------------------------------------------
  // Unblinding and aggregation

  /** `unbind_sig`: ElGamal decryption `c_2 - d * c_1` with the client's key `d`;
      the base `h` is kept as it is. */
  function UnbindSig(o: Order, d: int, share: BlindShare): (sig: Signature)
    ensures sig.h == share.h
    ensures 0 <= sig.s < o && Cong(o, sig.s + d * share.c1, share.c2)
  {
    Signature(share.h, Response(o, share.c2, d, share.c1))
  }

  function SigValues(sigs: seq<Signature>): (r: seq<int>)
    ensures |r| == |sigs| && forall i :: 0 <= i < |sigs| ==> r[i] == sigs[i].s
  {
    seq(|sigs|, i requires 0 <= i < |sigs| => sigs[i].s)
  }

  /** `agg_cred`: drop the missing shares, weigh the survivors with the Lagrange weights
      of their 1-based positions, and return the first survivor's `h` with
      `Σ λ_i * s_i`; `zip(*filter)` raises when nothing survives. */
  function Aggregate(o: Order, sigs: seq<Option<Signature>>): (r: Outcome<Signature>)
    ensures r.Raises? <==> Kept(sigs) == []
    ensures r.Done? ==> r.value.h == Kept(sigs)[0].h
    ensures r.Done? ==> Cong(o, r.value.s, Dot(Lagrange(o, Positions(sigs)), SigValues(Kept(sigs))))
  {
    var kept := Kept(sigs);
    if kept == [] then Raises
    else
      var l := Lagrange(o, Positions(sigs));
      var ts := Terms(o, l, SigValues(kept));
      FoldCong(o, 0, ts);
      TermsDot(o, l, SigValues(kept));
      Done(Signature(kept[0].h, Fold(o, 0, ts)))
  }

  /** `Client.agg_cred`, with its filtering loop and its `aggr_sig +=` loop. */
  method AggCred(o: Order, sigs: seq<Option<Signature>>) returns (r: Outcome<Signature>)
    ensures r == Aggregate(o, sigs)
  {
    var kept, indexes := Filter(sigs);
    if kept == [] {
      return Raises;
    }
    var l := Lagrange(o, indexes);
    ghost var ts := Terms(o, l, SigValues(kept));
    var acc := 0;
    var i := 0;
    while i < |kept|
      invariant 0 <= i <= |kept|
      invariant acc == Fold(o, 0, ts[..i])
    {
      assert ts[..i + 1][..i] == ts[..i];
      acc := Add(o, acc, Mul(o, l[i], kept[i].s));
      i := i + 1;
    }
    assert ts[..|kept|] == ts;
    r := Done(Signature(kept[0].h, acc));
  }

  // ---------------------------------------------------------------------------
  // The PS verification equation

  /** `verify_sig` on the attribute list `ms = private_m + public_m`:
      `not h.isinf() and e(h, alpha + Σ beta_i * m_i) == e(s, g2)`; indexing `beta`
      past its end raises. */
  function PsCheck(o: Order, sig: Signature, vk: Vk, ms: seq<int>): (r: Outcome<bool>)
    ensures r.Raises? <==> |ms| > |vk.beta|
  {
    if |ms| > |vk.beta| then Raises
    else Done(!IsIdentity(o, sig.h) && Pair(o, sig.h, Fold(o, vk.alpha, Terms(o, ms, vk.beta))) == Pair(o, sig.s, vk.g2))
  }

  /** What the check means: `h` is not the identity and
      `h * (alpha + Σ m_i * beta_i) = s * g2` in the exponents. */
  lemma {:induction false} PsCheckMeaning(o: Order, sig: Signature, vk: Vk, ms: seq<int>)
    requires |ms| <= |vk.beta|
    ensures PsCheck(o, sig, vk, ms) == Done(sig.h % o != 0 && Cong(o, sig.h * (vk.alpha + Dot(ms, vk.beta)), sig.s * vk.g2))
  {
    var ts := Terms(o, ms, vk.beta);
    var v := Fold(o, vk.alpha, ts);
    var w := vk.alpha + Dot(ms, vk.beta);
    FoldCong(o, vk.alpha, ts);
    TermsDot(o, ms, vk.beta);
    CongAdd(o, vk.alpha, RawSum(ts), vk.alpha, Dot(ms, vk.beta));
    CongMul(o, sig.h, v, sig.h, w);
    assert Pair(o, sig.h, v) == (sig.h * w) % o;
    assert Pair(o, sig.s, vk.g2) == (sig.s * vk.g2) % o;
    assert PsCheck(o, sig, vk, ms) == Done(!IsIdentity(o, sig.h) && Pair(o, sig.h, v) == Pair(o, sig.s, vk.g2));
  }

  /** `Client.verify_sig`, with its `verification_result +=` loop. */
  method VerifySig(o: Order, sig: Signature, vk: Vk, publicM: seq<int>, privateM: seq<int>) returns (r: Outcome<bool>)
    ensures r == PsCheck(o, sig, vk, privateM + publicM)
  {
    var ms := privateM + publicM;
    var acc := vk.alpha;
    var i := 0;
    while i < |ms|
      invariant 0 <= i <= |ms| && i <= |vk.beta|
      invariant acc == Fold(o, vk.alpha, Terms(o, ms[..i], vk.beta))
    {
      if i >= |vk.beta| {
        return Raises;
      }
      assert Terms(o, ms[..i + 1], vk.beta)[..i] == Terms(o, ms[..i], vk.beta);
      acc := Add(o, acc, Mul(o, ms[i], vk.beta[i]));
      i := i + 1;
    }
    assert ms[..|ms|] == ms;
    r := Done(!IsIdentity(o, sig.h) && Pair(o, sig.h, acc) == Pair(o, sig.s, vk.g2));
  }

  // ---------------------------------------------------------------------------
  // Re-randomisation

  /** `__randomize_signature`: both components multiplied by the same scalar `rho`. */
  function RandomizeSignature(o: Order, sig: Signature, rho: int): (r: Signature)
    ensures r.h == Mul(o, rho, sig.h) && r.s == Mul(o, rho, sig.s)
  {
    Signature(Mul(o, rho, sig.h), Mul(o, rho, sig.s))
  }

  /** For a prime order and a non-zero scalar, a re-randomised signature passes
      `verify_sig` exactly when the original does. */
  lemma {:induction false} RandomizePreserves(o: Order, sig: Signature, vk: Vk, ms: seq<int>, rho: int)
    requires IsPrime(o) && rho % o != 0
    ensures PsCheck(o, RandomizeSignature(o, sig, rho), vk, ms) == PsCheck(o, sig, vk, ms)
  {
    if |ms| <= |vk.beta| {
      var sig' := RandomizeSignature(o, sig, rho);
      PsCheckMeaning(o, sig, vk, ms);
      PsCheckMeaning(o, sig', vk, ms);
      RandomizedBase(o, rho, sig.h);
      CongReduce(o, rho * sig.h);
      CongReduce(o, rho * sig.s);
      ScaledEquation(o, rho, sig.h, sig.s, sig'.h, sig'.s, vk.alpha + Dot(ms, vk.beta), vk.g2);
    }
  }

  /** The base stays off the identity. */
  lemma RandomizedBase(o: Order, rho: int, h: int)
    requires IsPrime(o) && rho % o != 0
    ensures Mul(o, rho, h) % o != 0 <==> h % o != 0
  {
    CongReduce(o, rho * h);
    if h % o != 0 {
      ProductNonZero(o, rho, h);
    } else {
      CongMul(o, rho, h, rho, 0);
    }
  }

  /** The pairing equation scales by `rho` on both sides. */
  lemma ScaledEquation(o: Order, rho: int, h: int, s: int, h': int, s': int, v: int, g2: int)
    requires IsPrime(o) && rho % o != 0 && Cong(o, h', rho * h) && Cong(o, s', rho * s)
    ensures Cong(o, h' * v, s' * g2) <==> Cong(o, h * v, s * g2)
  {
    CongMul(o, h', v, rho * h, v);
    CongMul(o, s', g2, rho * s, g2);
    Associate(rho, h, v);
    Associate(rho, s, g2);
    if Cong(o, h * v, s * g2) {
      CongMul(o, rho, h * v, rho, s * g2);
    }
    if Cong(o, h' * v, s' * g2) {
      Cancel(o, rho, h * v, s * g2);
    }
  }

  lemma Associate(a: int, b: int, c: int)
    ensures a * b * c == a * (b * c)
  {
  }

  // ---------------------------------------------------------------------------
  // Presentation

  function HiddenMask(attrs: seq<Attribute>): (m: seq<bool>)
    ensures |m| == |attrs| && forall i :: 0 <= i < |attrs| ==> m[i] == attrs[i].hidden
  {
    seq(|attrs|, i requires 0 <= i < |attrs| => attrs[i].hidden)
  }

  /** The values of the hidden attributes, in order. */
  function HiddenValues(attrs: seq<Attribute>): (r: seq<seq<byte>>)
    ensures |r| <= |attrs|
  {
    if attrs == [] then []
    else
      var n := |attrs| - 1;
      HiddenValues(attrs[..n]) + (if attrs[n].hidden then [attrs[n].value] else [])
  }

  function HashList(s: Setup, vs: seq<seq<byte>>): (r: seq<int>)
    ensures |r| == |vs| && forall i :: 0 <= i < |vs| ==> r[i] == s.attrHash(vs[i])
  {
    seq(|vs|, i requires 0 <= i < |vs| => s.attrHash(vs[i]))
  }

  /** The hidden attributes come before the public ones. `__create_zkp_rp` reads the
      witness of the hidden attribute at position `i` as `wm[i]` while `wm` only has
      one entry per hidden attribute so far, so it raises otherwise. */
  predicate HiddenFirst(attrs: seq<Attribute>)
  {
    forall i, j :: 0 <= j < i < |attrs| && attrs[i].hidden ==> attrs[j].hidden
  }

  /** Every hidden attribute has a `beta` of its own. */
  predicate HiddenFit(attrs: seq<Attribute>, beta: seq<int>)
  {
    forall i :: 0 <= i < |attrs| && attrs[i].hidden ==> i < |beta|
  }

  /** Counting hidden attributes: the count reaches the length only when all are hidden. */
  lemma {:induction false} HiddenCount(attrs: seq<Attribute>)
    ensures |HiddenValues(attrs)| == |attrs| <==> forall i :: 0 <= i < |attrs| ==> attrs[i].hidden
  {
    if attrs != [] {
      var n := |attrs| - 1;
      HiddenCount(attrs[..n]);
      assert forall i :: 0 <= i < n ==> attrs[..n][i] == attrs[i];
    }
  }

  /** With the hidden attributes first, the hidden ones are exactly the first
      `|HiddenValues(attrs)|`, and their values are listed in place. */
  lemma {:induction false} HiddenFirstLayout(attrs: seq<Attribute>)
    requires HiddenFirst(attrs)
    ensures forall i :: 0 <= i < |attrs| ==> (attrs[i].hidden <==> i < |HiddenValues(attrs)|)
    ensures forall j :: 0 <= j < |HiddenValues(attrs)| ==> HiddenValues(attrs)[j] == attrs[j].value
  {
    if attrs != [] {
      var n := |attrs| - 1;
      var init := attrs[..n];
      assert HiddenFirst(init) by {
        forall i, j | 0 <= j < i < |init| && init[i].hidden ensures init[j].hidden {
          assert attrs[i] == init[i] && attrs[j] == init[j];
        }
      }
      HiddenFirstLayout(init);
      HiddenCount(init);
      if attrs[n].hidden {
        assert forall j :: 0 <= j < n ==> attrs[j].hidden;
        assert forall j :: 0 <= j < n ==> init[j] == attrs[j];
      }
    }
  }

  /** With the hidden attributes first, every hidden position has a witness, a hash
      and a `beta`: the hidden mask reaches no further than the hidden values do. */
  lemma {:induction false} HiddenReach(attrs: seq<Attribute>, beta: seq<int>)
    requires HiddenFirst(attrs) && HiddenFit(attrs, beta)
    ensures Reach(HiddenMask(attrs)) <= |HiddenValues(attrs)| && Reach(HiddenMask(attrs)) <= |beta|
  {
    var n := Reach(HiddenMask(attrs));
    if n > 0 {
      HiddenFirstLayout(attrs);
      ReachLast(HiddenMask(attrs));
      assert attrs[n - 1].hidden;
    }
  }

  /** The redacted list `["" if attr[1] else attr[0] for attr in attributes]`. */
  function Redact(attrs: seq<Attribute>): (r: seq<Slot>)
    ensures |r| == |attrs|
    ensures forall i :: 0 <= i < |attrs| ==> (r[i] == Redacted <==> attrs[i].hidden)
    ensures forall i :: 0 <= i < |attrs| && !attrs[i].hidden ==> r[i] == Revealed(attrs[i].value)
  {
    if attrs == [] then []
    else [if attrs[0].hidden then Redacted else Revealed(attrs[0].value)] + Redact(attrs[1..])
  }

  /** `__create_zkp_rp(attributes, aggr_vk, sig, t)` with the witnesses `wt` and `wms`
      (one per hidden attribute): `Aw = wt * g2 + alpha + Σ_hidden wm_i * beta_i`,
      `Bw = wt * h`, the challenge over them, and the responses `rm` (one per hidden
      attribute, in order) and `rt`. */
  function PresentationProofOf(s: Setup, attrs: seq<Attribute>, vk: Vk, h: int, t: int, wt: int, wms: seq<int>)
    : (p: Outcome<PresentationProof>)
    requires |wms| == |HiddenValues(attrs)|
    ensures p.Raises? <==> !(HiddenFirst(attrs) && HiddenFit(attrs, vk.beta))
    ensures p.Done? ==> |p.value.ra| == |wms| && 0 <= p.value.rr < s.o
    ensures p.Done? ==> forall j :: 0 <= j < |wms| ==> 0 <= p.value.ra[j] < s.o
  {
    if !(HiddenFirst(attrs) && HiddenFit(attrs, vk.beta)) then Raises
    else
      HiddenFirstLayout(attrs);
      HiddenReach(attrs, vk.beta);
      var aw := Fold(s.o, Add(s.o, Mul(s.o, wt, vk.g2), vk.alpha), MaskedTerms(s.o, HiddenMask(attrs), wms, vk.beta));
      var c := PresentationChallenge(s, vk, aw, Mul(s.o, wt, h));
      Done(PresentationProof(c, Responses(s.o, wms, c, HashList(s, HiddenValues(attrs))), Response(s.o, wt, c, t)))
  }

  /** One step of `HiddenValues` along a prefix. */
  lemma HiddenValuesStep(attrs: seq<Attribute>, i: nat)
    requires i < |attrs|
    ensures HiddenValues(attrs[..i + 1]) == HiddenValues(attrs[..i]) + (if attrs[i].hidden then [attrs[i].value] else [])
  {
    assert attrs[..i + 1][..i] == attrs[..i];
  }

  /** One more response, for one more hidden attribute. */
  lemma ResponsesStep(s: Setup, wms: seq<int>, j: nat, c: int, vs: seq<seq<byte>>, v: seq<byte>)
    requires j < |wms| && j == |vs|
    ensures Responses(s.o, wms[..j + 1], c, HashList(s, vs + [v]))
      == Responses(s.o, wms[..j], c, HashList(s, vs)) + [Response(s.o, wms[j], c, s.attrHash(v))]
  {
  }

  /** The state of the first loop of `__create_zkp_rp` after `i` attributes: the
      hidden ones so far are the first `|wm|`, each has drawn its witness and added
      `wm[j] * beta[j]` to `aw`. */
  predicate WitnessLoop(s: Setup, attrs: seq<Attribute>, vk: Vk, start: int, wms: seq<int>, i: nat, wm: seq<int>, aw: int)
  {
    i <= |attrs| && |wm| <= i && |wm| <= |vk.beta|
    && (forall j :: 0 <= j < i ==> (attrs[j].hidden <==> j < |wm|))
    && |wm| == |HiddenValues(attrs[..i])| <= |wms| && wm == wms[..|wm|]
    && MaskFits(HiddenMask(attrs)[..i], wms, vk.beta)
    && aw == Fold(s.o, start, MaskedTerms(s.o, HiddenMask(attrs)[..i], wms, vk.beta))
  }

  /** A hidden attribute in place extends the loop state by its witness and term. */
  lemma WitnessHidden(s: Setup, attrs: seq<Attribute>, vk: Vk, start: int, wms: seq<int>, i: nat, wm: seq<int>, aw: int)
    requires |wms| == |HiddenValues(attrs)| && i < |attrs| && WitnessLoop(s, attrs, vk, start, wms, i, wm, aw)
    requires attrs[i].hidden && i == |wm| && i < |vk.beta|
    ensures |wm| < |wms|
    ensures WitnessLoop(s, attrs, vk, start, wms, i + 1, wm + [wms[|wm|]], Add(s.o, aw, Mul(s.o, wms[i], vk.beta[i])))
  {
    WitnessHiddenCount(attrs, wms, i, wm);
    WitnessHiddenSum(s, attrs, vk, start, wms, i, aw);
  }

  /** The counting half of `WitnessHidden`. */
  lemma WitnessHiddenCount(attrs: seq<Attribute>, wms: seq<int>, i: nat, wm: seq<int>)
    requires |wms| == |HiddenValues(attrs)| && i < |attrs| && attrs[i].hidden && i == |wm|
    requires forall j :: 0 <= j < i ==> (attrs[j].hidden <==> j < |wm|)
    requires |wm| == |HiddenValues(attrs[..i])| <= |wms| && wm == wms[..|wm|]
    ensures |wm| < |wms|
    ensures forall j :: 0 <= j < i + 1 ==> (attrs[j].hidden <==> j < |wm| + 1)
    ensures |wm| + 1 == |HiddenValues(attrs[..i + 1])| <= |wms| && wm + [wms[|wm|]] == wms[..|wm| + 1]
  {
    HiddenValuesStep(attrs, i);
    HiddenPrefix(attrs, i + 1);
    assert wms[..|wm| + 1] == wm + [wms[|wm|]];
  }

  /** The summing half of `WitnessHidden`. */
  lemma WitnessHiddenSum(s: Setup, attrs: seq<Attribute>, vk: Vk, start: int, wms: seq<int>, i: nat, aw: int)
    requires i < |attrs| && attrs[i].hidden && i < |wms| && i < |vk.beta|
    requires MaskFits(HiddenMask(attrs)[..i], wms, vk.beta)
    requires aw == Fold(s.o, start, MaskedTerms(s.o, HiddenMask(attrs)[..i], wms, vk.beta))
    ensures MaskFits(HiddenMask(attrs)[..i + 1], wms, vk.beta)
    ensures Add(s.o, aw, Mul(s.o, wms[i], vk.beta[i])) == Fold(s.o, start, MaskedTerms(s.o, HiddenMask(attrs)[..i + 1], wms, vk.beta))
  {
    var mask := HiddenMask(attrs);
    FoldSnoc(s.o, start, MaskedTerms(s.o, mask[..i], wms, vk.beta), Mul(s.o, wms[i], vk.beta[i]));
    MaskedPrefix(s.o, mask, wms, vk.beta, i);
  }

  /** A public attribute leaves the loop state as it is. */
  lemma WitnessPublic(s: Setup, attrs: seq<Attribute>, vk: Vk, start: int, wms: seq<int>, i: nat, wm: seq<int>, aw: int)
    requires i < |attrs| && WitnessLoop(s, attrs, vk, start, wms, i, wm, aw)
    requires !attrs[i].hidden
    ensures WitnessLoop(s, attrs, vk, start, wms, i + 1, wm, aw)
  {
    var mask := HiddenMask(attrs);
    HiddenValuesStep(attrs, i);
    assert MaskedTerms(s.o, mask[..i], wms, vk.beta) + [] == MaskedTerms(s.o, mask[..i], wms, vk.beta);
    MaskedPrefix(s.o, mask, wms, vk.beta, i);
  }

  /** One iteration of the first loop of `__create_zkp_rp`. */
  method WitnessIteration(s: Setup, attrs: seq<Attribute>, vk: Vk, start: int, wms: seq<int>, i: nat, wm: seq<int>, aw: int)
    returns (r: Outcome<(seq<int>, int)>)
    requires |wms| == |HiddenValues(attrs)| && i < |attrs| && WitnessLoop(s, attrs, vk, start, wms, i, wm, aw)
    ensures r.Raises? ==> !(HiddenFirst(attrs) && HiddenFit(attrs, vk.beta))
    ensures r.Done? ==> WitnessLoop(s, attrs, vk, start, wms, i + 1, r.value.0, r.value.1)
  {
    if !attrs[i].hidden {
      WitnessPublic(s, attrs, vk, start, wms, i, wm, aw);
      return Done((wm, aw));
    }
    if i != |wm| {
      // `wm[i]` is missing: attribute `|wm|` before `i` is public.
      assert !attrs[|wm|].hidden;
      return Raises;
    }
    if i >= |vk.beta| {
      return Raises;
    }
    WitnessHidden(s, attrs, vk, start, wms, i, wm, aw);
    var wm' := wm + [wms[|wm|]];
    r := Done((wm', Add(s.o, aw, Mul(s.o, wm'[i], vk.beta[i]))));
  }

  /** The first loop of `__create_zkp_rp`: draw one witness per hidden attribute and
      add `wm[i] * beta[i]` to `Aw`, raising where `wm[i]` or `beta[i]` is missing. */
  method HiddenWitnessSum(s: Setup, attrs: seq<Attribute>, vk: Vk, start: int, wms: seq<int>) returns (r: Outcome<int>)
    requires |wms| == |HiddenValues(attrs)|
    ensures r.Raises? <==> !(HiddenFirst(attrs) && HiddenFit(attrs, vk.beta))
    ensures r.Done? ==> MaskFits(HiddenMask(attrs), wms, vk.beta)
    ensures r.Done? ==> r.value == Fold(s.o, start, MaskedTerms(s.o, HiddenMask(attrs), wms, vk.beta))
  {
    var wm: seq<int> := [];
    var aw := start;
    var i := 0;
    while i < |attrs|
      invariant WitnessLoop(s, attrs, vk, start, wms, i, wm, aw)
    {
      var step := WitnessIteration(s, attrs, vk, start, wms, i, wm, aw);
      if step.Raises? {
        return Raises;
      }
      wm, aw := step.value.0, step.value.1;
      i := i + 1;
    }
    assert attrs[..|attrs|] == attrs;
    assert HiddenMask(attrs)[..|attrs|] == HiddenMask(attrs);
    r := Done(aw);
  }

  /** A prefix has at most as many hidden attributes as the whole list. */
  lemma {:induction false} HiddenPrefix(attrs: seq<Attribute>, i: nat)
    requires i <= |attrs|
    ensures |HiddenValues(attrs[..i])| <= |HiddenValues(attrs)|
    decreases |attrs| - i
  {
    if i < |attrs| {
      HiddenPrefix(attrs, i + 1);
      assert attrs[..i + 1][..i] == attrs[..i];
    } else {
      assert attrs[..i] == attrs;
    }
  }

  /** One turn of the second loop of `__create_zkp_rp`: a hidden attribute adds its
      response and moves `j` on, a public one changes nothing. */
  lemma ResponseLoopStep(s: Setup, attrs: seq<Attribute>, wms: seq<int>, c: int, i: nat, j: nat)
    requires |wms| == |HiddenValues(attrs)| && i < |attrs| && j == |HiddenValues(attrs[..i])| && j <= |wms|
    ensures attrs[i].hidden ==> j < |wms|
    ensures j + (if attrs[i].hidden then 1 else 0) == |HiddenValues(attrs[..i + 1])| <= |wms|
    ensures attrs[i].hidden ==>
      Responses(s.o, wms[..j + 1], c, HashList(s, HiddenValues(attrs[..i + 1])))
      == Responses(s.o, wms[..j], c, HashList(s, HiddenValues(attrs[..i]))) + [Response(s.o, wms[j], c, s.attrHash(attrs[i].value))]
    ensures !attrs[i].hidden ==> HiddenValues(attrs[..i + 1]) == HiddenValues(attrs[..i])
  {
    HiddenValuesStep(attrs, i);
    HiddenPrefix(attrs, i + 1);
    if attrs[i].hidden {
      ResponsesStep(s, wms, j, c, HiddenValues(attrs[..i]), attrs[i].value);
    }
  }

  /** `Client.__create_zkp_rp`, with its two loops (the second keeps its counter `j`). */
  method CreateZkpRp(s: Setup, attrs: seq<Attribute>, vk: Vk, h: int, t: int, wt: int, wms: seq<int>)
    returns (p: Outcome<PresentationProof>)
    requires |wms| == |HiddenValues(attrs)|
    ensures p == PresentationProofOf(s, attrs, vk, h, t, wt, wms)
  {
    var bw := Mul(s.o, wt, h);
    var sum := HiddenWitnessSum(s, attrs, vk, Add(s.o, Mul(s.o, wt, vk.g2), vk.alpha), wms);
    if sum.Raises? {
      return Raises;
    }
    var c := PresentationChallenge(s, vk, sum.value, bw);
    var rm: seq<int> := [];
    var j := 0;
    var i := 0;
    while i < |attrs|
      invariant 0 <= i <= |attrs| && j == |HiddenValues(attrs[..i])|
      invariant j <= |wms| && rm == Responses(s.o, wms[..j], c, HashList(s, HiddenValues(attrs[..i])))
    {
      ResponseLoopStep(s, attrs, wms, c, i, j);
      if attrs[i].hidden {
        rm := rm + [Response(s.o, wms[j], c, s.attrHash(attrs[i].value))];
        j := j + 1;
      }
      i := i + 1;
    }
    assert attrs[..|attrs|] == attrs;
    assert wms[..j] == wms;
    p := Done(PresentationProof(c, rm, Response(s.o, wt, c, t)));
  }

  /** The key `k` of `prove_id`: `alpha` plus `r * g2` plus the hidden
      attributes' `beta` terms, as an exponent. */
  function BlindedKey(o: Order, r: int, g2: int, alpha: int, mask: seq<bool>, hashes: seq<int>, beta: seq<int>): int
    requires MaskFits(mask, hashes, beta)
  {
    Fold(o, Add(o, Mul(o, r, g2), alpha), MaskedTerms(o, mask, hashes, beta))
  }

  /** The key is `r * g2 + alpha + Σ_hidden H(m_i) * beta_i`, as an exponent. */
  lemma BlindedKeyValue(o: Order, r: int, g2: int, alpha: int, mask: seq<bool>, hashes: seq<int>, beta: seq<int>)
    requires MaskFits(mask, hashes, beta)
    ensures Cong(o, BlindedKey(o, r, g2, alpha, mask, hashes, beta), r * g2 + alpha + SelectedSum(o, mask, hashes, beta))
  {
    FoldAffine(o, r, g2, alpha, mask, hashes, beta);
  }

  /** `prove_id(sig, attributes, aggr_vk)` with the scalars `r` (for `k` and `vu`),
      `rho` (the re-randomisation) and the proof's witnesses:
      `k = r * g2 + alpha + Σ_hidden H(m_i) * beta_i`, `vu = r * h'` for the
      re-randomised `(h', s')`, the presentation proof, and the redacted attributes. */
  function Presentation(s: Setup, sig: Signature, attrs: seq<Attribute>, vk: Vk, r: int, rho: int, wt: int, wms: seq<int>)
    : (p: Outcome<CredProof>)
    requires |wms| == |HiddenValues(attrs)|
    ensures p.Raises? <==> !(HiddenFirst(attrs) && HiddenFit(attrs, vk.beta))
    ensures p.Done? ==> p.value.sig == RandomizeSignature(s.o, sig, rho) && p.value.vu == Mul(s.o, r, p.value.sig.h)
    ensures p.Done? ==> p.value.attributes == Redact(attrs)
    ensures p.Done? ==> MaskFits(HiddenMask(attrs), Hashes(s, attrs), vk.beta)
    ensures p.Done? ==> p.value.k == BlindedKey(s.o, r, vk.g2, vk.alpha, HiddenMask(attrs), Hashes(s, attrs), vk.beta)
  {
    var proof := PresentationProofOf(s, attrs, vk, RandomizeSignature(s.o, sig, rho).h, r, wt, wms);
    if proof.Raises? then Raises
    else
      HiddenReach(attrs, vk.beta);
      var sig' := RandomizeSignature(s.o, sig, rho);
      Done(CredProof(BlindedKey(s.o, r, vk.g2, vk.alpha, HiddenMask(attrs), Hashes(s, attrs), vk.beta),
        Mul(s.o, r, sig'.h), sig', proof.value, Redact(attrs)))
  }

  /** `Client.prove_id`, with its `k +=` loop. */
  method ProveId(s: Setup, sig: Signature, attrs: seq<Attribute>, vk: Vk, r: int, rho: int, wt: int, wms: seq<int>)
    returns (p: Outcome<CredProof>)
    requires |wms| == |HiddenValues(attrs)|
    ensures p == Presentation(s, sig, attrs, vk, r, rho, wt, wms)
  {
    var sig' := RandomizeSignature(s.o, sig, rho);
    var mask := HiddenMask(attrs);
    var hashes := Hashes(s, attrs);
    var start := Add(s.o, Mul(s.o, r, vk.g2), vk.alpha);
    var k := MaskedSum(s.o, start, mask, hashes, vk.beta);
    if k.Raises? {
      return Raises;
    }
    var nu := Mul(s.o, r, sig'.h);
    var proof := CreateZkpRp(s, attrs, vk, sig'.h, r, wt, wms);
    if proof.Raises? {
      return Raises;
    }
    p := Done(CredProof(k.value, nu, sig', proof.value, Redact(attrs)));
  }
}
