/** A relying party (src/rp.py): it recomputes the presentation proof of a
    credential, adds the contribution of the revealed attributes to `k`, and checks
    the Pointcheval–Sanders pairing equation on the re-randomised signature. */
module RP {
  import opened Modular
  import opened Challenge
  import opened Protocol

  /** The slots the client redacted (`attribute == ""`). */
  function RedactedMask(slots: seq<Slot>): (m: seq<bool>)
    ensures |m| == |slots| && forall i :: 0 <= i < |slots| ==> m[i] == slots[i].Redacted?
  {
    seq(|slots|, i requires 0 <= i < |slots| => slots[i].Redacted?)
  }

  /** `Bn.from_binary(sha256(attribute).digest())` for every revealed slot; a redacted
      slot is never hashed, and 0 stands in for it. */
  function SlotHashes(s: Setup, slots: seq<Slot>): (r: seq<int>)
    ensures |r| == |slots|
    ensures forall i :: 0 <= i < |slots| && slots[i].Revealed? ==> r[i] == s.attrHash(slots[i].value)
  {
    seq(|slots|, i requires 0 <= i < |slots| => if slots[i].Revealed? then s.attrHash(slots[i].value) else 0)
  }

  // ---------------------------------------------------------------------------
  // The presentation proof

  /** The starting value of `Va`: `c * k + rr * g2 + (1 - c) * alpha`. */
  function VaStart(s: Setup, proof: CredProof, vk: Vk): int
  {
    var z := proof.zkp;
    Add(s.o, Add(s.o, Mul(s.o, z.c, proof.k), Mul(s.o, z.rr, vk.g2)), Mul(s.o, 1 - z.c, vk.alpha))
  }

  /** `Va` after the loop `Va += ra[i] * beta[i]` over the redacted slots: in the
      exponents, `c * k + rr * g2 + (1 - c) * alpha + Σ_redacted ra_i * beta_i`. */
  function RecomputedVa(s: Setup, proof: CredProof, vk: Vk): (va: int)
    requires MaskFits(RedactedMask(proof.attributes), proof.zkp.ra, vk.beta)
    ensures Cong(s.o, va, proof.zkp.c * proof.k + proof.zkp.rr * vk.g2 + (1 - proof.zkp.c) * vk.alpha
      + SelectedSum(s.o, RedactedMask(proof.attributes), proof.zkp.ra, vk.beta))
  {
    var z := proof.zkp;
    var ts := MaskedTerms(s.o, RedactedMask(proof.attributes), z.ra, vk.beta);
    var start := VaStart(s, proof, vk);
    MulCong(s.o, z.c, proof.k);
    MulCong(s.o, z.rr, vk.g2);
    MulCong(s.o, 1 - z.c, vk.alpha);
    AddCong(s.o, Mul(s.o, z.c, proof.k), Mul(s.o, z.rr, vk.g2), z.c * proof.k, z.rr * vk.g2);
    AddCong(s.o, Add(s.o, Mul(s.o, z.c, proof.k), Mul(s.o, z.rr, vk.g2)), Mul(s.o, 1 - z.c, vk.alpha),
      z.c * proof.k + z.rr * vk.g2, (1 - z.c) * vk.alpha);
    FoldCong(s.o, start, ts);
    CongAdd(s.o, start, RawSum(ts), z.c * proof.k + z.rr * vk.g2 + (1 - z.c) * vk.alpha, RawSum(ts));
    Fold(s.o, start, ts)
  }

  /** `Vr = c * vu + rr * h`, with `h` the first component of the signature. */
  function RecomputedVr(s: Setup, proof: CredProof): (vr: int)
    ensures 0 <= vr < s.o
    ensures Cong(s.o, vr, proof.zkp.c * proof.vu + proof.zkp.rr * proof.sig.h)
  {
    var z := proof.zkp;
    MulCong(s.o, z.c, proof.vu);
    MulCong(s.o, z.rr, proof.sig.h);
    AddCong(s.o, Mul(s.o, z.c, proof.vu), Mul(s.o, z.rr, proof.sig.h), z.c * proof.vu, z.rr * proof.sig.h);
    Add(s.o, Mul(s.o, z.c, proof.vu), Mul(s.o, z.rr, proof.sig.h))
  }

  /** `RP.__verify_zkp`: the proof holds when its challenge is the hash of
      `[g1, g2, alpha, Va, Vr] + hs + beta`. Reading `ra[i]` or `beta[i]` for a
      redacted slot past the end of either list raises. */
  function PresentationHolds(s: Setup, proof: CredProof, vk: Vk): (r: Outcome<bool>)
    ensures r.Raises? <==> !MaskFits(RedactedMask(proof.attributes), proof.zkp.ra, vk.beta)
  {
    if !MaskFits(RedactedMask(proof.attributes), proof.zkp.ra, vk.beta) then Raises
    else Done(proof.zkp.c == PresentationChallenge(s, vk, RecomputedVa(s, proof, vk), RecomputedVr(s, proof)))
  }

  /** `RP.__verify_zkp`, with its `Va +=` loop. */
  method VerifyZkp(s: Setup, proof: CredProof, vk: Vk) returns (r: Outcome<bool>)
    ensures r == PresentationHolds(s, proof, vk)
  {
    var z := proof.zkp;
    var va := MaskedSum(s.o, VaStart(s, proof, vk), RedactedMask(proof.attributes), z.ra, vk.beta);
    if va.Raises? {
      return Raises;
    }
    var vr := Add(s.o, Mul(s.o, z.c, proof.vu), Mul(s.o, z.rr, proof.sig.h));
    r := Done(z.c == PresentationChallenge(s, vk, va.value, vr));
  }

  // ---------------------------------------------------------------------------
  // The identity check

  /** `aggr`: from the G2 identity, `H(attribute) * beta[i]` for every revealed slot,
      raising when a revealed slot has no `beta`. */
  function PublicContribution(s: Setup, slots: seq<Slot>, vk: Vk): (r: Outcome<int>)
    ensures r.Raises? <==> exists i :: 0 <= i < |slots| && slots[i].Revealed? && i >= |vk.beta|
    ensures r.Done? ==> MaskFits(Not(RedactedMask(slots)), SlotHashes(s, slots), vk.beta)
    ensures r.Done? ==> Cong(s.o, r.value, SelectedSum(s.o, Not(RedactedMask(slots)), SlotHashes(s, slots), vk.beta))
  {
    var mask := Not(RedactedMask(slots));
    if !MaskFits(mask, SlotHashes(s, slots), vk.beta) then
      ReachLast(mask);
      var i := Reach(mask) - 1;
      assert mask[i] && i >= |vk.beta|;
      Raises
    else
      FitsMeaning(mask, SlotHashes(s, slots), vk.beta);
      var ts := MaskedTerms(s.o, mask, SlotHashes(s, slots), vk.beta);
      FoldCong(s.o, 0, ts);
      Done(Fold(s.o, 0, ts))
  }

  /** `RP.verify_id`: `False` as soon as the presentation proof fails; otherwise
      `not h.isinf() and e(h, k + aggr) == e(s + vu, g2)`. */
  function Accepts(s: Setup, proof: CredProof, vk: Vk): (r: Outcome<bool>)
    ensures PresentationHolds(s, proof, vk) == Done(false) ==> r == Done(false)
    ensures r == Done(true) ==> PresentationHolds(s, proof, vk) == Done(true)
    ensures r == Done(true) ==> !IsIdentity(s.o, proof.sig.h)
    ensures r.Raises? <==> (PresentationHolds(s, proof, vk).Raises?
      || (PresentationHolds(s, proof, vk) == Done(true) && PublicContribution(s, proof.attributes, vk).Raises?))
  {
    match PresentationHolds(s, proof, vk)
    case Raises => Raises
    case Done(holds) =>
      if !holds then Done(false)
      else
        match PublicContribution(s, proof.attributes, vk)
        case Raises => Raises
        case Done(aggr) => Done(Verdict(s, proof, vk, aggr))
  }

  /** `not h.isinf() and e(h, k + aggr) == e(s + vu, g2)`. */
  predicate Verdict(s: Setup, proof: CredProof, vk: Vk, aggr: int)
  {
    var sig := proof.sig;
    !IsIdentity(s.o, sig.h) && Pair(s.o, sig.h, Add(s.o, proof.k, aggr)) == Pair(s.o, Add(s.o, sig.s, proof.vu), vk.g2)
  }

  /** What acceptance means once the proof holds: `h` is not the identity and
      `h * (k + Σ_revealed H(m_i) * beta_i) = (s + vu) * g2` in the exponents. */
  lemma {:induction false} AcceptsMeaning(s: Setup, proof: CredProof, vk: Vk)
    requires PresentationHolds(s, proof, vk) == Done(true)
    requires MaskFits(Not(RedactedMask(proof.attributes)), SlotHashes(s, proof.attributes), vk.beta)
    ensures Accepts(s, proof, vk).Done?
    ensures Accepts(s, proof, vk).value <==> proof.sig.h % s.o != 0 && Cong(s.o,
      proof.sig.h * (proof.k + SelectedSum(s.o, Not(RedactedMask(proof.attributes)), SlotHashes(s, proof.attributes), vk.beta)),
      (proof.sig.s + proof.vu) * vk.g2)
  {
    var pub := PublicContribution(s, proof.attributes, vk);
    var sum := SelectedSum(s.o, Not(RedactedMask(proof.attributes)), SlotHashes(s, proof.attributes), vk.beta);
    var holds := Verdict(s, proof, vk, pub.value);
    assert Accepts(s, proof, vk) == Done(holds);
    assert holds == (proof.sig.h % s.o != 0 && Cong(s.o, proof.sig.h * (proof.k + sum), (proof.sig.s + proof.vu) * vk.g2)) by {
      PairingEquation(s.o, proof.sig.h, proof.k, pub.value, sum, proof.sig.s, proof.vu, vk.g2);
    }
  }

  /** `e(h, k + aggr) == e(s + vu, g2)` in the exponents, with `aggr` known up to
      the order. */
  lemma PairingEquation(o: Order, h: int, k: int, aggr: int, sum: int, s: int, vu: int, g2: int)
    requires Cong(o, aggr, sum)
    ensures Pair(o, h, Add(o, k, aggr)) == Pair(o, Add(o, s, vu), g2) <==> Cong(o, h * (k + sum), (s + vu) * g2)
  {
    var left, right := Add(o, k, aggr), Add(o, s, vu);
    AddCong(o, k, aggr, k, sum);
    AddCong(o, s, vu, s, vu);
    CongMul(o, h, left, h, k + sum);
    CongMul(o, right, g2, s + vu, g2);
  }

  /** `RP.verify_id`, with its `aggr +=` loop. */
  method VerifyId(s: Setup, proof: CredProof, vk: Vk) returns (r: Outcome<bool>)
    ensures r == Accepts(s, proof, vk)
  {
    var holds := VerifyZkp(s, proof, vk);
    if holds.Raises? {
      return Raises;
    }
    if !holds.value {
      return Done(false);
    }
    var slots := proof.attributes;
    var aggr := MaskedSum(s.o, 0, Not(RedactedMask(slots)), SlotHashes(s, slots), vk.beta);
    if aggr.Raises? {
      return Raises;
    }
    r := Done(Verdict(s, proof, vk, aggr.value));
  }
}
