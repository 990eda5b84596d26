/** An identity provider (src/idp.py): it checks the issuance proof of a request and,
    when the proof holds, blindly signs the request's ElGamal-encrypted hidden
    attributes together with its public ones. */
module IdP {
  import opened Modular
  import opened Challenge
  import opened Protocol

  // ---------------------------------------------------------------------------
  // The issuance proof

  /** The shapes under which `__verify_zkp` evaluates: `zip(*cypher)` needs at least
      one ciphertext to unpack into `(a, b)`, `Va` indexes `a` by the positions of
      `rk`, `Vb` indexes `rk` and `ra` by the positions of the ciphertexts, and the
      `Vc` loop indexes `hs` by the positions of `ra`. */
  predicate IssuanceFits(s: Setup, req: Request)
  {
    var z := req.zkp;
    |req.cypher| >= 1 && |z.rk| == |req.cypher| && |req.cypher| <= |z.ra| <= |s.hs|
  }

  /** `Va = [c * a[i] + rk[i] * g1 for i in range(len(rk))]`. */
  function IssuanceVa(s: Setup, req: Request): seq<int>
    requires |req.zkp.rk| <= |req.cypher|
  {
    var z := req.zkp;
    seq(|z.rk|, i requires 0 <= i < |z.rk| =>
      Add(s.o, Mul(s.o, z.c, req.cypher[i].0), Mul(s.o, z.rk[i], G1Gen)))
  }

  /** `Vb = [c * b[i] + rk[i] * pk + ra[i] * h for i in range(len(cypher))]`. */
  function IssuanceVb(s: Setup, req: Request, h: int): seq<int>
    requires |req.cypher| <= |req.zkp.rk| && |req.cypher| <= |req.zkp.ra|
  {
    var z := req.zkp;
    seq(|req.cypher|, i requires 0 <= i < |req.cypher| =>
      Add(s.o, Add(s.o, Mul(s.o, z.c, req.cypher[i].1), Mul(s.o, z.rk[i], req.usersPk)), Mul(s.o, z.ra[i], h)))
  }

  /** The starting value of `Vc`: `c * C + rr * g1`. */
  function IssuanceVcStart(s: Setup, req: Request): int
  {
    Add(s.o, Mul(s.o, req.zkp.c, req.C), Mul(s.o, req.zkp.rr, G1Gen))
  }

  /** `Vc` after the loop `Vc += ra[i] * hs[i]`. */
  function IssuanceVc(s: Setup, req: Request): int
    requires |req.zkp.ra| <= |s.hs|
  {
    Fold(s.o, IssuanceVcStart(s, req), Terms(s.o, req.zkp.ra, s.hs))
  }

  /** `__verify_zkp`: the proof holds when its challenge is the hash of the recomputed
      commitments; it raises on a request of the wrong shape. */
  function VerifyIssuance(s: Setup, req: Request): (r: Outcome<bool>)
    ensures r.Raises? <==> !IssuanceFits(s, req)
  {
    if !IssuanceFits(s, req) then Raises
    else
      var h := HashG1(s, req.C);
      Done(req.zkp.c == IssuanceChallenge(s, req.C, h, IssuanceVc(s, req), IssuanceVa(s, req), IssuanceVb(s, req, h)))
  }

  /** `IdP.__verify_zkp`, with its `Vc` accumulation loop. */
  method VerifyZkp(s: Setup, req: Request) returns (r: Outcome<bool>)
    ensures r == VerifyIssuance(s, req)
  {
    if !IssuanceFits(s, req) {
      return Raises;
    }
    var h := HashG1(s, req.C);
    var z := req.zkp;
    var va := IssuanceVa(s, req);
    var vb := IssuanceVb(s, req, h);
    ghost var terms := Terms(s.o, z.ra, s.hs);
    var vc := IssuanceVcStart(s, req);
    var i := 0;
    while i < |z.ra|
      invariant 0 <= i <= |z.ra|
      invariant vc == Fold(s.o, IssuanceVcStart(s, req), terms[..i])
    {
      assert terms[..i + 1][..i] == terms[..i];
      vc := Add(s.o, vc, Mul(s.o, z.ra[i], s.hs[i]));
      i := i + 1;
    }
    assert terms[..|z.ra|] == terms;
    r := Done(z.c == IssuanceChallenge(s, req.C, h, vc, va, vb));
  }

  // ---------------------------------------------------------------------------
  // Blind signing

  /** The values of the revealed slots, in order. */
  function RevealedValues(slots: seq<Slot>): seq<seq<byte>>
  {
    if slots == [] then []
    else
      var n := |slots| - 1;
      RevealedValues(slots[..n]) + (if slots[n].Revealed? then [slots[n].value] else [])
  }

  /** `C_pub`: `H(attribute) * h` for every slot that is not `""`, in slot order. */
  function PublicCommitments(s: Setup, slots: seq<Slot>, h: int): (r: seq<int>)
    ensures |r| == |RevealedValues(slots)|
    ensures forall j :: 0 <= j < |r| ==> r[j] == Mul(s.o, s.attrHash(RevealedValues(slots)[j]), h)
  {
    if slots == [] then []
    else
      var n := |slots| - 1;
      PublicCommitments(s, slots[..n], h) + (if slots[n].Revealed? then [Mul(s.o, s.attrHash(slots[n].value), h)] else [])
  }

  function Firsts(ps: seq<(int, int)>): (r: seq<int>)
    ensures |r| == |ps| && forall i :: 0 <= i < |ps| ==> r[i] == ps[i].0
  {
    seq(|ps|, i requires 0 <= i < |ps| => ps[i].0)
  }

  function Seconds(ps: seq<(int, int)>): (r: seq<int>)
    ensures |r| == |ps| && forall i :: 0 <= i < |ps| ==> r[i] == ps[i].1
  {
    seq(|ps|, i requires 0 <= i < |ps| => ps[i].1)
  }

  /** `__sign_cred`: `c_1 = Σ y_i * a_i` over `zip(y, a)` and
      `c_2 = x * h + Σ y_i * (b ++ C_pub)_i` over `zip(y, b ++ C_pub)`, returned with the
      common base `h = hashG1(C)`. Unpacking `zip(*cypher)` raises on an empty list. */
  function BlindSignature(s: Setup, req: Request, sk: SecretKey): (r: Outcome<BlindShare>)
    ensures r.Raises? <==> req.cypher == []
    ensures r.Done? ==> r.value.h == HashG1(s, req.C)
  {
    if req.cypher == [] then Raises
    else
      var h := HashG1(s, req.C);
      var c1 := Fold(s.o, 0, ZipMul(s.o, sk.y, Firsts(req.cypher)));
      var c2 := Fold(s.o, Mul(s.o, sk.x, h), ZipMul(s.o, sk.y, Seconds(req.cypher) + PublicCommitments(s, req.attributes, h)));
      Done(BlindShare(h, c1, c2))
  }

  /** `IdP.__sign_cred`, with its three loops. */
  method SignCred(s: Setup, req: Request, sk: SecretKey) returns (r: Outcome<BlindShare>)
    ensures r == BlindSignature(s, req, sk)
  {
    if req.cypher == [] {
      return Raises;
    }
    var h := HashG1(s, req.C);
    var slots := req.attributes;
    var cpub := [];
    var i := 0;
    while i < |slots|
      invariant 0 <= i <= |slots|
      invariant cpub == PublicCommitments(s, slots[..i], h)
    {
      assert slots[..i + 1][..i] == slots[..i];
      if slots[i].Revealed? {
        cpub := cpub + [Mul(s.o, s.attrHash(slots[i].value), h)];
      }
      i := i + 1;
    }
    assert slots[..|slots|] == slots;

    var c1 := SumZip(s.o, 0, sk.y, Firsts(req.cypher));
    var c2 := SumZip(s.o, Mul(s.o, sk.x, h), sk.y, Seconds(req.cypher) + cpub);
    r := Done(BlindShare(h, c1, c2));
  }

  // ---------------------------------------------------------------------------
  // Answering a request

  /** What `provide_id` returns: the sentinel `0` or a blinded signature share. */
  datatype IdpAnswer = Rejected | Signed(share: BlindShare)

  /** `IdP.provide_id`: the sentinel when the proof fails, a signature only when it
      holds. */
  method ProvideId(s: Setup, sk: SecretKey, req: Request) returns (r: Outcome<IdpAnswer>)
    ensures r.Raises? <==> VerifyIssuance(s, req).Raises?
    ensures r == Done(Rejected) <==> VerifyIssuance(s, req) == Done(false)
    ensures (r.Done? && r.value.Signed?) <==> VerifyIssuance(s, req) == Done(true)
    ensures r.Done? && r.value.Signed? ==> BlindSignature(s, req, sk) == Done(r.value.share)
  {
    var ok := VerifyZkp(s, req);
    if ok.Raises? {
      return Raises;
    }
    if !ok.value {
      return Done(Rejected);
    }
    var share := SignCred(s, req, sk);
    assert share.Done?;
    r := Done(Signed(share.value));
  }
}
