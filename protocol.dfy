/** The values the parties exchange, in the exponent representation of Modular,
    and the process-wide group set-up (BpGroupHelper in src/helper.py) together
    with the hash functions the protocol treats as black boxes. */
module Protocol {
  import opened Modular
  import opened Challenge

  type byte = b: int | 0 <= b < 256

  /** BpGroupHelper: the group order and the attribute generators `hs`, plus the
      oracles the library supplies. `hashG1` is `G.hashG1(P.export())` on the
      exponent of `P`; `attrHash` is `Bn.from_binary(sha256(a).digest())` on an
      attribute; `digest` is the same hash on a challenge state; `show` is `str`
      on a group element. */
  datatype Setup = Setup(
    o: Order,
    hs: seq<int>,
    hashG1: int -> int,
    attrHash: seq<byte> -> nat,
    digest: string -> nat,
    show: Elem -> string)

  /** Exponents of the generators g1 and g2. */
  const G1Gen: int := 1
  const G2Gen: int := 1

  /** `h = G.hashG1(C.export())`, the common base of a credential. */
  function HashG1(s: Setup, c: int): (h: int)
    ensures 0 <= h < s.o
  {
    s.hashG1(c % s.o) % s.o
  }

  /** A computation that either finishes or raises a Python exception (an index out
      of range, unpacking `zip(*[])`, arithmetic on `None`). */
  datatype Outcome<T> = Done(value: T) | Raises

  /** A slot of a redacted attribute list: the source writes the str `""` for a hidden
      attribute and the attribute's bytes for a public one. Bytes never compare equal
      to a str, so even an empty public attribute counts as revealed. */
  datatype Slot = Redacted | Revealed(value: seq<byte>)

  /** An aggregated verification key `(g2, alpha, beta)`, all in G2. */
  datatype Vk = Vk(g2: int, alpha: int, beta: seq<int>)

  /** An IdP's signing key `(x, y)`. */
  datatype SecretKey = SecretKey(x: int, y: seq<int>)

  /** A PS signature `(h, s)`. */
  datatype Signature = Signature(h: int, s: int)

  /** `request.zkp = (c, rk, ra, rr)`, the issuance proof. */
  datatype IssuanceProof = IssuanceProof(c: int, rk: seq<int>, ra: seq<int>, rr: int)

  /** What src/idp.py reads from a request: `users_pk`, `C`, `cypher` (pairs
      `(a_i, b_i)`), `zkp` and `attributes`. */
  datatype Request = Request(usersPk: int, C: int, cypher: seq<(int, int)>, zkp: IssuanceProof, attributes: seq<Slot>)

  /** A blinded signature share `(h, (c_1, c_2))`. */
  datatype BlindShare = BlindShare(h: int, c1: int, c2: int)

  /** `proof.zkp = (c, ra, rr)`, the presentation proof. */
  datatype PresentationProof = PresentationProof(c: int, ra: seq<int>, rr: int)

  /** What src/rp.py reads from a presentation: `k`, `vu`, `sig`, `zkp` and
      `attributes`. */
  datatype CredProof = CredProof(k: int, vu: int, sig: Signature, zkp: PresentationProof, attributes: seq<Slot>)

  /** The G1 elements of a list as they enter a challenge. */
  function G1Elems(o: Order, xs: seq<int>): (r: seq<Elem>)
    ensures |r| == |xs| && forall i :: 0 <= i < |xs| ==> r[i] == G1Elem(xs[i] % o)
  {
    if xs == [] then [] else [G1Elem(xs[0] % o)] + G1Elems(o, xs[1..])
  }

  /** The G2 elements of a list as they enter a challenge. */
  function G2Elems(o: Order, xs: seq<int>): (r: seq<Elem>)
    ensures |r| == |xs| && forall i :: 0 <= i < |xs| ==> r[i] == G2Elem(xs[i] % o)
  {
    if xs == [] then [] else [G2Elem(xs[0] % o)] + G2Elems(o, xs[1..])
  }

  /** `[s * p for s, p in zip(scalars, points)]`: the terms of a multi-scalar sum. */
  function ZipMul(o: Order, scalars: seq<int>, points: seq<int>): (r: seq<int>)
    ensures |r| == if |scalars| < |points| then |scalars| else |points|
    ensures forall i :: 0 <= i < |r| ==> r[i] == Mul(o, scalars[i], points[i])
  {
    if scalars == [] || points == [] then []
    else [Mul(o, scalars[0], points[0])] + ZipMul(o, scalars[1..], points[1..])
  }

  /** `acc = start; for si, pi in zip(scalars, points): acc += si * pi`. */
  method SumZip(o: Order, start: int, scalars: seq<int>, points: seq<int>) returns (acc: int)
    ensures acc == Fold(o, start, ZipMul(o, scalars, points))
  {
    ghost var ts := ZipMul(o, scalars, points);
    acc := start;
    var j := 0;
    while j < |scalars| && j < |points|
      invariant 0 <= j <= |ts|
      invariant acc == Fold(o, start, ts[..j])
    {
      assert ts[..j + 1][..j] == ts[..j];
      acc := Add(o, acc, Mul(o, scalars[j], points[j]));
      j := j + 1;
    }
    assert ts[..j] == ts;
  }

  /** The challenge of the issuance proof over `[g1, g2, C, h, Cw] + hs + Aw + Bw`
      (the IdP recomputes the list as `[g1, g2, C, h, Vc] + hs + Va + Vb`). */
  function IssuanceChallenge(s: Setup, C: int, h: int, cw: int, aw: seq<int>, bw: seq<int>): nat
  {
    ToChallenge(s.digest, s.show,
      [G1Elem(G1Gen), G2Elem(G2Gen), G1Elem(C % s.o), G1Elem(h % s.o), G1Elem(cw % s.o)]
        + G1Elems(s.o, s.hs) + G1Elems(s.o, aw) + G1Elems(s.o, bw))
  }

  /** The challenge of the presentation proof over `[g1, g2, alpha, Aw, Bw] + hs + beta`
      (the RP recomputes it as `[g1, g2, alpha, Va, Vr] + hs + beta`). */
  function PresentationChallenge(s: Setup, vk: Vk, aw: int, bw: int): nat
  {
    ToChallenge(s.digest, s.show,
      [G1Elem(G1Gen), G2Elem(vk.g2 % s.o), G2Elem(vk.alpha % s.o), G2Elem(aw % s.o), G1Elem(bw % s.o)]
        + G1Elems(s.o, s.hs) + G2Elems(s.o, vk.beta))
  }

  // ---------------------------------------------------------------------------
  // Selective multi-scalar sums

  /** One past the last position the mask selects, 0 when it selects none. */
  function Reach(mask: seq<bool>): (n: nat)
    ensures n <= |mask|
  {
    if mask == [] then 0
    else if mask[|mask| - 1] then |mask|
    else Reach(mask[..|mask| - 1])
  }

  /** The last position below the reach is selected. */
  lemma {:induction false} ReachLast(mask: seq<bool>)
    requires Reach(mask) > 0
    ensures mask[Reach(mask) - 1]
  {
    if !mask[|mask| - 1] {
      var init := mask[..|mask| - 1];
      ReachLast(init);
      assert init[Reach(init) - 1] == mask[Reach(init) - 1];
    }
  }

  /** Every selected position lies below the reach. */
  lemma {:induction false} ReachSelected(mask: seq<bool>, i: int)
    requires 0 <= i < |mask| && mask[i]
    ensures i < Reach(mask)
  {
    if i < |mask| - 1 && !mask[|mask| - 1] {
      var init := mask[..|mask| - 1];
      assert init[i] == mask[i];
      ReachSelected(init, i);
    }
  }

  /** Every position the mask selects has a scalar and a point; otherwise the source
      indexes past the end of a list (see `FitsMeaning`). */
  predicate MaskFits(mask: seq<bool>, scalars: seq<int>, points: seq<int>)
  {
    Reach(mask) <= |scalars| && Reach(mask) <= |points|
  }

  lemma FitsMeaning(mask: seq<bool>, scalars: seq<int>, points: seq<int>)
    ensures MaskFits(mask, scalars, points) <==> forall i :: 0 <= i < |mask| && mask[i] ==> i < |scalars| && i < |points|
  {
    if Reach(mask) > 0 {
      ReachLast(mask);
    }
    forall i | 0 <= i < |mask| && mask[i] {
      ReachSelected(mask, i);
    }
  }

  /** The terms `scalars[i] * points[i]` for the positions `i` that `mask` selects, in
      order: what a loop `for i, ...: if <selected>: acc += scalars[i] * points[i]`
      adds to its accumulator. */
  function MaskedTerms(o: Order, mask: seq<bool>, scalars: seq<int>, points: seq<int>): (r: seq<int>)
    requires MaskFits(mask, scalars, points)
    ensures |r| <= |mask|
  {
    if mask == [] then []
    else
      var n := |mask| - 1;
      MaskedTerms(o, mask[..n], scalars, points) + (if mask[n] then [Mul(o, scalars[n], points[n])] else [])
  }

  /** The sum of the selected terms. */
  function SelectedSum(o: Order, mask: seq<bool>, scalars: seq<int>, points: seq<int>): int
    requires MaskFits(mask, scalars, points)
  {
    RawSum(MaskedTerms(o, mask, scalars, points))
  }

  /** A fold that starts from `a * g + b` reaches `a * g + b` plus the selected sum,
      as exponents. */
  lemma FoldAffine(o: Order, a: int, g: int, b: int, mask: seq<bool>, scalars: seq<int>, points: seq<int>)
    requires MaskFits(mask, scalars, points)
    ensures Cong(o, Fold(o, Add(o, Mul(o, a, g), b), MaskedTerms(o, mask, scalars, points)),
      a * g + b + SelectedSum(o, mask, scalars, points))
  {
    var start, ts := Add(o, Mul(o, a, g), b), MaskedTerms(o, mask, scalars, points);
    FoldCong(o, start, ts);
    AddMulCong(o, a, g, b);
    CongAdd(o, start, RawSum(ts), a * g + b, RawSum(ts));
    CongTrans(o, Fold(o, start, ts), start + RawSum(ts), a * g + b + RawSum(ts));
  }

  function Ones(n: nat): (m: seq<bool>)
    ensures |m| == n && forall i :: 0 <= i < n ==> m[i]
  {
    seq(n, i => true)
  }

  function Not(mask: seq<bool>): (m: seq<bool>)
    ensures |m| == |mask| && forall i :: 0 <= i < |mask| ==> m[i] == !mask[i]
  {
    seq(|mask|, i requires 0 <= i < |mask| => !mask[i])
  }

  /** `[scalars[i] * points[i] for i in range(len(scalars))]`. */
  function Terms(o: Order, scalars: seq<int>, points: seq<int>): (r: seq<int>)
    requires |scalars| <= |points|
    ensures |r| == |scalars| && forall i :: 0 <= i < |scalars| ==> r[i] == Mul(o, scalars[i], points[i])
  {
    seq(|scalars|, i requires 0 <= i < |scalars| => Mul(o, scalars[i], points[i]))
  }

  /** The terms of a multi-scalar sum add up to the dot product of scalars and points. */
  lemma {:induction false} TermsDot(o: Order, scalars: seq<int>, points: seq<int>)
    requires |scalars| <= |points|
    ensures Cong(o, RawSum(Terms(o, scalars, points)), Dot(scalars, points))
  {
    if scalars != [] {
      var n := |scalars| - 1;
      var init := scalars[..n];
      TermsDot(o, init, points);
      var ts := Terms(o, scalars, points);
      assert Terms(o, init, points) == ts[..n];
      assert RawSum(ts) == RawSum(ts[..n]) + ts[n];
      CongReduce(o, scalars[n] * points[n]);
      CongAdd(o, RawSum(ts[..n]), ts[n], Dot(init, points), scalars[n] * points[n]);
    }
  }

  /** Selecting every position gives all the terms. */
  lemma {:induction false} OnesTerms(o: Order, n: nat, scalars: seq<int>, points: seq<int>)
    requires n <= |scalars| <= |points|
    ensures MaskedTerms(o, Ones(n), scalars, points) == Terms(o, scalars[..n], points)
  {
    if n > 0 {
      assert Ones(n)[..n - 1] == Ones(n - 1);
      OnesTerms(o, n - 1, scalars, points);
      assert scalars[..n][..n - 1] == scalars[..n - 1];
      assert Terms(o, scalars[..n], points) == Terms(o, scalars[..n - 1], points) + [Mul(o, scalars[n - 1], points[n - 1])];
    }
  }

  /** One step of `MaskedTerms`: the last position contributes its term when selected. */
  lemma MaskedStep(o: Order, mask: seq<bool>, scalars: seq<int>, points: seq<int>)
    requires MaskFits(mask, scalars, points) && mask != []
    ensures MaskedTerms(o, mask, scalars, points) ==
      MaskedTerms(o, mask[..|mask| - 1], scalars, points)
        + (if mask[|mask| - 1] then [Mul(o, scalars[|mask| - 1], points[|mask| - 1])] else [])
  {
  }

  /** Extending a mask prefix by one position: the position's term is appended when
      it is selected. */
  lemma MaskedPrefix(o: Order, mask: seq<bool>, scalars: seq<int>, points: seq<int>, i: nat)
    requires i < |mask| && MaskFits(mask[..i], scalars, points)
    requires mask[i] ==> i < |scalars| && i < |points|
    ensures MaskFits(mask[..i + 1], scalars, points)
    ensures MaskedTerms(o, mask[..i + 1], scalars, points) ==
      MaskedTerms(o, mask[..i], scalars, points) + (if mask[i] then [Mul(o, scalars[i], points[i])] else [])
  {
    assert mask[..i + 1][..i] == mask[..i];
  }

  /** `acc = start; for i in range(len(mask)): if <selected>: acc += scalars[i] * points[i]`,
      which raises `IndexError` at the first selected position past either list. */
  method MaskedSum(o: Order, start: int, mask: seq<bool>, scalars: seq<int>, points: seq<int>) returns (r: Outcome<int>)
    ensures r.Raises? <==> !MaskFits(mask, scalars, points)
    ensures r.Done? ==> MaskFits(mask, scalars, points) && r.value == Fold(o, start, MaskedTerms(o, mask, scalars, points))
  {
    var acc := start;
    var i := 0;
    while i < |mask|
      invariant 0 <= i <= |mask| && MaskFits(mask[..i], scalars, points)
      invariant acc == Fold(o, start, MaskedTerms(o, mask[..i], scalars, points))
    {
      ghost var before := MaskedTerms(o, mask[..i], scalars, points);
      if mask[i] {
        if i >= |scalars| || i >= |points| {
          ReachSelected(mask, i);
          return Raises;
        }
        acc := Add(o, acc, Mul(o, scalars[i], points[i]));
        FoldSnoc(o, start, before, Mul(o, scalars[i], points[i]));
      } else {
        assert before + [] == before;
      }
      MaskedPrefix(o, mask, scalars, points, i);
      i := i + 1;
    }
    assert mask[..|mask|] == mask;
    r := Done(acc);
  }

  lemma NotPrefix(mask: seq<bool>)
    requires mask != []
    ensures Not(mask)[..|mask| - 1] == Not(mask[..|mask| - 1])
  {
  }

  /** The terms a mask selects and the terms it leaves out add up to all the terms. */
  lemma {:induction false} MaskedSplit(o: Order, mask: seq<bool>, scalars: seq<int>, points: seq<int>)
    requires |mask| <= |scalars| <= |points|
    ensures SelectedSum(o, mask, scalars, points) + SelectedSum(o, Not(mask), scalars, points)
         == SelectedSum(o, Ones(|mask|), scalars, points)
  {
    if mask != [] {
      var n := |mask| - 1;
      var init := mask[..n];
      MaskedSplit(o, init, scalars, points);
      NotPrefix(mask);
      assert Ones(|mask|)[..n] == Ones(n);
      MaskedStep(o, mask, scalars, points);
      MaskedStep(o, Not(mask), scalars, points);
      MaskedStep(o, Ones(|mask|), scalars, points);
      var t := [Mul(o, scalars[n], points[n])];
      var a := MaskedTerms(o, init, scalars, points);
      var b := MaskedTerms(o, Not(init), scalars, points);
      var c := MaskedTerms(o, Ones(n), scalars, points);
      assert MaskedTerms(o, Ones(|mask|), scalars, points) == c + t;
      RawSumAppend(c, t);
      if mask[n] {
        assert MaskedTerms(o, mask, scalars, points) == a + t;
        assert MaskedTerms(o, Not(mask), scalars, points) == b;
        RawSumAppend(a, t);
      } else {
        assert MaskedTerms(o, mask, scalars, points) == a;
        assert MaskedTerms(o, Not(mask), scalars, points) == b + t;
        RawSumAppend(b, t);
      }
    }
  }

  lemma TermLinear(o: Order, t: int, u: int, v: int, p: int, a: int, b: int)
    requires Affine(o, t, a, u, b, v)
    ensures Affine(o, Mul(o, t, p), a, Mul(o, u, p), b, Mul(o, v, p))
  {
    CongReduce(o, t * p);
    CongReduce(o, u * p);
    CongReduce(o, v * p);
    CongMul(o, t, p, a * u + b * v, p);
    Distribute(a, u, b, v, p);
    CongMul(o, a, Mul(o, u, p), a, u * p);
    CongMul(o, b, Mul(o, v, p), b, v * p);
    CongAdd(o, a * Mul(o, u, p), b * Mul(o, v, p), a * (u * p), b * (v * p));
  }

  lemma LinearStep(o: Order, t: int, u: int, v: int, t': int, u': int, v': int, a: int, b: int)
    requires Affine(o, t, a, u, b, v) && Affine(o, t', a, u', b, v')
    ensures Affine(o, t + t', a, u + u', b, v + v')
  {
    CongAdd(o, t, t', a * u + b * v, a * u' + b * v');
    Regroup(a, u, u', b, v, v');
  }

  /** Selected sums are linear in the scalars: if every selected scalar `t_i` is
      congruent to `a * u_i + b * v_i`, the selected sums are related the same way. */
  lemma {:induction false} MaskedLinear(o: Order, mask: seq<bool>, t: seq<int>, u: seq<int>, v: seq<int>, points: seq<int>, a: int, b: int)
    requires MaskFits(mask, t, points) && MaskFits(mask, u, points) && MaskFits(mask, v, points)
    requires forall i :: 0 <= i < Reach(mask) && mask[i] ==> Affine(o, t[i], a, u[i], b, v[i])
    ensures Affine(o, SelectedSum(o, mask, t, points),
                   a, SelectedSum(o, mask, u, points), b, SelectedSum(o, mask, v, points))
  {
    if mask != [] {
      var n := |mask| - 1;
      MaskedLinear(o, mask[..n], t, u, v, points, a, b);
      MaskedStep(o, mask, t, points);
      MaskedStep(o, mask, u, points);
      MaskedStep(o, mask, v, points);
      var ts, us, vs := MaskedTerms(o, mask[..n], t, points), MaskedTerms(o, mask[..n], u, points), MaskedTerms(o, mask[..n], v, points);
      if mask[n] {
        var p := points[n];
        var tn, un, vn := Mul(o, t[n], p), Mul(o, u[n], p), Mul(o, v[n], p);
        assert MaskedTerms(o, mask, t, points) == ts + [tn];
        assert MaskedTerms(o, mask, u, points) == us + [un];
        assert MaskedTerms(o, mask, v, points) == vs + [vn];
        RawSumSnoc(ts, tn);
        RawSumSnoc(us, un);
        RawSumSnoc(vs, vn);
        TermLinear(o, t[n], u[n], v[n], p, a, b);
        LinearStep(o, RawSum(ts), RawSum(us), RawSum(vs), tn, un, vn, a, b);
        assert SelectedSum(o, mask, t, points) == RawSum(ts) + tn;
        assert SelectedSum(o, mask, u, points) == RawSum(us) + un;
        assert SelectedSum(o, mask, v, points) == RawSum(vs) + vn;
      } else {
        assert MaskedTerms(o, mask, t, points) == ts;
        assert MaskedTerms(o, mask, u, points) == us;
        assert MaskedTerms(o, mask, v, points) == vs;
      }
    }
  }
}
