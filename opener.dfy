/** The openers (src/opener.py): each holds an ElGamal secret key for one share of
    a user's opening information. Together they test which ledger entry a
    presented signature belongs to and, for that entry, rebuild the value that
    goes on the ban list. */
module Opener {
  import opened Modular
  import opened Challenge
  import opened Protocol
  import opened Threshold

  /** A ledger ciphertext `(c0, c1, _)`; the third component is never read. */
  datatype OpeningShare = OpeningShare(c0: int, c1: int)

  /** `Opener.reconstruct_key_share(c)`: `c1 - c0 * sk` with the opener's key `sk`. */
  function ReconstructKeyShare(o: Order, sk: int, c: OpeningShare): (r: int)
    ensures 0 <= r < o
    ensures Cong(o, r, c.c1 - sk * c.c0)
  {
    var p := Mul(o, sk, c.c0);
    var q := sk * c.c0;
    MulCong(o, sk, c.c0);
    NegCong(o, p, q);
    AddCong(o, c.c1, -p, c.c1, -q);
    Add(o, c.c1, -p)
  }

  /** `Opener.calculate_t(c, h)`: `e(h, c1 - c0 * sk)`. */
  function CalculateT(o: Order, sk: int, c: OpeningShare, h: int): (t: int)
    ensures t == Pair(o, h, ReconstructKeyShare(o, sk, c))
  {
    Pair(o, h, Add(o, c.c1, -Mul(o, sk, c.c0)))
  }

  /** ElGamal decryption: a share `(k * g2, k * pk + m)` for `pk = sk * g2` opens to `m`. */
  lemma {:induction false} ReconstructDecrypts(o: Order, sk: int, k: int, m: int, c: OpeningShare)
    requires Cong(o, c.c0, k) && Cong(o, c.c1, k * sk + m)
    ensures ReconstructKeyShare(o, sk, c) == m % o
  {
    CongMul(o, sk, c.c0, sk, k);
    CongMul(o, -1, sk * c.c0, -1, sk * k);
    CongAdd(o, c.c1, -(sk * c.c0), k * sk + m, -(sk * k));
    assert k * sk + m + -(sk * k) == m;
    CongReduce(o, m);
    CongReduced(o, ReconstructKeyShare(o, sk, c), m % o);
  }

  // ---------------------------------------------------------------------------
  // Lagrange combination

  /** `x[0] * l[0]`, then `+= x[i] * l[i]` for the remaining positions: the shape of
      both combination loops (in GT written `T[0] ** l[0]` and `*=`). */
  function LagrangeSum(o: Order, l: seq<int>, xs: seq<int>): (r: int)
    requires |xs| >= 1 && |l| == |xs|
    ensures 0 <= r < o
    ensures Cong(o, r, Dot(l, xs))
  {
    var ts := Terms(o, l[1..], xs[1..]);
    FoldCong(o, Mul(o, l[0], xs[0]), ts);
    TermsDot(o, l[1..], xs[1..]);
    MulCong(o, l[0], xs[0]);
    CongAdd(o, Mul(o, l[0], xs[0]), RawSum(ts), l[0] * xs[0], Dot(l[1..], xs[1..]));
    DotCons(l, xs);
    if ts == [] then Mul(o, l[0], xs[0]) else Fold(o, Mul(o, l[0], xs[0]), ts)
  }

  predicate AllPresent<T>(xs: seq<Option<T>>)
  {
    forall i :: 0 <= i < |xs| ==> xs[i].Some?
  }

  /** The combination as `check_sig` and `create_revoked_sig` write it: the weights
      come from the filtered list, but the loop runs over the unfiltered one, so any
      missing share (`None ** l[i]`, `None * l[i]`, or `l[i]` past the end) raises,
      as does an empty list (`T[0]`). */
  function CombineAsWritten(o: Order, xs: seq<Option<int>>): (r: Outcome<int>)
    ensures r.Raises? <==> xs == [] || !AllPresent(xs)
    ensures r.Done? ==> Cong(o, r.value, Dot(Lagrange(o, Positions(xs)), Kept(xs)))
  {
    if xs == [] || !AllPresent(xs) then Raises
    else
      KeptAllPresent(xs);
      Done(LagrangeSum(o, Lagrange(o, Positions(xs)), Kept(xs)))
  }

  /** The combination the filtering is there for: the surviving shares weighted by
      the Lagrange coefficients of their positions. */
  function CombineSurvivors(o: Order, xs: seq<Option<int>>): (r: Outcome<int>)
    ensures r.Raises? <==> Kept(xs) == []
    ensures r.Done? ==> Cong(o, r.value, Dot(Lagrange(o, Positions(xs)), Kept(xs)))
  {
    if Kept(xs) == [] then Raises
    else Done(LagrangeSum(o, Lagrange(o, Positions(xs)), Kept(xs)))
  }

  /** A single missing share makes the written combination raise, while the
      survivor sitting at position 2 is taken with weight 1. */
  lemma MissingShareRaises(o: Order, t: int)
    ensures CombineAsWritten(o, [None, Some(t)]).Raises?
    ensures CombineSurvivors(o, [None, Some(t)]) == Done(t % o)
  {
    var xs: seq<Option<int>> := [None, Some(t)];
    assert !AllPresent(xs) by {
      assert xs[0].None?;
    }
    var first: seq<Option<int>> := [None];
    assert xs[..1] == first && first[..0] == [];
    assert Kept(xs) == [t];
    assert Positions(xs) == [2];
    LagrangeSingle(o, 2);
    assert LagrangeSum(o, [1], [t]) == Mul(o, 1, t);
  }

  /** With nothing missing the two combinations agree. */
  lemma SurvivorsAgree(o: Order, xs: seq<Option<int>>)
    requires xs != [] && AllPresent(xs)
    ensures CombineAsWritten(o, xs) == CombineSurvivors(o, xs)
  {
    KeptAllPresent(xs);
  }

  /** `[e(h, x) for x in xs]`. */
  function PairAll(o: Order, h: int, xs: seq<int>): (r: seq<int>)
    ensures |r| == |xs| && forall i :: 0 <= i < |xs| ==> r[i] == Pair(o, h, xs[i])
  {
    seq(|xs|, i requires 0 <= i < |xs| => Pair(o, h, xs[i]))
  }

  lemma {:induction false} DotPaired(o: Order, h: int, l: seq<int>, xs: seq<int>)
    requires |l| <= |xs|
    ensures Cong(o, Dot(l, PairAll(o, h, xs)), h * Dot(l, xs))
  {
    if l != [] {
      var n := |l| - 1;
      DotPaired(o, h, l[..n], xs);
      var p := PairAll(o, h, xs);
      var d := Dot(l[..n], xs);
      CongReduce(o, h * xs[n]);
      CongMul(o, l[n], p[n], l[n], h * xs[n]);
      CongAdd(o, Dot(l[..n], p), l[n] * p[n], h * d, l[n] * (h * xs[n]));
      assert Dot(l, xs) == d + l[n] * xs[n];
      ScaleStep(h, d, l[n], xs[n]);
    }
  }

  lemma ScaleStep(h: int, d: int, a: int, x: int)
    ensures h * (d + a * x) == h * d + a * (h * x)
  {
  }

  /** Bilinearity: combining the pairings `e(h, x_i)` is pairing `h` with the
      combination of the `x_i`. */
  lemma CombineBilinear(o: Order, h: int, l: seq<int>, xs: seq<int>)
    requires |xs| >= 1 && |l| == |xs|
    ensures LagrangeSum(o, l, PairAll(o, h, xs)) == Pair(o, h, LagrangeSum(o, l, xs))
  {
    var v := LagrangeSum(o, l, xs);
    DotPaired(o, h, l, xs);
    CongMul(o, h, v, h, Dot(l, xs));
    CongReduce(o, h * v);
    CongReduced(o, LagrangeSum(o, l, PairAll(o, h, xs)), Pair(o, h, v));
  }

  // ---------------------------------------------------------------------------
  // check_sig and create_revoked_sig

  /** `e(h, attributes_commitment) * secret == e(s + vu, g2)`: in the exponents,
      `h * ac + secret = (s + vu) * g2`. */
  function Opens(o: Order, secret: int, proof: CredProof, vk: Vk, ac: int): (b: bool)
    requires 0 <= secret < o
    ensures b <==> Cong(o, proof.sig.h * ac + secret, (proof.sig.s + proof.vu) * vk.g2)
  {
    var sig := proof.sig;
    CongReduce(o, sig.h * ac);
    CongAdd(o, Pair(o, sig.h, ac), secret, sig.h * ac, secret);
    CongReduce(o, Pair(o, sig.h, ac) + secret);
    AddCong(o, sig.s, proof.vu, sig.s, proof.vu);
    CongMul(o, Add(o, sig.s, proof.vu), vk.g2, sig.s + proof.vu, vk.g2);
    ReducedEq(o, Add(o, Pair(o, sig.h, ac), secret), Pair(o, Add(o, sig.s, proof.vu), vk.g2));
    Add(o, Pair(o, sig.h, ac), secret) == Pair(o, Add(o, sig.s, proof.vu), vk.g2)
  }

  /** `check_sig(T, proof, vk)` on a combination outcome. */
  function SigCheck(o: Order, secret: Outcome<int>, proof: CredProof, vk: Vk, ac: int): (r: Outcome<bool>)
    requires secret.Done? ==> 0 <= secret.value < o
    ensures r.Raises? <==> secret.Raises?
    ensures r.Done? ==> (r.value <==> Cong(o, proof.sig.h * ac + secret.value, (proof.sig.s + proof.vu) * vk.g2))
  {
    match secret
    case Raises => Raises
    case Done(v) => Done(Opens(o, v, proof, vk, ac))
  }

  /** The combination loop of `check_sig` and `create_revoked_sig`, over the
      unfiltered list. */
  method CombineLoop(o: Order, xs: seq<Option<int>>) returns (r: Outcome<int>)
    ensures r == CombineAsWritten(o, xs)
  {
    var kept, indexes := Filter(xs);
    var l := Lagrange(o, indexes);
    if xs == [] || xs[0].None? || |l| == 0 {
      return Raises;
    }
    var acc := Mul(o, l[0], xs[0].value);
    var i := 1;
    while i < |xs|
      invariant 1 <= i <= |xs| && i <= |l| && AllPresent(xs[..i])
      invariant acc == Fold(o, Mul(o, l[0], xs[0].value), Terms(o, l[1..i], Present(xs[..i])[1..]))
    {
      if xs[i].None? || i >= |l| {
        assert !AllPresent(xs) by {
          if xs[i].Some? {
            AllPresentPrefixKept(xs, i, l, indexes);
          }
        }
        return Raises;
      }
      CombineStep(o, xs, l, i);
      acc := Add(o, acc, Mul(o, l[i], xs[i].value));
      i := i + 1;
    }
    CombineEnd(o, xs, l);
    r := Done(acc);
  }

  /** One round of the combination loop adds the term of position `i`. */
  lemma CombineStep(o: Order, xs: seq<Option<int>>, l: seq<int>, i: nat)
    requires 1 <= i < |xs| && i < |l| && AllPresent(xs[..i]) && xs[i].Some?
    ensures AllPresent(xs[..i + 1])
    ensures Fold(o, Mul(o, l[0], xs[0].value), Terms(o, l[1..i + 1], Present(xs[..i + 1])[1..]))
         == Add(o, Fold(o, Mul(o, l[0], xs[0].value), Terms(o, l[1..i], Present(xs[..i])[1..])), Mul(o, l[i], xs[i].value))
  {
    PresentStep(xs, i);
    var ts := Terms(o, l[1..i], Present(xs[..i])[1..]);
    assert Terms(o, l[1..i + 1], Present(xs[..i + 1])[1..]) == ts + [Mul(o, l[i], xs[i].value)];
    FoldSnoc(o, Mul(o, l[0], xs[0].value), ts, Mul(o, l[i], xs[i].value));
  }

  /** After the last round the loop has computed the written combination. */
  lemma CombineEnd(o: Order, xs: seq<Option<int>>, l: seq<int>)
    requires xs != [] && AllPresent(xs[..|xs|]) && l == Lagrange(o, Positions(xs))
    ensures AllPresent(xs) && |l| == |xs| && Present(xs) == Kept(xs)
    ensures CombineAsWritten(o, xs)
         == Done(Fold(o, Mul(o, l[0], xs[0].value), Terms(o, l[1..|xs|], Present(xs[..|xs|])[1..])))
  {
    assert xs[..|xs|] == xs;
    KeptAllPresent(xs);
    PresentKept(xs);
    assert l[1..|xs|] == l[1..];
  }

  /** The values of a list with nothing missing. */
  function Present(xs: seq<Option<int>>): (r: seq<int>)
    requires AllPresent(xs)
    ensures |r| == |xs| && forall i :: 0 <= i < |xs| ==> r[i] == xs[i].value
  {
    seq(|xs|, i requires 0 <= i < |xs| => xs[i].value)
  }

  lemma PresentStep(xs: seq<Option<int>>, i: nat)
    requires i < |xs| && AllPresent(xs[..i]) && xs[i].Some?
    ensures AllPresent(xs[..i + 1]) && Present(xs[..i + 1]) == Present(xs[..i]) + [xs[i].value]
  {
  }

  lemma PresentKept(xs: seq<Option<int>>)
    requires AllPresent(xs)
    ensures Present(xs) == Kept(xs)
  {
    KeptAllPresent(xs);
  }

  /** If every share were present, the weights would cover every position. */
  lemma AllPresentPrefixKept(xs: seq<Option<int>>, i: nat, l: seq<int>, indexes: seq<nat>)
    requires i < |xs| && indexes == Positions(xs) && |l| == |indexes| && i >= |l|
    ensures !AllPresent(xs)
  {
    if AllPresent(xs) {
      KeptAllPresent(xs);
    }
  }

  /** `check_sig(T, proof, vk)` with the `attributes_commitment` it reads passed as `ac`. */
  method CheckSig(o: Order, ts: seq<Option<int>>, proof: CredProof, vk: Vk, ac: int) returns (r: Outcome<bool>)
    ensures r == SigCheck(o, CombineAsWritten(o, ts), proof, vk, ac)
  {
    var secret := CombineLoop(o, ts);
    if secret.Raises? {
      return Raises;
    }
    var sig := proof.sig;
    r := Done(Add(o, Pair(o, sig.h, ac), secret.value) == Pair(o, Add(o, sig.s, proof.vu), vk.g2));
  }

  /** `create_revoked_sig(secret_shares)`. */
  method CreateRevokedSig(o: Order, shares: seq<Option<int>>) returns (r: Outcome<int>)
    ensures r == CombineAsWritten(o, shares)
  {
    r := CombineLoop(o, shares);
  }

  // ---------------------------------------------------------------------------
  // Deanonymisation

  /** `[openers[j].calculate_t(c[cj], h) for j, cj in enumerate(c)]`. */
  function TShares(o: Order, openers: seq<int>, c: seq<OpeningShare>, h: int): (r: seq<Option<int>>)
    requires |c| <= |openers|
    ensures |r| == |c| && AllPresent(r)
    ensures forall j :: 0 <= j < |c| ==> r[j] == Some(CalculateT(o, openers[j], c[j], h))
  {
    seq(|c|, j requires 0 <= j < |c| => Some(CalculateT(o, openers[j], c[j], h)))
  }

  /** `[openers[j].reconstruct_key_share(c[cj]) for j, cj in enumerate(c)]`. */
  function KeyShares(o: Order, openers: seq<int>, c: seq<OpeningShare>): (r: seq<Option<int>>)
    requires |c| <= |openers|
    ensures |r| == |c| && AllPresent(r)
    ensures forall j :: 0 <= j < |c| ==> r[j] == Some(ReconstructKeyShare(o, openers[j], c[j]))
  {
    seq(|c|, j requires 0 <= j < |c| => Some(ReconstructKeyShare(o, openers[j], c[j])))
  }

  /** Testing one ledger entry: too few openers raise when `openers[j]` is read, an
      empty entry raises in the combination. */
  function EntryCheck(o: Order, openers: seq<int>, c: seq<OpeningShare>, proof: CredProof, vk: Vk, ac: int): (r: Outcome<bool>)
    ensures r.Raises? <==> |openers| < |c| || c == []
  {
    if |openers| < |c| then Raises
    else SigCheck(o, CombineAsWritten(o, TShares(o, openers, c, proof.sig.h)), proof, vk, ac)
  }

  /** The value put on the ban list for an entry. */
  function RevokedValue(o: Order, openers: seq<int>, c: seq<OpeningShare>): (r: int)
    requires c != [] && |c| <= |openers|
    ensures 0 <= r < o
  {
    CombineAsWritten(o, KeyShares(o, openers, c)).value
  }

  /** The scan of `deanonymize` over the ledger in its iteration order: the key and
      ban value of the first entry whose shares pass `check_sig`, or `None` (the
      source's `0`). */
  function ScanLedger(o: Order, ledger: seq<(int, seq<OpeningShare>)>, openers: seq<int>, proof: CredProof, vk: Vk, ac: int)
    : (r: Outcome<Option<(int, int)>>)
  {
    if ledger == [] then Done(None)
    else
      var c := ledger[0].1;
      match EntryCheck(o, openers, c, proof, vk, ac)
      case Raises => Raises
      case Done(pass) =>
        if pass then Done(Some((ledger[0].0, RevokedValue(o, openers, c))))
        else ScanLedger(o, ledger[1..], openers, proof, vk, ac)
  }

  /** The scan finds nothing exactly when every entry is tested and fails. */
  lemma ScanFindsNothing(o: Order, ledger: seq<(int, seq<OpeningShare>)>, openers: seq<int>, proof: CredProof, vk: Vk, ac: int)
    ensures ScanLedger(o, ledger, openers, proof, vk, ac) == Done(None)
      <==> forall i :: 0 <= i < |ledger| ==> EntryCheck(o, openers, ledger[i].1, proof, vk, ac) == Done(false)
  {
    if ScanLedger(o, ledger, openers, proof, vk, ac) == Done(None) {
      NothingFoundAllFail(o, ledger, openers, proof, vk, ac);
    }
    if forall i :: 0 <= i < |ledger| ==> EntryCheck(o, openers, ledger[i].1, proof, vk, ac) == Done(false) {
      AllFailNothingFound(o, ledger, openers, proof, vk, ac);
    }
  }

  lemma {:induction false} NothingFoundAllFail(o: Order, ledger: seq<(int, seq<OpeningShare>)>, openers: seq<int>, proof: CredProof, vk: Vk, ac: int)
    requires ScanLedger(o, ledger, openers, proof, vk, ac) == Done(None)
    ensures forall i :: 0 <= i < |ledger| ==> EntryCheck(o, openers, ledger[i].1, proof, vk, ac) == Done(false)
  {
    if ledger != [] {
      assert EntryCheck(o, openers, ledger[0].1, proof, vk, ac) == Done(false);
      NothingFoundAllFail(o, ledger[1..], openers, proof, vk, ac);
      assert forall i :: 1 <= i < |ledger| ==> ledger[1..][i - 1] == ledger[i];
    }
  }

  lemma {:induction false} AllFailNothingFound(o: Order, ledger: seq<(int, seq<OpeningShare>)>, openers: seq<int>, proof: CredProof, vk: Vk, ac: int)
    requires forall i :: 0 <= i < |ledger| ==> EntryCheck(o, openers, ledger[i].1, proof, vk, ac) == Done(false)
    ensures ScanLedger(o, ledger, openers, proof, vk, ac) == Done(None)
  {
    if ledger != [] {
      assert forall i :: 0 <= i < |ledger| - 1 ==> ledger[1..][i] == ledger[i + 1];
      AllFailNothingFound(o, ledger[1..], openers, proof, vk, ac);
    }
  }

  /** Entry `n` is the first that passes, and `value` is its ban value. */
  predicate FirstMatch(o: Order, ledger: seq<(int, seq<OpeningShare>)>, openers: seq<int>, proof: CredProof, vk: Vk, ac: int,
                       n: int, key: int, value: int)
  {
    0 <= n < |ledger| && ledger[n].0 == key
    && EntryCheck(o, openers, ledger[n].1, proof, vk, ac) == Done(true)
    && ledger[n].1 != [] && |ledger[n].1| <= |openers|
    && value == RevokedValue(o, openers, ledger[n].1)
    && forall i :: 0 <= i < n ==> EntryCheck(o, openers, ledger[i].1, proof, vk, ac) == Done(false)
  }

  /** What the scan reports is the first entry that passes, every entry before it
      having been tested and failed, and the ban value is that entry's. */
  lemma {:induction false} ScanFindsFirst(o: Order, ledger: seq<(int, seq<OpeningShare>)>, openers: seq<int>, proof: CredProof, vk: Vk, ac: int,
                                          key: int, value: int)
    requires ScanLedger(o, ledger, openers, proof, vk, ac) == Done(Some((key, value)))
    ensures exists n :: FirstMatch(o, ledger, openers, proof, vk, ac, n, key, value)
  {
    var c := ledger[0].1;
    if EntryCheck(o, openers, c, proof, vk, ac) == Done(true) {
      assert FirstMatch(o, ledger, openers, proof, vk, ac, 0, key, value);
    } else {
      ScanFindsFirst(o, ledger[1..], openers, proof, vk, ac, key, value);
      var n :| FirstMatch(o, ledger[1..], openers, proof, vk, ac, n, key, value);
      assert ledger[1..][n] == ledger[n + 1];
      forall i | 0 <= i < n + 1 ensures EntryCheck(o, openers, ledger[i].1, proof, vk, ac) == Done(false) {
        if i > 0 {
          assert ledger[1..][i - 1] == ledger[i];
        }
      }
      assert FirstMatch(o, ledger, openers, proof, vk, ac, n + 1, key, value);
    }
  }

  /** In `deanonymize` no share is missing, so the written `check_sig` combines the
      pairings by bilinearity into `e(h, revoked value)`. */
  lemma EntrySecret(o: Order, openers: seq<int>, c: seq<OpeningShare>, h: int)
    requires c != [] && |c| <= |openers|
    ensures CombineAsWritten(o, TShares(o, openers, c, h)) == CombineSurvivors(o, TShares(o, openers, c, h))
    ensures CombineSurvivors(o, TShares(o, openers, c, h)) == Done(Pair(o, h, RevokedValue(o, openers, c)))
  {
    var ts := TShares(o, openers, c, h);
    var ks := KeyShares(o, openers, c);
    SurvivorsAgree(o, ts);
    SurvivorsAgree(o, ks);
    KeptAllPresent(ts);
    KeptAllPresent(ks);
    PresentKept(ts);
    PresentKept(ks);
    assert Positions(ts) == Positions(ks);
    var l := Lagrange(o, Positions(ts));
    assert Kept(ts) == PairAll(o, h, Kept(ks));
    CombineBilinear(o, h, l, Kept(ks));
  }

  /** What one entry contributes to the scan: raising, no match, or a match with
      the entry's ban value. */
  function EntryOutcome(o: Order, openers: seq<int>, c: seq<OpeningShare>, proof: CredProof, vk: Vk, ac: int): Outcome<Option<int>>
  {
    match EntryCheck(o, openers, c, proof, vk, ac)
    case Raises => Raises
    case Done(pass) => if pass then Done(Some(RevokedValue(o, openers, c))) else Done(None)
  }

  /** One turn of the `deanonymize` loop: the T shares of the entry go through
      `check_sig`, and on a match the key shares through `create_revoked_sig`. */
  method TestEntry(o: Order, openers: seq<int>, c: seq<OpeningShare>, proof: CredProof, vk: Vk, ac: int)
    returns (r: Outcome<Option<int>>)
    ensures r == EntryOutcome(o, openers, c, proof, vk, ac)
  {
    if |openers| < |c| {
      return Raises;
    }
    var ts := TShares(o, openers, c, proof.sig.h);
    var ok := CheckSig(o, ts, proof, vk, ac);
    if ok.Raises? {
      return Raises;
    }
    if !ok.value {
      return Done(None);
    }
    var ks := KeyShares(o, openers, c);
    var rev := CreateRevokedSig(o, ks);
    r := Done(Some(rev.value));
  }

  /** The scan from entry `i` on: the entry's outcome, or the scan from `i + 1` on
      when the entry does not match. */
  lemma ScanAt(o: Order, ledger: seq<(int, seq<OpeningShare>)>, i: int, openers: seq<int>, proof: CredProof, vk: Vk, ac: int)
    requires 0 <= i < |ledger|
    ensures EntryOutcome(o, openers, ledger[i].1, proof, vk, ac) == Raises ==> ScanLedger(o, ledger[i..], openers, proof, vk, ac) == Raises
    ensures EntryOutcome(o, openers, ledger[i].1, proof, vk, ac) == Done(None) ==>
      ScanLedger(o, ledger[i..], openers, proof, vk, ac) == ScanLedger(o, ledger[i + 1..], openers, proof, vk, ac)
    ensures EntryOutcome(o, openers, ledger[i].1, proof, vk, ac).Done? && EntryOutcome(o, openers, ledger[i].1, proof, vk, ac).value.Some? ==>
      ScanLedger(o, ledger[i..], openers, proof, vk, ac) == Done(Some((ledger[i].0, EntryOutcome(o, openers, ledger[i].1, proof, vk, ac).value.value)))
  {
    assert ledger[i..][0] == ledger[i] && ledger[i..][1..] == ledger[i + 1..];
  }

  /** What `deanonymize` returns for a scan: the id found, `None` or the exception. */
  function Reported(scan: Outcome<Option<(int, int)>>): Outcome<Option<int>>
  {
    match scan
    case Raises => Raises
    case Done(found) => if found.Some? then Done(Some(found.value.0)) else Done(None)
  }

  /** `ban_users` after a scan: the found id is mapped to its revoked value. */
  function Banned(bans: map<int, int>, scan: Outcome<Option<(int, int)>>): map<int, int>
  {
    if scan.Done? && scan.value.Some? then bans[scan.value.value.0 := scan.value.value.1] else bans
  }

  /** The process-wide state of src/opener.py: `ledger` maps a user's id to the
      opening shares the user published (kept in the dict's insertion order), and
      `ban_users` maps an id to its revoked value. */
  /** No two ledger entries share an id, as in a dictionary. */
  predicate DistinctKeys(ledger: seq<(int, seq<OpeningShare>)>)
  {
    forall i, j :: 0 <= i < j < |ledger| ==> ledger[i].0 != ledger[j].0
  }

  /** `key` names exactly one ledger entry, and that entry passes `check_sig`. */
  predicate OnlyEntry(o: Order, ledger: seq<(int, seq<OpeningShare>)>, openers: seq<int>, proof: CredProof, vk: Vk, ac: int, key: int)
  {
    exists n :: 0 <= n < |ledger| && ledger[n].0 == key && EntryCheck(o, openers, ledger[n].1, proof, vk, ac) == Done(true)
      && forall m :: 0 <= m < |ledger| && ledger[m].0 == key ==> m == n
  }

  /** With distinct ids, the id the scan reports identifies the entry that opened
      the proof. */
  lemma FoundKeyUnique(o: Order, ledger: seq<(int, seq<OpeningShare>)>, openers: seq<int>, proof: CredProof, vk: Vk, ac: int,
                       key: int, value: int)
    requires DistinctKeys(ledger)
    requires ScanLedger(o, ledger, openers, proof, vk, ac) == Done(Some((key, value)))
    ensures OnlyEntry(o, ledger, openers, proof, vk, ac, key)
  {
    ScanFindsFirst(o, ledger, openers, proof, vk, ac, key, value);
    var n :| FirstMatch(o, ledger, openers, proof, vk, ac, n, key, value);
    assert ledger[n].0 == key;
  }

  class Registry {
    var ledger: seq<(int, seq<OpeningShare>)>
    var banUsers: map<int, int>

    /** Dictionary keys are distinct. */
    predicate Valid()
      reads this
    {
      DistinctKeys(ledger)
    }

    /** `ledger = {}` and `ban_users = {}`. */
    constructor()
      ensures Valid() && ledger == [] && banUsers == map[]
    {
      ledger := [];
      banUsers := map[];
    }

    /** `deanonymize(openers, proof, vk)`, with the openers given by their ElGamal
        secret keys and the `attributes_commitment` the check reads passed as `ac`.
        It bans and returns the first matching id; the ledger is never changed, and
        nothing is banned when no entry matches or a check raises. */
    method Deanonymize(o: Order, openers: seq<int>, proof: CredProof, vk: Vk, ac: int) returns (r: Outcome<Option<int>>)
      requires Valid()
      modifies this
      ensures Valid() && ledger == old(ledger)
      ensures r == Reported(ScanLedger(o, ledger, openers, proof, vk, ac))
      ensures banUsers == Banned(old(banUsers), ScanLedger(o, ledger, openers, proof, vk, ac))
      ensures !(r.Done? && r.value.Some?) ==> banUsers == old(banUsers)
      ensures r.Done? && r.value.Some? ==> banUsers.Keys == old(banUsers).Keys + {r.value.value}
      ensures forall k :: k in old(banUsers) && !(r.Done? && r.value == Some(k)) ==> k in banUsers && banUsers[k] == old(banUsers)[k]
      ensures r.Done? && r.value.Some? ==> OnlyEntry(o, ledger, openers, proof, vk, ac, r.value.value)
    {
      var i := 0;
      while i < |ledger|
        invariant 0 <= i <= |ledger| && ledger == old(ledger) && banUsers == old(banUsers)
        invariant ScanLedger(o, ledger[i..], openers, proof, vk, ac) == ScanLedger(o, ledger, openers, proof, vk, ac)
      {
        var (key, c) := ledger[i];
        ScanAt(o, ledger, i, openers, proof, vk, ac);
        var e := TestEntry(o, openers, c, proof, vk, ac);
        if e.Raises? {
          return Raises;
        }
        if e.value.Some? {
          FoundKeyUnique(o, ledger, openers, proof, vk, ac, key, e.value.value);
          banUsers := banUsers[key := e.value.value];
          return Done(Some(key));
        }
        i := i + 1;
      }
      r := Done(None);
    }
  }
}
