/** Revocation at the relying party. `deanonymize` (src/opener.py) puts the
    revoked value of the user it finds on `ban_users`, but `verify_id`
    (src/rp.py) never reads that list, so the banned user's presentation is still
    accepted. `AcceptsUnlessBanned` is the relying party's check with the ban list
    consulted: it also rejects a presentation that opens, by the equation
    `check_sig` tests, to a banned value. */
module Revocation {
  import opened Modular
  import opened Challenge
  import opened Protocol
  import opened RP
  import opened Opener

  /** Some value `v` on the ban list opens `proof`:
      `e(h, attributes_commitment) * e(h, v) == e(s + vu, g2)`. */
  predicate Revoked(o: Order, proof: CredProof, vk: Vk, bans: map<int, int>, ac: int)
  {
    exists id :: id in bans && Opens(o, Pair(o, proof.sig.h, bans[id]), proof, vk, ac)
  }

  /** `verify_id` followed by a look at `ban_users`: a presentation that opens to a
      banned value is refused, any other gets `verify_id`'s verdict. */
  function AcceptsUnlessBanned(s: Setup, proof: CredProof, vk: Vk, bans: map<int, int>, ac: int): (r: Outcome<bool>)
    ensures r.Raises? <==> Accepts(s, proof, vk).Raises?
    ensures r == Done(true) <==> Accepts(s, proof, vk) == Done(true) && !Revoked(s.o, proof, vk, bans, ac)
    ensures !Revoked(s.o, proof, vk, bans, ac) ==> r == Accepts(s, proof, vk)
  {
    match Accepts(s, proof, vk)
    case Raises => Raises
    case Done(ok) => Done(ok && !Revoked(s.o, proof, vk, bans, ac))
  }

  /** After the scan of `deanonymize` finds the entry of `key`, the ban list maps
      `key` to a value that opens the very presentation that was deanonymised. */
  lemma {:induction false} ScanRevokes(o: Order, ledger: seq<(int, seq<OpeningShare>)>, openers: seq<int>, proof: CredProof, vk: Vk, ac: int,
                                       bans: map<int, int>, key: int, value: int)
    requires ScanLedger(o, ledger, openers, proof, vk, ac) == Done(Some((key, value)))
    ensures key in Banned(bans, ScanLedger(o, ledger, openers, proof, vk, ac))
    ensures Banned(bans, ScanLedger(o, ledger, openers, proof, vk, ac))[key] == value
    ensures Revoked(o, proof, vk, Banned(bans, ScanLedger(o, ledger, openers, proof, vk, ac)), ac)
  {
    ScanFindsFirst(o, ledger, openers, proof, vk, ac, key, value);
    var n :| FirstMatch(o, ledger, openers, proof, vk, ac, n, key, value);
    var c := ledger[n].1;
    EntrySecret(o, openers, c, proof.sig.h);
    assert Opens(o, Pair(o, proof.sig.h, value), proof, vk, ac);
    var banned := Banned(bans, ScanLedger(o, ledger, openers, proof, vk, ac));
    assert banned == bans[key := value];
    assert key in banned && Opens(o, Pair(o, proof.sig.h, banned[key]), proof, vk, ac);
  }

  /** With the ban list consulted, a deanonymised presentation is refused. */
  lemma BannedRejected(s: Setup, ledger: seq<(int, seq<OpeningShare>)>, openers: seq<int>, proof: CredProof, vk: Vk, ac: int,
                       bans: map<int, int>, key: int, value: int)
    requires ScanLedger(s.o, ledger, openers, proof, vk, ac) == Done(Some((key, value)))
    ensures AcceptsUnlessBanned(s, proof, vk, Banned(bans, ScanLedger(s.o, ledger, openers, proof, vk, ac)), ac) != Done(true)
  {
    ScanRevokes(s.o, ledger, openers, proof, vk, ac, bans, key, value);
  }

  /** As written, `verify_id` keeps accepting a presentation after `deanonymize`
      has banned its user, where the check that consults the ban list refuses
      it. */
  lemma BannedStillAccepted(s: Setup, ledger: seq<(int, seq<OpeningShare>)>, openers: seq<int>, proof: CredProof, vk: Vk, ac: int,
                            bans: map<int, int>, key: int, value: int)
    requires Accepts(s, proof, vk) == Done(true)
    requires ScanLedger(s.o, ledger, openers, proof, vk, ac) == Done(Some((key, value)))
    ensures key in Banned(bans, ScanLedger(s.o, ledger, openers, proof, vk, ac))
    ensures Accepts(s, proof, vk) == Done(true)
      && AcceptsUnlessBanned(s, proof, vk, Banned(bans, ScanLedger(s.o, ledger, openers, proof, vk, ac)), ac) == Done(false)
  {
    ScanRevokes(s.o, ledger, openers, proof, vk, ac, bans, key, value);
  }
}
