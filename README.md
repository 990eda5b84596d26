# Threshold anonymous credentials (Coconut-style PS signatures) in Dafny

This project models the protocol core of a threshold anonymous-credential
single-sign-on system built on Pointcheval–Sanders (PS) signatures:

- a **client** commits to its attributes, proves knowledge of them to the
  identity providers, unblinds and aggregates their signature shares, verifies
  the credential, and presents it to a relying party with a zero-knowledge proof
  that reveals only the public attributes;
- an **identity provider (IdP)** checks the issuance proof and returns a blinded
  signature share, or the sentinel `0`;
- a **relying party (RP)** checks the presentation proof and the pairing equation;
- the **openers** combine their partial decryptions of a ledger entry with
  Lagrange weights to find and ban the user behind a presentation.

The groups G1, G2 and GT are modelled by exponents: every element is an integer
modulo the group order `o` (`Modular.Order`), the generators `g1` and `g2` are 1,
and the pairing `e(a, b)` is the product `a * b mod o` (`Modular.Pair`). Under
this model the pairing is bilinear by construction. The completeness equations of
the Schnorr-style proofs and the PS verification equation then become statements
about sums in `Z_o`, and the model proves them as such.

Modules:

- `Modular`: arithmetic modulo the order, folds and dot products.
- `Challenge`: the Fiat–Shamir packing `to_challenge`, with its decoder.
- `Protocol`: the setup (`hs`, hash oracles) and the messages the parties exchange.
- `Threshold`: the filtering of missing shares and the Lagrange weights.
- `Client`, `IdP`, `RP`, `Opener`: the four parties.
- `Correctness`: the completeness and correctness theorems that tie the parties
  together.
- `Aggregation`: what `agg_cred` produces from PS signature shares, and that
  `verify_sig` accepts it under the Lagrange-combined key.
- `Revocation`: the relying party's check with the ban list consulted, and the
  lemmas that compare it with `verify_id` as written.

The loops of the source are `method`s with loop invariants. Each one is proved
equal to a function, and the properties are proved about that function. The
module-level `ledger` and `ban_users` dictionaries are the fields of the class
`Opener.Registry`.

## Model

| member | source | states |
|---|---|---|
| Challenge.Decimal | src/helper.py:30 | `str` of the element count is a non-empty string of decimal digits without a leading zero |
| Challenge.DecimalValue | src/helper.py:30 | the decimal text of `n` reads back as `n` |
| Challenge.ReadFrameOf | src/helper.py:31 | a field (its length, two bars, then the text) is read back exactly, whatever follows it |
| Challenge.ReadFramesOf | src/helper.py:31-32 | joining framed fields with single bars and reading them back gives the same fields |
| Challenge.StateFields | src/helper.py:29-32 | the packed state consists of the count field followed by one field per element text |
| Challenge.UnpackState | src/helper.py:29-32 | decoding the packed state gives back the list of element texts, so packing loses nothing |
| Challenge.StateInjective | src/helper.py:21-32 | two lists of texts pack to the same state if and only if they are equal (the "bijective" packaging the function promises, reorderings included) |
| Challenge.TextsInjective | src/helper.py:29-35 | with an injective `str`, two element lists reach the hash with the same state if and only if they are equal |
| Protocol.ZipMul | src/idp.py:65-66 | `zip(scalars, points)` stops at the shorter list, and term `i` is `scalars[i] * points[i]` |
| Protocol.SumZip | src/idp.py:64-66 | the accumulation loop over `zip` returns the fold of the zipped terms from the start value |
| Protocol.MaskedSum | src/rp.py:49-52 | the loop over the selected positions raises exactly when a selected position has no scalar or no point; otherwise it returns the fold of the selected terms |
| Protocol.FitsMeaning | src/rp.py:50-52 | the fit condition holds if and only if every selected position has a scalar and a point |
| Protocol.FoldAffine | src/client.py:119-123 | folding the selected terms onto `a * g + b` gives `a * g + b` plus their sum, modulo `o` |
| Protocol.TermsDot | src/idp.py:42-43 | the terms of a multi-scalar sum add up to the dot product of scalars and points |
| Protocol.MaskedSplit | src/rp.py:27-30 | the terms a mask selects and the terms it leaves out add up to all the terms |
| Protocol.MaskedLinear | src/rp.py:50-52 | selected sums are linear: if every selected `t_i` is `a * u_i + b * v_i`, the sums are related by the same weights |
| Threshold.Filter | src/client.py:89-94 | the filtering loop returns exactly the present entries and their 1-based positions |
| Threshold.KeptPositions | src/client.py:89-94 | kept entries and positions have equal length; positions lie between 1 and the list's length, strictly increase, and point back at the kept entry |
| Threshold.PositionsComplete | src/client.py:91-94 | every present entry's position is recorded, so no share is dropped |
| Threshold.KeptAllPresent | src/opener.py:97-102 | when no entry is missing, all entries are kept, at positions `1, 2, …, n` |
| Threshold.LagrangeSingle | src/client.py:95 | a single share gets weight 1 |
| Client.Response | src/client.py:77-79 | a response lies in `[0, o)` and satisfies `r + c * x ≡ w` |
| Client.Commitment | src/client.py:51-57 | the commitment raises (index past `hs`) exactly when there are more attributes than `hs` generators |
| Client.CommitmentOpens | src/client.py:54-56 | the commitment opens to `r * g1 + Σ m_i * hs_i`, in attribute order |
| Client.CreateCommitment | src/client.py:51-57 | the `C +=` loop computes `Commitment` |
| Client.IssuanceProofOf | src/client.py:59-80 | the issuance proof raises exactly when there are more attributes than `hs` generators, or a hidden attribute has no `k` (and so no witness `wk[i]`); otherwise it has one response per `k` and per attribute, all in `[0, o)` |
| Client.CommitWitnesses | src/client.py:69-74 | the loop raises under the same conditions; otherwise it returns `Bw` (one entry per hidden attribute) and `Cw = wr * g1 + Σ wm_i * hs_i` |
| Client.CreateZkpIdp | src/client.py:59-80 | the method computes `IssuanceProofOf` |
| Client.UnbindSig | src/client.py:82-85 | unbinding keeps `h` and returns `s` with `s + d * c_1 ≡ c_2`, the ElGamal decryption |
| Client.Aggregate | src/client.py:87-100 | aggregation raises exactly when no share survives; otherwise `h` is the first survivor's and `s ≡ Σ λ_i * s_i`, with the Lagrange weights of the survivors' positions |
| Client.AggCred | src/client.py:87-100 | the filtering and `aggr_sig +=` loops compute `Aggregate` |
| Client.PsCheck | src/client.py:102-110 | the check raises exactly when there are more attributes than `beta`s |
| Client.PsCheckMeaning | src/client.py:107-110 | `verify_sig` accepts if and only if `h` is not the identity and `h * (alpha + Σ m_i * beta_i) ≡ s * g2` |
| Client.VerifySig | src/client.py:102-110 | the loop computes `PsCheck` on `private_m + public_m` |
| Aggregation.AggregateSigned | src/client.py:87-100 | when every surviving share is a PS signature on `ms` with the common base `h` under its key share `(x_i, Y_i)`, the aggregate is a PS signature on `ms` with base `h` under the Lagrange-combined key `(Σ λ_i * x_i, Σ λ_i * Y_i)` |
| Aggregation.SharesDot | src/client.py:95-99 | weighing such shares gives `Σ λ_i * s_i ≡ h * (Σ λ_i * x_i + Σ λ_i * Σ_j m_j * Y_ij)` |
| Aggregation.DotCombineKeys | src/client.py:95-99 | weighing the attributes with the combined key equals combining the per-share weighted sums |
| Aggregation.PublicKey | src/client.py:102-110 | the verification key `(g2, x * g2, [y_j * g2])` of a secret key has exponents congruent to `x` and `y` |
| Aggregation.SignedVerifies | src/client.py:102-110 | a PS signature with a non-identity base passes `verify_sig` under the verification key of the key it was made with |
| Aggregation.AggregateVerifies | src/client.py:87-110 | the aggregate of such shares, with a non-identity base, passes `verify_sig` under the verification key of the Lagrange-combined key |
| Client.RandomizePreserves | src/client.py:130-134 | in a prime-order group, re-randomising with a non-zero scalar gives exactly the same `verify_sig` outcome as the original signature |
| Client.HiddenFirstLayout | src/client.py:144-147 | when hidden attributes come first, an attribute is hidden if and only if its index is below the hidden count, and the hidden values line up with the first attributes |
| Client.Redact | src/client.py:127 | the redacted list has the attributes' length, holds `""` exactly at the hidden slots, and holds the value at every public slot |
| Client.PresentationProofOf | src/client.py:136-156 | the presentation proof raises exactly unless the hidden attributes come first and each has a `beta`; otherwise it has one response per hidden attribute, all in `[0, o)` |
| Client.HiddenWitnessSum | src/client.py:142-147 | the first loop raises under the same condition; otherwise `Aw` is the fold of `wm_i * beta_i` over the hidden slots |
| Client.CreateZkpRp | src/client.py:136-156 | the method, with its two loops and counter `j`, computes `PresentationProofOf` |
| Client.BlindedKeyValue | src/client.py:119-123 | `k ≡ r * g2 + alpha + Σ_hidden H(m_i) * beta_i` |
| Client.Presentation | src/client.py:113-128 | `prove_id` raises exactly when its proof does; otherwise the signature is re-randomised, `vu = r * h'` uses the same `r` as `k`, the attribute list is redacted, and `k` is the blinded key |
| Client.ProveId | src/client.py:113-128 | the method with its `k +=` loop computes `Presentation` |
| IdP.VerifyIssuance | src/idp.py:23-44 | the check raises exactly when `zip(*cypher)` cannot unpack or a response list is too short for its index range |
| IdP.VerifyZkp | src/idp.py:23-44 | the method with its `Vc +=` loop computes `VerifyIssuance` |
| IdP.PublicCommitments | src/idp.py:60-63 | `C_pub` has one entry per non-empty slot, in slot order, each `H(attribute) * h` |
| IdP.BlindSignature | src/idp.py:46-71 | signing raises exactly when `cypher` is empty; the returned base is `hashG1(C)`, the base the check used |
| IdP.SignCred | src/idp.py:46-71 | the `C_pub`, `c_1` and `c_2` loops compute `BlindSignature` |
| IdP.ProvideId | src/idp.py:18-21 | `provide_id` raises exactly when the check does, returns the sentinel exactly when the proof fails, and returns a signature exactly when it holds, and that signature is `__sign_cred`'s |
| RP.RecomputedVa | src/rp.py:49-52 | `Va ≡ c * k + rr * g2 + (1 - c) * alpha + Σ_{slot == ""} ra_i * beta_i` |
| RP.PresentationHolds | src/rp.py:35-54 | the check raises exactly when a redacted slot has no response or no `beta` |
| RP.VerifyZkp | src/rp.py:35-54 | the method with its `Va +=` loop computes `PresentationHolds` |
| RP.PublicContribution | src/rp.py:27-30 | `aggr` raises exactly when a revealed slot has no `beta`; otherwise it is the sum of `H(attribute) * beta_i` over the revealed slots, from the identity |
| RP.Accepts | src/rp.py:13-33 | `verify_id` is `False` as soon as the proof fails; it is `True` only when the proof holds and `h` is not the identity; it raises exactly when the proof check or `aggr` raises |
| RP.AcceptsMeaning | src/rp.py:32-33 | once the proof holds, `verify_id` accepts if and only if `h` is not the identity and `h * (k + aggr) ≡ (s + vu) * g2` |
| RP.PairingEquation | src/rp.py:33 | `e(h, k + aggr) == e(s + vu, g2)` holds if and only if the exponent equation holds |
| RP.VerifyId | src/rp.py:13-33 | the method with its `aggr +=` loop computes `Accepts` |
| Opener.ReconstructKeyShare | src/opener.py:29-38 | the key share lies in `[0, o)` and is `c1 - c0 * sk` modulo `o` |
| Opener.CalculateT | src/opener.py:17-27 | `calculate_t(c, h) == e(h, reconstruct_key_share(c))` |
| Opener.ReconstructDecrypts | src/opener.py:29-38 | for an ElGamal encryption `(k * g2, k * pk + m)` under the opener's key, the key share is `m` |
| Opener.LagrangeSum | src/opener.py:104-106 | the loop shape `x_0 * l_0 + Σ x_i * l_i` is the dot product of weights and shares |
| Opener.CombineAsWritten | src/opener.py:97-107 | the combination as written raises exactly when the list is empty or any share is missing; otherwise it is the Lagrange combination of the shares |
| Opener.CombineSurvivors | src/opener.py:97-103 | the corrected combination raises exactly when no share survives; otherwise it is the Lagrange combination of the survivors at their positions |
| Opener.MissingShareRaises | src/opener.py:104-106 | on `[None, Some(t)]` the written combination raises, while the corrected one returns `t` |
| Opener.SurvivorsAgree | src/opener.py:97-107 | with no share missing, the written and corrected combinations agree |
| Opener.CombineBilinear | src/opener.py:59-61 | bilinearity: combining the pairings `e(h, x_i)` with weights gives `e(h, combination of the x_i)` |
| Opener.SigCheck | src/opener.py:62-64 | `check_sig` raises exactly when the combination raises; otherwise it accepts if and only if `e(h, attributes_commitment) * secret == e(s + vu, g2)` |
| Opener.CombineLoop | src/opener.py:59-61 | the `secret *=` loop over the unfiltered list computes `CombineAsWritten` |
| Opener.CheckSig | src/opener.py:41-64 | `check_sig` is `SigCheck` on the written combination of `T` |
| Opener.CreateRevokedSig | src/opener.py:89-107 | `create_revoked_sig` is the written combination of the shares |
| Opener.EntryCheck | src/opener.py:78-79 | testing an entry raises exactly when there are fewer openers than shares or the entry is empty |
| Opener.EntrySecret | src/opener.py:78-82 | for a ledger entry the `T` shares are all present, so `check_sig`'s combined value is `e(h, create_revoked_sig(key shares))` |
| Opener.TestEntry | src/opener.py:77-85 | one turn of the `deanonymize` loop computes the entry's outcome |
| Opener.ScanFindsNothing | src/opener.py:76-86 | the scan finds nothing if and only if every entry is tested and fails |
| Opener.NothingFoundAllFail | src/opener.py:76-86 | if the scan finds nothing, every entry failed |
| Opener.AllFailNothingFound | src/opener.py:76-86 | if every entry fails, the scan finds nothing |
| Opener.ScanFindsFirst | src/opener.py:76-85 | a found key is that of the first entry that passes; every earlier entry failed; the ban value is that entry's revoked value |
| Opener.FoundKeyUnique | src/opener.py:76-86 | with distinct ledger ids, the id the scan reports names exactly one entry, and that entry passes `check_sig` |
| Opener.Registry.constructor | src/opener.py:6-7 | `ledger` and `ban_users` start empty |
| Opener.Registry.Deanonymize | src/opener.py:67-86 | the ledger is unchanged; the result is the scan's key or `None`; at most the found key is added to the ban list, with its revoked value; every other ban entry is untouched; nothing changes when nothing is found or a check raises; a reported id names exactly one ledger entry, which passes `check_sig` |
| Correctness.HiddenCommitmentsLayout | src/client.py:71-73 | with hidden attributes first, `Bw[j] = wk[j] * pk + wm[j] * h` for each hidden position `j` |
| Correctness.VaEntry | src/idp.py:38 | `c * (k * g1) + (wk - c * k) * g1 = wk * g1` |
| Correctness.VbEntry | src/idp.py:40 | `c * (k * pk + m * h) + rk * pk + ra * h = wk * pk + wm * h` |
| Correctness.VcMatches | src/idp.py:41-43 | the IdP's `Vc` equals the prover's `Cw` when `C` opens to the attribute hashes |
| Correctness.IssuanceVaWitnesses | src/idp.py:38 | on an honest request, `Va` is the prover's `Aw` |
| Correctness.IssuanceVbCommitments | src/idp.py:40 | on an honest request, `Vb` is the prover's `Bw` |
| Correctness.IssuanceVcCommitment | src/idp.py:41-43 | on an honest request, `Vc` is the prover's `Cw` |
| Correctness.IssuanceHolds | src/idp.py:44 | an honest request whose challenge hashes `Cw`, `Aw` and `Bw` passes the check |
| Correctness.IssuanceComplete | src/idp.py:23-44 | issuance completeness: a proof `__create_zkp_idp` builds for ElGamal ciphertexts of the hidden hashes and an opening commitment passes `__verify_zkp` |
| Correctness.BlindFirst | src/idp.py:64-66 | `c_1 = Σ y_i * a_i` is `Σ y_i * k_i` |
| Correctness.BlindSecond | src/idp.py:67-69 | `c_2 = x * h + pk * Σ y_i * k_i + h * Σ y_i * (m ++ H(pub))_i` |
| Correctness.PublicDot | src/idp.py:61-63 | `Σ y_j * C_pub_j = h * Σ y_j * H(pub_j)` |
| Correctness.BlindSignCorrect | src/idp.py:46-71 | blind-signing correctness: for ElGamal ciphertexts under the client's key, unbinding the share gives base `hashG1(C)` and `s = (x + Σ y_i * m_i + Σ y_j * H(pub_j)) * h`, a PS signature |
| Correctness.UnbindCorrect | src/client.py:82-85 | unbinding a share of that shape leaves a PS signature on the attributes |
| Correctness.RedactMask | src/client.py:127 | the RP reads redacted slots exactly where the client hid attributes |
| Correctness.HiddenResponsesLinear | src/client.py:149-154 | the hidden responses weigh the `beta`s like `wm_i - c * H(m_i)` |
| Correctness.PresentationVa | src/rp.py:49-52 | the RP's `Va` is the client's `Aw` |
| Correctness.ProofResponses | src/rp.py:50-52 | the responses read at the redacted slots weigh the `beta`s like the witnesses minus `c` times the hidden hashes |
| Correctness.PresentationVr | src/rp.py:53 | the RP's `Vr = c * vu + rr * h` is the client's `Bw = wt * h` |
| Correctness.PresentationHonest | src/client.py:113-128 | `prove_id` succeeds when the hidden attributes come first and each has a `beta`, and builds honest commitments and responses |
| Correctness.PresentationCommits | src/client.py:119-127 | `prove_id` produces the redacted slots, `vu = r * h'` and `k = r * g2 + alpha + Σ_hidden H(m_i) * beta_i` |
| Correctness.PresentationResponds | src/client.py:136-156 | the responses answer the challenge on the client's own `Aw` and `Bw` |
| Correctness.HonestProofHolds | src/rp.py:35-54 | an honest presentation passes `__verify_zkp` |
| Correctness.PresentationProofComplete | src/rp.py:35-54 | RP proof completeness: what `prove_id` builds passes `__verify_zkp` |
| Correctness.ChallengeCong | src/rp.py:54 | the challenge depends on `Va` and `Vr` only as group elements |
| Correctness.PublicAndHidden | src/rp.py:27-30 | the hidden terms in `k` and the public terms in `aggr` add up to all the terms |
| Correctness.HiddenAndRevealed | src/rp.py:27-30 | the same, modulo `o`: hidden plus revealed is `Σ H(m_i) * beta_i` |
| Correctness.HonestKey | src/rp.py:27-33 | with honest commitments, `k + aggr ≡ r * g2 + alpha + Σ H(m_i) * beta_i` |
| Correctness.HonestPairing | src/rp.py:33 | with honest commitments and a signature on all attributes, the pairing equation of `verify_id` holds |
| Correctness.PsCheckPasses | src/client.py:102-110 | a signature `verify_sig` accepts has a non-identity `h` and satisfies the PS equation |
| Correctness.AcceptedWhen | src/rp.py:24-33 | `verify_id` accepts once the proof holds, `h` is not the identity and the pairing equation holds |
| Correctness.HonestAccepted | src/rp.py:24-33 | a presentation with a valid proof, honest commitments and an accepted signature passes `verify_id` |
| Correctness.PairingAlgebra | src/rp.py:33 | `h * (k + aggr) ≡ (s + vu) * g2` for `k + aggr ≡ r * g2 + x`, `vu ≡ r * h` and `h * x ≡ s * g2` |
| Revocation.AcceptsUnlessBanned | src/rp.py:13-33 | the relying party's check with `ban_users` consulted raises exactly when `verify_id` does, accepts exactly when `verify_id` accepts and no banned value opens the presentation, and agrees with `verify_id` whenever none does |
| Revocation.ScanRevokes | src/opener.py:76-86 | after the scan finds the entry of `key`, the ban list maps `key` to a value that opens the deanonymised presentation by the `check_sig` equation |
| Revocation.BannedRejected | src/opener.py:76-86 | the check that consults `ban_users` refuses a presentation whose user `deanonymize` has banned |
| Revocation.BannedStillAccepted | src/rp.py:13-33 | `verify_id` as written still accepts a presentation after `deanonymize` has banned its user, where the check with the ban list refuses it |
| Correctness.PresentationComplete | src/rp.py:13-33 | pairing-check correctness: an honest presentation of a credential `verify_sig` accepts, re-randomised with a non-zero scalar in a prime-order group, is accepted by `verify_id` |

## Left out

- `ElGamal` and `Polynomial` are not part of this model. The ciphertext shape `(k * g1, k * pk + m * h)` is a hypothesis of the completeness lemmas. Decryption is taken as `c_2 - d * c_1`. The Lagrange weights use the standard formula with a Fermat inverse (`Threshold.Lagrange`), and the lemmas about combining hold for any weights.
- `request_id` is left out: it sends `pi_s = 0` in place of its issuance proof, and it mixes byte attributes with scalars. The issuance proof is modelled on its own (`Client.IssuanceProofOf`), with the attribute hashes as scalars and a separate hidden flag.
- Key generation, the IdP's check of the opening proof and the code that writes `ledger` entries are not modelled; none of them is in src/idp.py, src/client.py or src/opener.py. `Opener.Registry` therefore has only its constructor and `Deanonymize`, and the ledger is given to it.
- `attributes_commitment`, which `check_sig` reads from the proof but the client never sets, is the parameter `ac`.
- Each ledger entry is a dictionary from opener index to share. It is a sequence in the dictionary's iteration order, and the ledger is a sequence of `(id, shares)` pairs in insertion order.
- The sentinels `0` of `provide_id` and `deanonymize` become `IdP.Rejected` and `None`. The empty string `""` of a redacted slot becomes `Protocol.Redacted`.
- Randomness (`o.random()`) consists of parameters: `r`, `rho`, `wt`, `wr`, `wk`, `wm`, `wms`.
- `hashG1`, SHA-256 and `str` are uninterpreted functions of `Protocol.Setup`. Group elements are their exponents, with `g1 = g2 = 1`.
- Soundness, zero knowledge, unlinkability and threshold minimality cannot be stated in the exponent model, so they are left out.
- Python exceptions (an index past a list, a failed tuple unpack) become `Outcome.Raises`. Which exception is raised is not modelled.
- Correctness.IssuanceComplete, Correctness.PresentationProofComplete and Correctness.PresentationComplete assume that the hidden attributes come first. This is the layout `request_id` builds (`private_m + public_m`). Both `__create_zkp_rp` and the RP index the witnesses and responses by attribute position, so with any other order the client raises (modelled) or the proof fails.
- Correctness.BlindSignCorrect assumes `|ms| + |public attributes| <= |y|`. With fewer `y`s, `zip` silently drops terms and the result is not a signature on all the attributes.
- Correctness.PresentationComplete and Client.RandomizePreserves assume a prime order and a non-zero randomiser. `o.random()` can return 0, and then the signature base becomes the identity.

Where the code departs from the intended threshold Coconut / PS protocol, the model follows the code:

- The code raises where the protocol treats insufficient shares as an ordinary result. This happens in `agg_cred` when every share is missing, and in `check_sig` and `create_revoked_sig` when any share is missing.
- The issuance proof in the code binds no user secret.
- `deanonymize` combines the shares of every opener listed in the entry, not a threshold subset.

## Findings

| source | as written | input that shows it | evidently intended | confidence | as-written member | corrected member |
|---|---|---|---|---|---|---|
| src/opener.py:59-61 | `check_sig` and `create_revoked_sig` filter out the missing shares to compute the weights, but then loop over the unfiltered list, so any `None` entry raises | `[None, Some(t)]`: the written combination raises on `None ** l[0]` | combine the surviving shares with the Lagrange weights of their positions, which gives `t` | not executed | Opener.MissingShareRaises | Opener.CombineSurvivors |
| src/rp.py:13-33 | `verify_id` never reads `ban_users`, so revoking a user has no effect on the relying party | the presentation that `deanonymize` has just traced to a ledger entry and banned (testing/test_implementation.py:48-51 expects `verify_id` to refuse it) | refuse a presentation that opens, by the `check_sig` equation, to a banned value | not executed | Revocation.BannedStillAccepted | Revocation.AcceptsUnlessBanned |
