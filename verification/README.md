# Verified model of the certificate authority server

The project models the state machines and graph algorithms of the server in Dafny 4.11
and proves what they promise over every input and every reachable state. `dafny verify
dfyconfig.toml` checks all of it.

Each component has a specification on values (what one request, statement or pass does to
the tables), a class or method in the form of the source that is proved to do exactly
that, and theorems about whole runs of the specification. `AuditPolicy`, `AcmeProgress`,
`CaEffects`, `NameMeaning` and `DualControlMode` say in the stored columns alone what single
steps achieve.

| files | component |
|---|---|
| `AuditChain`, `AuditRuns`, `AuditHashes`, `AuditPolicy`, `AuditLog` | the audit hash chain: seal, verify, anchor, prune |
| `AcmeOrders`, `AcmeInvariants`, `AcmeStates`, `AcmeNames`, `AcmeProgress`, `AcmeServer` | the ACME server of RFC 8555: accounts, orders, authorizations, challenges, retries, nonces |
| `CaTree`, `CaRegistry`, `CaRuns`, `CaChains`, `CaEffects` | the CA hierarchy: revocation cascade, path length, cross-signing, exported chains |
| `Crl`, `CrlGaps`, `Ocsp` | CRL contents against OCSP answers, through the three OCSP caches |
| `BundleOrder` | ordering an uploaded bundle of certificates |
| `CsrClaim` | the single-flight claim on a CSR, with N workers |
| `Scheduler`, `Expiry`, `ExpiryRuns` | the scheduler lease, interval jobs, once-only expiry events |
| `NameConstraints`, `NameMeaning`, `NameEnforcement` | name constraints: parsing, matching, enforcement up the chain |
| `Passphrase` | rotation of the master passphrase |
| `DualControl`, `DualControlMode`, `DualControlRoutes` | four-eyes rules |

Parameters stand for what lies outside: SHA-256 is an arbitrary digest (freedom from
collisions, and never producing the genesis value, are hypotheses of the lemmas that
need them), signature checks are an arbitrary relation, clocks, fresh keys, random tokens
and the outcomes of network lookups are inputs. New primary keys exceed the existing ones
where the proof needs it, audit rows excepted: there an id may fill a gap. Random serial
numbers are fresh.

## Where the code does not meet its description

Each of these is a lemma with a concrete input, next to the exact condition under which
the property holds.

- README line 26 promises that `verify` reports the first altered row; it reports any log
  as fine whose first row is unsealed (`AuditRuns.UnsealedFirstRowHidesDamage`,
  `AuditRuns.AcceptanceIsCleanliness`).
- The comment at app/routes/csr.py:360-362 says an approved CSR cannot become rejected. The
  check and the write are two statements, so it can (`CsrClaim.RejectionCanRaceIssuance`,
  `CsrClaim.RejectedWithACertificate`), and a rejected CSR can still be signed
  (`CsrClaim.RejectionStands`).
- The hashes of the audit log depend on how seal passes were batched when a row commits
  late, before the first seal pass (`AuditHashes.LateCommitChangesHashes`,
  `AuditHashes.HashesAgreeIffChainsBeginAlike`).
- ACME issues names that were not ordered: `finalize` reads the first CN of a CSR, and the
  whole subject is issued (`AcmeNames.SecondCnBecomesAName`, `AcmeNames.SecondCnBesideSans`,
  `AcmeInvariants.NamesMatchIffOneName`, `AcmeInvariants.AllNamesMatchIffUnreadOrdered`).
- An imported CA can sign without approval under dual control: it is committed as approved
  and stamped pending in a second commit (`DualControl.ImportedKeySignsEarly`,
  `DualControl.SignersAreApprovedIffStamped`).
- An expiry event is sent twice when two passes overlap: nothing is checked between select
  and report (`ExpiryRuns.OverlapSendsTwice`, `ExpiryRuns.NotifiesOnceIffUndisturbed`).
- A revoked sub-CA leaves its parent's CRL when a re-issue that was pending before the
  revocation is approved (`CrlGaps.PromotionDropsAListedSerial`,
  `Crls.SubCaStaysListedUnlessPromoted`). The previous and cross-signed certificates of a
  revoked CA are never listed (`CrlGaps.OnlyTheCurrentIsListed`).
- A certificate and an imported sub-CA of one issuer can share a serial number; CRL and OCSP
  then differ (`CrlGaps.SharedSerialDisagrees`, `CrlGaps.AgreeIffNotMasked`).
- An imported child is not held to its parent's path length
  (`CaRuns.ImportIgnoresPathLength`, `CaRuns.EveryRunFitsIffNoImportOversteps`).
- A constraint with two leading dots, which only an imported certificate can carry, admits
  a wildcard but refuses its instances (`NameConstraints.DoubleDotsUnfaithful`,
  `NameConstraints.WildcardsStandForTheirInstances`).
- An interval job that outlives the lease of its worker is run again by the next holder
  (`Schedulers.SlowJobRunsTwice`, `Schedulers.RunsAreSpacedIffUndisturbed`).

## Model

| member | source | states |
|---|---|---|
| `AuditRuns.RunKeepsChain` | app/services/audit_chain.py:62-97 | after any run of commits, seals, anchors and prunes the sealed rows are one gap-free linked chain, rooted at genesis or at the newest checkpoint for the row before it; at genesis as long as nothing was pruned |
| `AuditRuns.EveryRunVerifies` | app/services/audit_chain.py:127-180 | `verify` accepts the table after every such run |
| `AuditRuns.PruneLeavesAVouchedStart` | app/services/audit_chain.py:211-257 | a prune that removes rows appends a checkpoint with the exact range, hash and count; the first row left links to that hash, or no sealed row is left and the chain restarts at genesis |
| `AuditRuns.RunKeepsSorted` | app/services/audit_chain.py:62-97 | the table stays in id order over every run |
| `AuditHashes.HashesIgnoreBatching` | app/services/audit_chain.py:69-97 | of two histories that share a beginning and prune nothing after it, however they interleaved commits and batched seal passes: a row both sealed carries the same hash if their chains begin at the same row with the same predecessor and hold the same rows up to it |
| `AuditHashes.BetweenPrunesHashesIgnoreBatching` | app/services/audit_chain.py:69-97 | once the common beginning has a sealed row, the hashes never depend on the batching |
| `AuditHashes.HashesAgreeIffChainsBeginAlike` | app/services/audit_chain.py:75-80 | with a digest that has no collisions and never gives genesis, the hashes of a row agree if and only if the chains begin at the same row with the same predecessor |
| `AuditHashes.LateCommitChangesHashes` | app/services/audit_chain.py:75-80 | concrete pair of prune-free histories with the same rows in which a row sealed by both has different hashes, because the first seal has no gap guard |
| `AuditRuns.AcceptedIsOneChain` | app/services/audit_chain.py:127-180 | a walk whose first row is sealed is accepted if and only if it is one rooted chain followed only by unsealed rows |
| `AuditRuns.SealTwiceIsSealOnce` | app/services/audit_chain.py:69-97 | a seal pass followed by a later one equals the later one alone |
| `AuditRuns.SharedHashSharesHistory` | app/services/audit_chain.py:127-180 | two accepted logs that share one hash agree on every row below it that both hold, given a digest without collisions on them |
| `AuditRuns.SharedHashMeansSameLog` | app/services/audit_chain.py:185-194 | two accepted logs from genesis that share a head or anchored hash have identical rows up to it |
| `AuditRuns.AcceptanceIsCleanliness` | app/services/audit_chain.py:139-143 | acceptance means that no row offends if and only if the first row is sealed or nothing is sealed |
| `AuditRuns.UnsealedFirstRowHidesDamage` | app/services/audit_chain.py:139-143 | concrete damaged log that is accepted because its first row is unsealed |
| `AuditLogs.AuditLog.LogAction` | app/services/audit_service.py:34-61 | a commit inserts one unsealed row at its place in id order |
| `AuditLogs.AuditLog.Seal` | app/services/audit_chain.py:69-97 | contents and earlier seals stay; the rows after the head are sealed without leaving one out, none of them dated after the grace moment, until the rows end, one is dated after it or an id is missing; the summary counts them and names the reason to stop |
| `AuditPolicy.SealIsRipe` | app/services/audit_chain.py:69-97 | the same of the specification of a pass |
| `AuditLogs.AuditLog.Verify` | app/services/audit_chain.py:127-180 | ok exactly when the log is accepted; otherwise the row named is the least offending one with a reason that applies to it; head and counts are those of the walk, also where it is empty or starts unsealed |
| `AuditLogs.AuditLog.Anchor` | app/services/audit_chain.py:185-194 | the row added holds the id and hash of the last sealed row, if any, and the number of sealed rows |
| `AuditLogs.AuditLog.Prune` | app/services/audit_chain.py:211-257 | the rows gone are a prefix, each sealed and dated before the retention moment; the rest is left in order; the first row left is unsealed, undated, dated at or after the moment or not next in id; one checkpoint row is added; a dry run or disabled retention changes nothing |
| `AuditPolicy.RetainedRows` | app/services/audit_chain.py:217-235 | a row goes only if it was sealed and dated before the moment, and every other row is still there |
| `AuditPolicy.CheckpointForIs` | app/services/audit_chain.py:115-124 | the hash vouched for is that of the newest checkpoint for the id |
| `AuditPolicy.FromCovers` | app/services/audit_chain.py:130-133 | a walk from an id covers exactly the rows with that id or a later one |
| `AuditPolicy.SealedCountIs` | app/services/audit_chain.py:185-194 | the count is the number of rows with a hash |
| `AuditLogs.WalkChain` | app/services/audit_chain.py:159-180 | the loop of `verify` finds the least offending row, or none |
| `AuditLogs.ExtendChain` | app/services/audit_chain.py:75-97 | the loop of `seal` computes the repeated sealing, with its count and reason to stop |
| `AuditLogs.SelectRows` | app/services/audit_chain.py:217-239 | the rows chosen for a prune are the longest prefix of sealed rows dated before the moment and without a gap in their ids |
| `AcmeStates.RunKeepsInv` | app/services/acme/service.py:264-322 | every reachable state keeps the order, key, EAB and nonce invariants |
| `AcmeStates.EveryRunAuthorizes` | app/services/acme/service.py:468-534 | an order that is ready, processing or valid has one valid authorization per identifier, each with exactly one valid challenge whose last check succeeded, dns-01 for a wildcard; an issued certificate carries exactly the ordered names if and only if it has SANs or all its CNs are one name, and SANs and CNs together are the ordered names if and only if the CNs that no check reads are among them |
| `AcmeNames.SecondCnBecomesAName` | app/services/acme/service.py:490-498 | concrete run: an order for one name, a CSR without SANs and with a second CN, and a certificate that carries both |
| `AcmeNames.SecondCnBesideSans` | app/services/acme/service.py:490-498 | concrete run: with SANs the second CN is issued beside them |
| `AcmeStates.EveryRunMovesForward` | app/services/acme/service.py:291-322 | order, authorization and challenge statuses only rise in rank and final ones never change |
| `AcmeStates.EveryRunRetriesWithinBounds` | app/services/acme/service.py:432-453 | a dns-01 challenge makes at most max(1, limit) lookups at least the retry gap apart, only the last of which succeeds; while processing 1 <= attempts < limit with a next attempt before the expiry |
| `AcmeStates.EveryRunSpendsOnce` | app/services/acme/service.py:89-99 | no nonce is accepted twice, no EAB key registers two accounts, no key has two accounts in one CA |
| `AcmeStates.OnlyTheOwnerActs` | app/services/acme/service.py:355-378 | only the account that owns an order, registered with its CA and active, changes it; otherwise only expiry does |
| `AcmeProgress.AnsweringLooksUp` | app/services/acme/service.py:390-453 | answering a pending challenge of a pending authorization makes exactly one lookup: with success challenge and authorization are valid, and the order ready once all are; a dns-01 miss with attempts and time left is retried after the gap; any other miss fails challenge, authorization and order; nothing else is touched |
| `AcmeProgress.OtherAnswersDoNothing` | app/services/acme/service.py:394-396 | answering any other challenge looks nothing up |
| `AcmeProgress.PollingLooksUp` | app/services/acme/service.py:309-322 | a poll makes the first lookup that is due, with the same consequences |
| `AcmeProgress.OtherPollsLookNothingUp` | app/services/acme/service.py:309-322 | without one it looks nothing up, and expires the authorization when that is due |
| `AcmeProgress.EveryAnswerCounts` | app/services/acme/service.py:390-408 | in every reachable state an active owner's answer to an open challenge has those consequences |
| `AcmeProgress.FinalizingEnds` | app/services/acme/service.py:468-534 | how a finalize request of a ready order ends, outcome by outcome |
| `AcmeProgress.MaintenanceExpires` | app/services/acme/service.py:629-640 | only overdue unfinished orders and overdue pending authorizations expire |
| `AcmeProgress.MaintenanceDropsStaleNonces` | app/services/acme/service.py:641-644 | exactly the nonces past their lifetime go |
| `AcmeProgress.AcceptedIdentifiers` | app/services/acme/service.py:236-251 | an identifier is accepted exactly as a string of type dns whose base is a hostname without a star, a wildcard only where allowed and dns-01 offered |
| `AcmeProgress.AcceptedLists` | app/services/acme/service.py:231-261 | a list is accepted if it is not empty, each item passes, the name constraints permit them and they are not too many; its names are those of its items |
| `AcmeProgress.BindingIsChecked` | app/services/acme/service.py:155-168 | no binding is needed where the CA asks for none; one counts with a key of the CA that is unused and not revoked and a MAC that verifies |
| `AcmeProgress.RegisteringAnAccount` | app/services/acme/service.py:137-179 | an account is created exactly for a new key with good contacts and binding where not only an existing one is wanted, and spends its binding key |
| `AcmeProgress.DeactivatingAnAccount` | app/services/acme/service.py:193-202 | the account is closed, its unfinished orders end, all others stay |
| `AcmeProgress.ChangingAKey` | app/services/acme/service.py:210-226 | the key changes exactly if account and old key are named rightly and no other account of the CA has the new one |
| `AcmeProgress.PresentingANonce` | app/services/acme/service.py:89-99 | a nonce is accepted exactly within its lifetime, and is gone once presented |
| `AcmeStates.ParsedAreDistinct` | app/services/acme/service.py:231-261 | parsed identifiers are distinct, normalised, and wildcards only where they are offered |
| `AcmeInvariants.NewOrderIsUnanswered` | app/services/acme/service.py:264-288 | a new order is pending with one pending authorization per identifier, holding every challenge offered for it, only dns-01 for a wildcard, none of them attempted |
| `AcmeInvariants.NewOrderInv` | app/services/acme/service.py:264-288 | a new order satisfies the order invariant |
| `AcmeInvariants.RefreshOrderStep` | app/services/acme/service.py:291-306 | refreshing keeps the invariant and moves statuses forward only |
| `AcmeInvariants.RefreshedIsCurrent` | app/services/acme/service.py:291-306 | a refreshed live order has not expired and has no failed authorization |
| `AcmeInvariants.RespondStep` | app/services/acme/service.py:390-429 | answering a challenge keeps the invariant and moves statuses forward only |
| `AcmeInvariants.PollAuthzStep` | app/services/acme/service.py:309-322 | polling, with the lookup it may make, keeps the invariant and moves statuses forward only |
| `AcmeInvariants.FinalizeRequestStep` | app/services/acme/service.py:468-534 | finalizing keeps the invariant and moves statuses forward only |
| `AcmeInvariants.CsrMatchesExactly` | app/services/acme/service.py:483-499 | a CSR is accepted exactly when its SANs, or its first CN alone where it has none, are the identifiers of the order, its first CN is one of them and it asks for no other kind of name |
| `AcmeInvariants.NamesMatchIffOneName` | app/services/acme/service.py:490-498 | a certificate from an accepted CSR carries exactly the ordered names if and only if it has SANs or all its CNs are one name |
| `AcmeInvariants.AllNamesMatchIffUnreadOrdered` | app/services/cert_service.py:254-256 | SANs and CNs together are exactly the ordered names if and only if every CN that no check reads, the later ones and a blank first one, is an ordered name |
| `AcmeInvariants.IssuedOnlyWhenReady` | app/services/acme/service.py:468-483 | a certificate is issued only from an order that was ready and unexpired when refreshed and whose CSR passed, and carries the names of that CSR |
| `AcmeInvariants.RespondNeverSeesAnExpiredOrder` | app/services/acme/service.py:390-399 | with one clock reading per request, a challenge that passes loading belongs to an unexpired order |
| `AcmeServers.AcmeServer.Register` | app/services/acme/service.py:137-179 | registration returns the account of the key, or makes one and spends its EAB key, or refuses without change |
| `AcmeServers.AcmeServer.Deactivate` | app/services/acme/service.py:193-202 | deactivation closes the account and invalidates exactly its unfinished orders |
| `AcmeServers.AcmeServer.ReplaceKey` | app/services/acme/service.py:210-226 | a request that names another account or old key, or a key already taken in the CA, is refused; otherwise only the thumbprint changes |
| `AcmeServers.AcmeServer.ReadIdentifiers` | app/services/acme/service.py:231-261 | the loop returns the distinct normalised names or the first error |
| `AcmeServers.AcmeServer.Place` | app/services/acme/service.py:264-288 | an order is added exactly when the identifiers are accepted |
| `AcmeServers.AcmeServer.ShowAuthorization` | app/services/acme/service.py:362-387 | loading, polling and deactivating change only that authorization's order |
| `AcmeServers.AcmeServer.ShowChallenge` | app/services/acme/service.py:370-408 | loading and answering change only that challenge's order |
| `AcmeServers.AcmeServer.TakeNonce` | app/services/acme/service.py:89-99 | a nonce is removed when it is presented, and accepted only if it is fresh |
| `AcmeServers.AcmeServer.Expire` | app/services/acme/service.py:629-644 | maintenance invalidates exactly the overdue orders and authorizations and drops stale nonces |
| `AcmeServers.DeriveStatus` | app/services/acme/service.py:291-306 | the loop over the authorizations derives the specified status |
| `AcmeServers.RunDueLookup` | app/services/acme/service.py:309-322 | at most the first due challenge is looked up |
| `CaRegistries.CaRegistry.RevokeRecursive` | app/services/crl_service.py:113-134 | the recursion that skips revoked children marks exactly the live objects of the whole subtree, and counts them |
| `CaRegistries.CaRegistry.RevokeCa` | app/services/crl_service.py:99-141 | both counts equal the objects newly revoked; an unknown or revoked CA changes nothing |
| `CaRegistries.CaRegistry.CountActiveSubCas` | app/routes/ca.py:645-652 | the previewed count is the number of sub-CAs the revocation then reports |
| `CaRegistries.CascadeStaysClosed` | app/services/crl_service.py:99-141 | marking a subtree keeps revocation downward closed |
| `CaRuns.RunKeepsWellformed` | app/services/ca_service.py:144-261 | parent links stay acyclic and revocation closed under creation, import, approval, issuance, renewal, revocation, re-issue and cross-signing |
| `CaRuns.EveryRunClosesRevocation` | app/services/crl_service.py:99-141 | in every reachable state everything at any depth below a revoked CA is revoked |
| `CaRuns.EveryRunKeepsRevocations` | app/services/crl_service.py:37-64 | no later step undoes or alters a revocation, moves a CA or reassigns a certificate |
| `CaEffects.RevokingACertificate` | app/services/crl_service.py:37-64 | a live certificate is revoked with the date and reason given and nothing else changes; an unknown or revoked one is left alone |
| `CaEffects.RenewingACertificate` | app/services/cert_service.py:371-471 | a renewal is a live certificate of the same CA, issued exactly when the CA may sign and a revoked one gets a new key; the old one is revoked with it exactly if asked for |
| `CaEffects.RevokedIsPublished` | app/services/crl_service.py:37-64 | after either revocation, in every run, the next CRL lists the serial and OCSP answers REVOKED |
| `CaEffects.RevokingACa` | app/services/crl_service.py:99-141 | every live CA and certificate at or below it gets the date and reason; what was revoked keeps its own, the rest is left alone |
| `CaEffects.BudgetIsTheLargestThatFits` | app/services/ca_service.py:184-190 | a path length that fits under the parent is granted as asked, otherwise the largest that fits |
| `CaRuns.SkippingNeedsClosure` | app/services/crl_service.py:129-134 | without closure the cascade would skip a live CA |
| `CaRuns.EveryRunRespectsPathLength` | app/services/ca_service.py:184-190 | on a line of generated CAs below a CA with path length n there are at most n |
| `CaRuns.ImportIgnoresPathLength` | app/services/ca_service.py:584-672 | concrete import of a child below a CA with path length 0 |
| `CaRuns.StepFitsIffNoOverstep` | app/services/ca_service.py:584-672 | every CA still fits under its parent's path length after a step if and only if the step is not an accepted import that oversteps it |
| `CaRuns.EveryRunFitsIffNoImportOversteps` | app/services/ca_service.py:584-672 | in every run all CAs, imported or not, fit under their parents if and only if no import overstepped |
| `CaRuns.FittingLines` | app/services/ca_service.py:184-190 | then on any line below a CA with path length n, imports included, there are at most n |
| `CaChains.IsBelow` | app/services/ca_service.py:426-431 | the unguarded ancestor walk ends and tells whether the issuer lies at or below the CA |
| `CaChains.CrossSignCa` | app/services/ca_service.py:414-450 | goes through exactly when all its guards and the name constraints pass; certifies the largest path length that fits under the issuer and is no more than the CA's own |
| `CaChains.PathUpIsUnder` | app/services/ca_service.py:272-294 | a chain lists exactly the CA and those above it |
| `CaChains.PathUpListsOnce` | app/services/ca_service.py:272-294 | it lists none of them twice, each older than the one before |
| `CaChains.ChainVia` | app/services/ca_service.py:272-294 | the exported chain is the whole route; the seen-set never cuts it short |
| `CaChains.RouteShape` | app/services/ca_service.py:272-294 | the route is the path up to the routed CA, the alternate, then the path from where it continues |
| `CaChains.EveryRunRoutesWithoutLoops` | app/services/ca_service.py:272-294 | every cross-certificate made here stays loop-free in every later state |
| `Crls.CrlAgreesWithOcsp` | app/services/crl_service.py:144-222 | with unique serials a fresh CRL lists a serial exactly when OCSP answers REVOKED |
| `Crls.StatusIsThatOfTheCarrier` | app/services/ocsp_service.py:303-313 | with unique serials a status is unknown exactly if no certificate of the CA and no CA below it carries the serial, good exactly if the one that does is not revoked, revoked exactly if it is |
| `Crls.RunKeepsPublished` | app/services/crl_service.py:144-222 | serials stay unique and every listed certificate is revoked, over every run |
| `Crls.EveryFreshCrlAgrees` | app/services/crl_service.py:144-222 | in every reachable state a CRL just generated agrees with OCSP, and its number is one higher |
| `Crls.ListedForEver` | app/services/crl_service.py:144-222 | a listed certificate stays listed and REVOKED in every later state |
| `Crls.SubCaStaysListedUnlessPromoted` | app/services/ca_service.py:353-372 | a revoked sub-CA's serial stays listed over a step if and only if the step does not approve a re-issue pending for it |
| `CrlGaps.PromotionDropsAListedSerial` | app/services/ca_service.py:482-493 | concrete run in which a re-issue pending for a sub-CA is approved after its revocation: the listed serial is off the next CRL and unknown to OCSP |
| `CrlGaps.AgreeIffNotMasked` | app/services/ocsp_service.py:303-309 | with serials unique within each table, CRL and OCSP agree on a serial if and only if no live certificate and revoked sub-CA of the CA share it |
| `CrlGaps.SharedSerialDisagrees` | app/services/ocsp_service.py:303-309 | concrete run, with an imported sub-CA, in which they share one and the two services differ |
| `CrlGaps.OnlyTheCurrentIsListed` | app/services/crl_service.py:191-200 | of all certificates for a CA's key an issuer reports exactly the current one as revoked, and only as parent of a revoked CA; previous and cross-signed ones are on no CRL and unknown to OCSP |
| `CrlGaps.EveryFreshCrlListsTheCurrent` | app/services/crl_service.py:191-200 | that holds of every CRL just generated, in every run |
| `Ocsp.OcspService.CachedResponse` | app/services/ocsp_service.py:52-64 | a hit is the stored response within its time and says what its key says |
| `Ocsp.OcspService.ResponderKey` | app/services/ocsp_service.py:240-254 | cached or not, the key is the one in the encrypted blob |
| `Ocsp.OcspService.CaKey` | app/services/keybackend/software.py:48-65 | cached or not, the key is the one in the encrypted blob |
| `Ocsp.OcspService.DelegatedResponder` | app/services/ocsp_service.py:257-276 | signs with the usable responder, rotates when due, falls back to the CA key, and a rotation empties the response cache |
| `Ocsp.OcspService.Respond` | app/services/ocsp_service.py:286-377 | unauthorized exactly where the CA cannot sign or nothing carries the serial; otherwise REVOKED or GOOD as the carrier is revoked or not, signed by whoever signs now |
| `Ocsp.WhoSigns` | app/services/ocsp_service.py:178-276 | a responder valid for the renewal period signs; any other is replaced if the CA may certify, and the CA key signs where it cannot or delegation is off |
| `Ocsp.Subject` | app/services/ocsp_service.py:303-313 | nothing found exactly if nothing carries the serial, and otherwise whether the carrier is revoked |
| `Ocsp.Serve` | app/services/ocsp_service.py:286-377 | over any run of requests, revocations and rotations, here or in another process, whatever the caches hold: a request is refused exactly when the CA cannot sign or knows no such serial, and otherwise answered with the stored status of that moment by the signer of that moment |
| `BundleOrder.OrderChain` | app/services/ca_service.py:675-712 | succeeds exactly on bundles that form one chain, with the distinct certificates leaf first, each verified as issued by the next |
| `BundleOrder.ChainIsUnique` | app/services/ca_service.py:675-712 | a bundle has at most one such order |
| `BundleOrder.OrderTwice` | app/services/ca_service.py:675-712 | two listings of the same certificates are both refused or give the same chain |
| `BundleOrder.LeafOfChain` | app/services/ca_service.py:688-691 | the first of a chain is the only certificate that issued none of the others |
| `BundleOrder.Leaves` | app/services/ca_service.py:688-689 | the leaf candidates are exactly the certificates whose subject issued no other |
| `BundleOrder.Deduplicate` | app/services/ca_service.py:682-685 | one certificate per serial and subject, the last given |
| `BundleOrder.DistinctIsAll` | app/services/ca_service.py:682-685 | when serial and subject identify certificates, none is lost |
| `CsrClaim.CsrRow.SignAlone` | app/services/cert_service.py:105-114 | undisturbed, a failed signing leaves the row as it was and a successful one issues once |
| `CsrClaim.EveryRunClaimsOnce` | app/services/cert_service.py:38-74 | with any number of workers at most one claim is outstanding, a claimed CSR is never pending, at most one certificate is ever issued |
| `CsrClaim.SigningHasASigner` | app/services/cert_service.py:58-74 | without a crash, a CSR in `signing` has a worker that will sign or release it |
| `CsrClaim.UndisturbedOutcomes` | app/services/cert_service.py:105-114 | undisturbed, a pending CSR is signed once, or pending again after a failed signing, or rejected; any other is left alone |
| `CsrClaim.LateClaimIsLost` | app/services/cert_service.py:38-55 | a claim on a CSR that is no longer pending changes nothing |
| `CsrClaim.RejectedWithACertificate` | app/routes/csr.py:360-371 | a CSR ends up rejected with a live certificate if and only if a rejection was written while it was approved |
| `CsrClaim.RejectionCanRaceIssuance` | app/routes/csr.py:360-371 | concrete interleaving in which that happens |
| `CsrClaim.RejectionStands` | app/routes/csr.py:363-371 | a rejection is final in every continuation if and only if no worker holds the claim |
| `Schedulers.Scheduler.Tick` | app/services/scheduler_service.py:359-409 | a job's row changes exactly when the tick holds the lease or is forced, the job is due and succeeds |
| `Schedulers.EveryRunHasOneHolder` | app/services/scheduler_service.py:127-144 | no two holders have unexpired grants at one time, however ticks interleave |
| `Schedulers.EveryRunGrantsTheFreeLease` | app/services/scheduler_service.py:127-144 | in every run a worker that asks gets the lease exactly when no other one has an unexpired grant; the holder renews its own |
| `Schedulers.EveryRunSpacesJobs` | app/services/scheduler_service.py:355-409 | two successful runs of an interval job are at least the interval apart, across hand-overs, crashes and failures, when no job outlives its grant |
| `Schedulers.DueIffFar` | app/services/scheduler_service.py:355-356 | in a spaced record a job is due exactly when every run of it is at least the interval ago |
| `Schedulers.RunsAreSpacedIffUndisturbed` | app/services/scheduler_service.py:355-409 | in every run, all successful runs of interval jobs are spaced if and only if, between the start of each and its recorded success, no run of the job was recorded from a tick newer than an interval before |
| `Schedulers.SlowJobRunsTwice` | app/services/scheduler_service.py:359-409 | concrete run in which a job outlives its lease and is run twice within minutes |
| `ExpiryEvents.ExpiryJob.DueRows` | app/services/scheduler_service.py:210-234 | lists exactly the due rows of a table, each once, by expiry |
| `ExpiryEvents.ExpiryJob.Sweep` | app/services/scheduler_service.py:248-259 | the due rows are reported and marked one by one in that order, a failing one is left untouched |
| `ExpiryEvents.ExpiryJob.Pass` | app/services/scheduler_service.py:237-260 | one sweep of the certificates, then one of the CAs as that leaves them |
| `ExpiryRuns.NotifiesOnceIffUndisturbed` | app/services/scheduler_service.py:210-260 | for any number of workers, any interleaving and any clocks: each validity period gets each event at most once and never expiring after expired if and only if, between the select of a row and its report, nobody reported its period, or only as expiring where it is now expired |
| `ExpiryRuns.SerialRunsNotifyOnce` | app/services/scheduler_service.py:210-260 | so it is when passes follow one another |
| `ExpiryRuns.OverlapSendsTwice` | app/services/scheduler_service.py:248-259 | concrete run of two overlapping passes in which one period gets the same event twice |
| `ExpiryRuns.TimestampTellsStages` | app/services/scheduler_service.py:217-219 | in an undisturbed run the one timestamp tells exactly which events were sent |
| `ExpiryRuns.DueIffNotYetSent` | app/services/scheduler_service.py:210-234 | a row is due exactly if it is neither revoked nor superseded and has expired without being reported so, or expires within the warning days without any report |
| `ExpiryRuns.EveryRunSelectsExactly` | app/services/scheduler_service.py:210-234 | in every undisturbed run a worker selects exactly those rows |
| `ExpiryRuns.PassReports` | app/services/scheduler_service.py:237-260 | an undisturbed pass sends exactly one event, of the right stage, for each due row that does not fail, and none for others |
| `ExpiryRuns.PassLeavesNothingDue` | app/services/scheduler_service.py:210-260 | after a failure-free pass every live expired row was reported expired and every one in the window reported |
| `NameConstraints.WildcardsStandForTheirInstances` | app/services/name_constraints.py:166-175 | a constraint treats every wildcard like all its one-label instances if and only if it does not start with two dots |
| `NameConstraints.DoubleDotsUnfaithful` | app/services/name_constraints.py:166-175 | a wildcard such a constraint admits and an instance it refuses |
| `NameConstraints.EnteredConstraintsAreFaithful` | app/services/name_constraints.py:39-77 | a constraint that passed parsing never has that form |
| `NameConstraints.StoredSplitsBack` | app/services/name_constraints.py:80-105 | a stored constraint reads back as the kind and value that were parsed |
| `NameMeaning.DnsConstraintCovers` | app/services/name_constraints.py:166-175 | a plain name is inside a domain if it is that domain or below it, and inside a domain with a leading dot if it is below |
| `NameMeaning.EmailConstraintCovers` | app/services/name_constraints.py:187-195 | a mailbox constraint covers that mailbox, a host constraint that host and none below it, one with a leading dot the hosts below |
| `NameMeaning.UriConstraintCovers` | app/services/name_constraints.py:198-205 | a URI counts by its host, in the same way; without a host it is inside nothing |
| `NameMeaning.DomainsAreAccepted` | app/services/name_constraints.py:39-60 | a domain entered as a DNS constraint is accepted in its normal form |
| `NameEnforcement.ParseEntries` | app/services/name_constraints.py:80-91 | the stored forms of the lines, each once, or the problem of the first bad line |
| `NameEnforcement.CheckNames` | app/services/name_constraints.py:230-245 | accepts exactly when no name is excluded and each lies in a permitted subtree of its kind where there is one; otherwise names the first refused |
| `NameEnforcement.Enforce` | app/services/name_constraints.py:248-259 | accepts exactly when every name passes at every CA up the chain, even where parents run in a circle |
| `NameEnforcement.ChildNarrowsParent` | app/services/name_constraints.py:248-259 | a CA accepts exactly what its own rules and its parent accept |
| `Passphrases.SecretStore.Check` | app/services/passphrase_service.py:53-67 | reports per column the number of ciphertexts and whether the first opens |
| `Passphrases.CountIs` | app/services/passphrase_service.py:49-50 | what is counted are the rows that are neither NULL nor empty |
| `Passphrases.SecretStore.RewrapColumn` | app/services/passphrase_service.py:105-114 | re-wraps one column in place, or reports a failure exactly when some row cannot be re-wrapped |
| `Passphrases.SecretStore.Rotate` | app/services/passphrase_service.py:84-124 | all registered columns or nothing, with exact counts |
| `Passphrases.DoneIsMoved` | app/services/passphrase_service.py:84-124 | after success every ciphertext opens under the new passphrase to its old payload; empty and NULL cells are untouched |
| `Passphrases.RotatesIffAllOpen` | app/services/passphrase_service.py:84-124 | with a sound cipher a rotation goes through if and only if the current passphrase opens every ciphertext |
| `Passphrases.RotatesBack` | app/services/passphrase_service.py:84-124 | a rotated store can be rotated back and then holds every payload it held |
| `DualControl.EveryRunSeparatesIssuers` | app/routes/csr.py:239-246 | while the mode is active and the bootstrap account idle, no new certificate is issued or renewed by its requester, and none directly |
| `DualControlMode.FourEyesRefuseExactly` | app/services/dual_control_service.py:36-87 | a request is refused for four eyes exactly while the switch is on, LDAP is on or another account is active, the bootstrap account does not ask, and it approves what its own or its maker's account set up, signs or renews its own request, or issues directly |
| `DualControlMode.TwoAccountsSuffice` | app/services/dual_control_service.py:36-54 | with the switch on and another active account nobody approves the own CA, signs the own CSR or issues directly |
| `DualControlMode.AloneNothingIsRefused` | app/services/dual_control_service.py:36-54 | with the switch off, or nobody but the bootstrap account able to log in, nothing is refused |
| `DualControlMode.OthersGoThrough` | app/services/cert_service.py:77-83 | what four eyes do not refuse goes through exactly when its objects are there, pending where they must be, and the CA can sign |
| `DualControlMode.GeneratedCaWaits` | app/routes/ca.py:150-152 | a generated CA waits exactly while the mode is on |
| `DualControlMode.ImportedCaWaits` | app/services/ca_service.py:752-768 | an imported one exactly if it can sign and the mode was on when it was staged |
| `DualControlMode.OthersWait` | app/routes/ca.py:718-723 | a re-issue, a cross-certificate or a new account waits exactly if the mode is on and the bootstrap account did not make it |
| `DualControl.SignersAreApprovedIffStamped` | app/services/ca_service.py:752-768 | whatever the CAs created or imported in such a run sign beyond their own certificates, they sign after somebody else approved them, whose account the creator had neither opened nor reset within the cooldown, if and only if no imported key is used before its second commit |
| `DualControl.EveryRunApprovesSigners` | app/routes/ca.py:443-483 | the same for each single signature of a run in which no key is used before its import is stamped |
| `DualControl.ImportedKeySignsEarly` | app/services/ca_service.py:798-805 | run, from any state in the mode, in which an imported CA signs a CRL between the two commits without approval |
| `DualControl.ApprovalOnRecord` | app/routes/ca.py:443-483 | a stamped CA created or imported in such a run that can sign has such an approval in the run |
| `DualControl.EveryRunApprovesAlternates` | app/routes/ca.py:855-887 | a re-issued or cross-signed certificate made in such a run waits for, or had, somebody else's approval |
| `DualControl.ApprovalIsIndependent` | app/services/dual_control_service.py:61-87 | an approval that passes the rule is by another account, and one the creator neither opened nor reset within the cooldown |

## Left out

- X.509, DER, JWS and PKCS#11 encoding, signatures and key generation are library calls; certificates are records and "issued by" is an arbitrary relation.
- HTTP, DNS lookups, LDAP, webhooks, metrics, templates, CLI text, schema migration and sessions are plumbing around the modelled logic.
- The JSON form of an audit row: the digest is taken over the row itself, so the injectivity of `canonical` is not modelled.
- The archive file of a prune and the export formats: only the table is modelled.
- ACME account contacts, and revocation through ACME: easy members beside the order machine.
- Interleavings in the middle of `finalize`, which commits once in between: one request is one step.
- Recovery of a CSR left in `signing` by a crash: the code offers none; crashes are steps and safety holds across them.
- Imported alternate certificates in the no-loop property: their import has no descendant check and relies on the seen-set.
- Forced scheduler ticks in the runs: `--force` skips lease and intervals by design; `Schedulers.Scheduler.Tick` covers one.
- IP arithmetic and URL splitting in name constraints are parameters; case folding is that of ASCII.
- SAN parsing, profiles and certificate policies at issuance are not part of this model.
- LDAP role synchronisation and the break-glass commands in the four-eyes runs are deliberate bypasses; imported alternates are attached without approval, as in the code.
- Approval of new user accounts: activation is an arbitrary step.
- A seal pass is one step: it reads the head and the pending rows and commits the links in one transaction; two passes at once, which the source argues cannot disagree, are not interleaved.
- A worker reports a row at the expiry stored at that moment; a value its session still holds from the select is not modelled.
- In the hierarchy runs of `CaRuns` an import is one step; nothing proved there depends on the approval status between its two commits, which `DualControl` models.
