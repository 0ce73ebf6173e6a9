# cabin, modelled and proved in Dafny

cabin is an internal certificate authority. This project models the parts of it
whose correctness depends on whole runs rather than on single functions, and proves
what those parts promise. Cryptography is abstract: a key is a number, a signature is
the key that made it, a certificate is a record. The database is state, and every
committed statement is one atomic step. Operations that change rows are given twice:
as functions on table values, which the theorems are about, and as methods of a class
that updates the tables in place and is proved to compute those functions.

| files | what they model |
|---|---|
| `AcmeModel`, `AcmeStore` | the ACME tables and the transactions on them, as functions and in place |
| `AcmeProtocol`, `AcmeInvariant`, `AcmeEffects`, `AcmeSafety`, `AcmeStatus` | finalize requests, triggers and background validators interleaved commit by commit, with crashes at any point; the inductive invariant and what follows from it |
| `Nonces` | anti-replay nonces and the request check that spends them last |
| `Eab`, `EabRuns` | external account binding: accounts, keys, whole new-account requests, and the same requests racing statement by statement |
| `Csr` | agreement of a finalization request's names with its order's names |
| `Hierarchy`, `HierarchyStore`, `Chains`, `HierarchyRuns` | create, import, cross-sign, retire and renew on one row table; chain building; leaves; path lengths; validity when signing |
| `Text`, `NameConstraints`, `San` | host names and labels, name constraints (parser, extension, reader, check), SAN normalisation, the issue form's preview |
| `Crl`, `CrlConcurrent` | revocation and CRL publication, one call at a time and under row locks, insert conflicts and rollbacks |
| `Tls`, `TlsRuns` | cabin's own TLS certificate: one decision, and runs of ticks with crashes between the two files |
| `Like`, `Calendar`, `Inventory` | LIKE escaping, ISO timestamps over the Gregorian calendar, status filters, counts, pages, export |
| `Grants` | issuer resolution, grants, and the certificates stored over a run |

## What turned out not to hold

Each of these is stated exactly, for all inputs, with a concrete case where it fails.

- The order status a client reads can leave the diagram of section 7.1.6 of RFC 8555, in two ways.
  The readiness check and the claim are separate commits, so an order that expires between them is
  claimed all the same and goes from invalid to processing (`LateClaimHappens`). And a claim whose
  signing failed is released, so a client reads ready after processing (`EarlyReleaseHappens`). A step
  leaves the diagram if and only if it is a claim after the order's expiry or such a release before it
  (`OffDiagramExactly`). `valid` is final even so, and with check and claim as one step `invalid` is too.
- A published revocation can be rewritten. Two revocations of one certificate that both
  load the row before either commits leave the second one's date and reason
  (`OverlapMovesRevocation`). A step rewrites a revocation if and only if it commits a
  different mark onto a row that is already revoked (`RewritesExactlyWhenStale`); while
  revocations of one certificate do not overlap, none is ever rewritten
  (`RevokedOnceForAll`).
- A key and its account can name different issuers. A new-account request that reads back
  a racing account does not repeat the issuer check (`RaceDisagrees`). After any run they
  differ if and only if some request bound its key to such an account of another issuer
  (`DisagreesIffBoundAcross`). One request at a time, it cannot happen.
- A path may be hidden from clients that ask by anchor. Importing one cross certificate
  twice gives two paths with one anchor (`ImportingTwiceHidesAPath`, a run from the empty
  table); asking by anchor works if and only if no two served cross rows have the same
  signer (`AnchorsNamePathsIff`).
- The empty DNS constraint of an imported CA goes unnoticed, while in RFC 5280 every name
  satisfies it, so a CA that excludes every name by it still signs (`EmptyConstraintLetsThrough`).
  The check of a name is right if and only if no such constraint decides about it
  (`CheckOneIsRightExactly`). No operator input produces one (`OperatorConstraintsAreRfc5280`).
- A child can outlive its parent later on. It fits when it is signed, but a root renewed for one
  year can end before an intermediate signed for ten (`RenewalMayCutAParentShort`, a run from the
  empty table). "No child outlives its parent" is lost if and only if an accepted renewal of a root
  ends it before a certificate cabin signed under it (`ChildrenFitUntilCutShort`).
- A certificate can be stored for a principal whose grant has just been withdrawn, because
  resolving and storing are separate steps (`StoredWithoutAGrant`). The principal is still entitled
  when the certificate is stored if and only if the issuer was not taken away in between, or was
  given back, with both spelled out event by event (`GrantedWhenStored`).
- cabin's own TLS certificate settles if and only if its names read back as they were asked for
  and its issuer is not named like the certificate itself (`SettlesIffCanonical`); otherwise every
  call reissues it (`LongAddressNeverSettles`, `NamesakeNeverSettles`).
- CA-issued TLS material can be replaced by self-signed material after a crash between the two files
  and a retirement (`TornPairMayBeDowngraded`). A call replaces it if and only if its pair cannot be
  loaded, no issuer resolves, issuing is not refused and the process lives to write the file
  (`DowngradedExactly`, and `CaIssuedThroughoutExactly` over runs). A loadable pair survives a call if
  and only if it is neither torn by a crash during a reissue nor sealed under another master key without
  the issuer replacing it at once (`CaIssuedUnlessPairIsLost`).

Where the code and its documentation differ, the model follows the code: retiring a root also
retires the cross rows that root signed, although the docstring speaks of intermediates
(src/cabin/ca/service.py:823-837); importing a cross certificate compares the path length of the
submitted issuer certificate, not of the stored row it is then hung under
(src/cabin/ca/service.py:787-795); a revocation's date can move as described above, although it
is called idempotent (src/cabin/ca/crl.py:218-223).

## Model

| member | source | states |
|---|---|---|
| AcmeStore.Store.CreateOrder | src/cabin/acme/service.py:343-404 | one transaction adds the order, one authorization per identifier and each one's challenges, in order, and touches nothing else |
| AcmeStore.Store.BeginChallenge | src/cabin/acme/service.py:504-560 | a trigger is refused, a no-op or an attempt, by what it read; it reports success exactly when its conditional update won |
| AcmeStore.Store.RecordChallengeSuccess | src/cabin/acme/service.py:563-577 | challenge and authorization become valid together |
| AcmeStore.Store.RecordChallengeFailure | src/cabin/acme/service.py:580-605 | only a running challenge fails, and its authorization stays as it was |
| AcmeStore.Store.AttemptValidation | src/cabin/acme/validation/__init__.py:97-126 | a validator writes its verdict only onto a challenge it found running |
| AcmeStore.Store.ClaimForIssuance | src/cabin/acme/service.py:611-643 | one request wins the claim, and only on an order with no certificate that is pending or ready |
| AcmeStore.Store.SignAndStore | src/cabin/acme/api_finalize.py:221-272 | signing stores one certificate with the order's names under its account's issuer, or stores nothing |
| AcmeStore.Store.ReleaseClaim | src/cabin/acme/service.py:646-656 | the order goes back to pending and nothing else changes |
| AcmeStore.Store.FinalizeAlone | src/cabin/acme/api_finalize.py:109-173 | an uninterrupted finalize issues exactly when the order reads ready, the request's names match and signing succeeds, and leaves the order valid with its certificate or as it was |
| AcmeInvariant.InvariantIsInductive | src/cabin/acme/api_finalize.py:128-173 | every enabled step of every request, validator, crash or clock tick keeps the protocol's invariant |
| AcmeInvariant.RunKeepsInvariant | src/cabin/acme/service.py:504-663 | the invariant holds in every state of every interleaving |
| AcmeSafety.OneCertificatePerOrder | src/cabin/acme/api_finalize.py:128-173 | at any two moments of any run with crashes, two certificates stored for one order are the same one |
| AcmeSafety.CertificateWrittenOnce | src/cabin/acme/service.py:611-663 | an order's certificate, once set, never changes, was issued for that order, and is set exactly while the stored status is valid |
| AcmeSafety.FinishedChallengesStay | src/cabin/acme/service.py:504-605 | valid and invalid challenges never change again, and none returns to pending |
| AcmeSafety.ChallengeWonOnce | src/cabin/acme/service.py:504-560 | each challenge is won at most once in a run, and no two validators ever work on it together |
| AcmeSafety.ValidWasProven | src/cabin/acme/validation/__init__.py:97-126 | a valid challenge was pending and then processing earlier in the run |
| AcmeSafety.ValidAuthorizationIsProven | src/cabin/acme/service.py:563-605 | in every reachable state an authorization is stored valid exactly when one of its challenges is |
| AcmeSafety.IssuedCertificatesAreEarned | src/cabin/acme/api_finalize.py:221-272 | every certificate stored over ACME names exactly its order's identifiers, comes from its account's issuer, and has for each name a challenge of an admissible kind that went pending, processing, valid, although check and claim are separate commits |
| AcmeSafety.StrandedForever | src/cabin/acme/api_finalize.py:163-173 | an order whose request died between claim and attach stays processing for good and is never issued for again |
| AcmeSafety.OnlyCrashesStrand | src/cabin/acme/api_finalize.py:273-283 | without a crash every processing order has its request and every processing challenge its validator |
| AcmeStatus.PendingReads | src/cabin/acme/service.py:418-466 | what a client reads of a stored-pending order is decided by its expiry and by whether all its authorizations are valid, and nothing else |
| AcmeStatus.OffDiagramExactly | src/cabin/acme/service.py:418-452 | a step moves what a client reads along the diagram of section 7.1.6 of RFC 8555 if and only if it is neither a claim after the order expired nor the release of a claim before it did |
| AcmeStatus.FinalStatusesAreFinal | src/cabin/acme/service.py:611-663 | with check and claim taken as one step, valid and invalid are final, and every move is an edge of the diagram or the move from processing to ready of a released claim |
| AcmeStatus.ValidIsFinal | src/cabin/acme/service.py:659-663 | valid is final in the protocol as it is |
| AcmeStatus.EarlyReleaseHappens | src/cabin/acme/api_finalize.py:273-283 | a reachable run in which a client sees an order go from processing back to ready |
| AcmeStatus.LateClaimHappens | src/cabin/acme/api_finalize.py:140-152 | a reachable run in which a client sees an order go from invalid to processing |
| Nonces.NonceTable.Issue | src/cabin/acme/nonces.py:46-60 | issuing sweeps the expired nonces, then adds the new one, which only a nonce that is still there can prevent |
| Nonces.NonceTable.ConsumeNonce | src/cabin/acme/nonces.py:75-87 | the one DELETE answers true exactly when a usable nonce was there, and then it is gone |
| Nonces.NonceTable.PurgeExpired | src/cabin/acme/nonces.py:90-93 | exactly the expired nonces go, and their number is reported |
| Nonces.Authenticate | src/cabin/acme/jws.py:381-437 | the checks in their order, with the table written by the last of them only |
| Nonces.OnlySignedRequestsSpend | src/cabin/acme/jws.py:396-430 | the table changes exactly when a request passes every earlier check, its own signature included, and quotes a usable nonce; a forged request leaves it alone |
| Nonces.SweepingIsInvisible | src/cabin/acme/nonces.py:46-93 | given an advancing clock, every request of every interleaving is answered as over a table that is never swept |
| Nonces.EachNonceAtMostOnce | src/cabin/acme/nonces.py:75-87 | in any interleaving a nonce authenticates no more requests than it was issued times |
| Eab.AccountStore.GetOrCreateAccount | src/cabin/acme/service.py:227-276 | the unique thumbprint decides: the account that has it, or a new one for the asked issuer |
| Eab.AccountStore.BindKey | src/cabin/acme/eab.py:209-231 | a key is bound only if it was free and unrevoked, the account exists and it carries no other key; otherwise nothing changes and the reason is told |
| Eab.AccountStore.SpendBinding | src/cabin/acme/api_account.py:139-173 | the three ways of losing: refused, refused with the new account removed, or the account kept because it is referenced |
| Eab.AccountStore.Register | src/cabin/acme/api_account.py:177-248 | a whole new-account request in the order of its checks |
| Eab.AccountStore.CreateKey | src/cabin/acme/eab.py:95-124 | a fresh, free key for the given issuer, and nothing else |
| Eab.AccountStore.RevokeKey | src/cabin/acme/eab.py:135-143 | revoking is idempotent and says whether anything changed |
| Eab.AccountStore.ChangeKey | src/cabin/acme/api_account.py:309-341 | a key change is refused for a key that has an account, and moves only the thumbprint |
| Eab.OneKeyPerAccount | src/cabin/acme/eab.py:52-82 | no account carries two keys |
| EabRuns.StepKeeps | src/cabin/acme/eab.py:209-231 | every statement of every interleaving keeps the indexes, every key's issuer and account, and every account's issuer |
| EabRuns.BoundForLife | src/cabin/acme/eab.py:153-231 | over any run a key, once bound, stays bound to the same account, and an account carries at most one key |
| EabRuns.DisagreesExactlyAfterReadBack | src/cabin/acme/service.py:270-275 | a step makes a bound key and its account name different issuers exactly when a request binds to an account it read back and that account has another issuer |
| EabRuns.DisagreesIffBoundAcross | src/cabin/acme/api_account.py:139-173 | after any run they differ if and only if some request of the run did that |
| EabRuns.RaceDisagrees | src/cabin/acme/api_account.py:201-229 | a run of two racing registrations after which they do differ |
| EabRuns.AloneIsOneRequest | src/cabin/acme/api_account.py:177-248 | a request that nothing interrupts does what the whole request does |
| EabRuns.AnswersStayInTheirDirectory | src/cabin/acme/api_account.py:201-229 | an uninterrupted request is only ever answered with the usable account of its own key at the directory's own issuer |
| EabRuns.EveryAccountIsEarned | src/cabin/acme/api_account.py:54-97 | with binding required and requests one at a time, every account is bound to a key minted for its own issuer, through revocations, deactivations and key changes |
| Csr.TokensAreNames | src/cabin/acme/csr.py:106-114 | two tokens are equal exactly when they are the same host name up to case or the same address |
| Csr.CollectTokens | src/cabin/acme/csr.py:126-147 | all tokens of the request, or a refusal if any name is of another form |
| Csr.PassesIffNamesAgree | src/cabin/acme/csr.py:160-195 | a request passes exactly when nothing is extra, nothing is missing, and its common name, if any, is one of the ordered names |
| HierarchyStore.CaService.AddRoot | src/cabin/ca/service.py:390-426 | one self-signed active root row is added, or nothing |
| HierarchyStore.CaService.AddIntermediateUnder | src/cabin/ca/service.py:542-639 | the refusals in their order, or one intermediate row under the root |
| HierarchyStore.CaService.AddImportedHierarchy | src/cabin/ca/service.py:483-539 | a root row without a key and its intermediate, or nothing |
| HierarchyStore.CaService.AddCross | src/cabin/ca/service.py:661-739 | the refusals in their order, or one active cross row |
| HierarchyStore.CaService.AddImportedCross | src/cabin/ca/service.py:742-820 | the one matching subject, an existing or a new signing root, and one cross row, or nothing |
| HierarchyStore.CaService.RetireCa | src/cabin/ca/service.py:840-866 | the row and, for a root, every row it signed are retired, unless no active issuer would be left |
| HierarchyStore.CaService.Renew | src/cabin/ca/service.py:869-924 | one row's certificate is replaced, or nothing changes |
| HierarchyStore.CaService.WalkUp | src/cabin/ca/service.py:227-238 | the loop ends and collects the row and its ancestors, nearest first |
| HierarchyStore.CaService.ListChains | src/cabin/ca/service.py:257-307 | the default and the alternates, built by the loops |
| Hierarchy.StepKeeps | src/cabin/ca/service.py:390-924 | every operation keeps the table in order (parents are roots with smaller ids, no cross row is a parent, every row is signed by its parent's name and key) and leaves each existing row the CA it was |
| Hierarchy.RenewKeeps | src/cabin/ca/x509.py:206-278 | a renewal keeps name, key, key identifier, basic constraints and name constraints, and stays signed by the parent |
| Hierarchy.CrossSignKeeps | src/cabin/ca/x509.py:317-380 | a cross certificate has its subject root's name, key, key identifier and constraints, under the signing root's name and key |
| Hierarchy.ImportCrossKeeps | src/cabin/ca/x509.py:458-562 | so does every imported cross certificate that is accepted |
| Chains.EveryPathIsGood | src/cabin/ca/service.py:257-307 | every path served is linked by name and key; exactly one, the plain walk, goes through no cross row; every other has a cross row and a signing root valid now |
| Chains.DefaultIsTheOldestCross | src/cabin/ca/service.py:275-283 | the default goes through the lowest-numbered served cross row, and is the plain walk exactly when there is none |
| Chains.AnchorsNamePathsIff | src/cabin/ca/service.py:155-162 | asking for each path by its anchor finds it if and only if no two served cross rows have the same signer |
| HierarchyRuns.RunKeeps | src/cabin/ca/leaf.py:702-741 | in every reachable state every leaf ever stored is signed under its issuer's present name and key, names its present key identifier, and lies inside the constraints it carries now |
| HierarchyRuns.LeavesStayLinked | src/cabin/ca/service.py:257-307 | from every leaf, every path served for its issuer at any later time is an unbroken line of names and signing keys |
| HierarchyRuns.ApplyAllKeeps | src/cabin/ca/x509.py:206-278 | over any sequence of operations a row stays the CA it is |
| HierarchyRuns.IntermediateCarriesItsConstraints | src/cabin/ca/x509.py:155-203 | a new intermediate carries exactly the constraints asked for, critically, and path length 0, after any renewals too |
| HierarchyRuns.CrossRuleIsRfc5280 | src/cabin/ca/x509.py:281-314 | for distinct names the path-length rule refuses nothing exactly when the accounting of section 6.1.4 of RFC 5280 accepts signing root, cross certificate, intermediate, leaf |
| HierarchyRuns.AlternatesStayAccepted | src/cabin/ca/service.py:708-739 | every alternate through a cross row cabin signed is accepted by that accounting in every reachable state |
| HierarchyRuns.AnchorsNamePaths | src/cabin/ca/service.py:716-728 | without imported cross rows, anchors name paths in every reachable state |
| HierarchyRuns.ImportingTwiceHidesAPath | src/cabin/ca/service.py:797-820 | a run from the empty table that imports one cross certificate twice, after which a path cannot be asked for |
| HierarchyRuns.AnIssuerRemains | src/cabin/ca/service.py:840-866 | once some issuer is active, no operation leaves none |
| HierarchyRuns.YearsUntilIsLargest | src/cabin/ca/service.py:927-943 | the year count is the largest one, at most the wanted one, that ends by the deadline |
| HierarchyRuns.ChildrenFitWhenSigned | src/cabin/ca/service.py:905-924 | whatever is signed under a parent ends no later than the parent does then, and no sooner than it has to |
| HierarchyRuns.ChildrenFitUntilCutShort | src/cabin/ca/service.py:869-924 | no operation makes a child outlive its parent except, exactly, an accepted renewal of a root for less than a certificate cabin signed under it still runs |
| HierarchyRuns.ChildrenFitOverRuns | src/cabin/ca/service.py:869-924 | over every run without such a renewal no child outlives its parent |
| HierarchyRuns.RenewalMayCutAParentShort | src/cabin/ca/service.py:895-901 | a run from the empty table in which a root renewed for one year ends nine years before its intermediate |
| Text.SuffixIsLabelTail | src/cabin/ca/leaf.py:511-516 | the suffix test with a dot in front is a comparison of whole labels, for all strings |
| NameConstraints.MaskingIsARange | src/cabin/ca/leaf.py:540-568 | an address is in a network exactly when it lies in its range and its family |
| NameConstraints.ParseLines | src/cabin/ca/leaf.py:413-431 | the entries of one side in order, or the first bad one, or too many |
| NameConstraints.ParsedConstraintsReadBack | src/cabin/ca/leaf.py:389-508 | for all operator input that parses, the certificate reads back exactly the parsed constraints |
| NameConstraints.CheckNameConstraints | src/cabin/ca/leaf.py:595-638 | the loop answers with the first refusal, or none |
| NameConstraints.HitsIsMembership | src/cabin/ca/leaf.py:511-568 | for every subtree and every name, the test for being inside it is that of RFC 5280, except, exactly, for the empty DNS constraint and names without a final dot |
| NameConstraints.CheckOneIsRightExactly | src/cabin/ca/leaf.py:519-592 | for every extension, the check of one name is what section 4.2.1.10 of RFC 5280 says if and only if no empty DNS constraint decides about it |
| NameConstraints.CheckIsRfc5280 | src/cabin/ca/leaf.py:595-638 | unless a name is so misjudged, the check passes exactly the requests whose every name RFC 5280 allows: excluded wins, a permitted side must contain the name, forms cabin cannot judge are refused |
| NameConstraints.OperatorConstraintsAreRfc5280 | src/cabin/ca/leaf.py:434-474 | for all operator input, the resulting CA's check passes exactly the requests whose every name RFC 5280 allows |
| NameConstraints.EmptyConstraintLetsThrough | src/cabin/ca/leaf.py:519-537 | an extension and a name the check lets through and RFC 5280 refuses |
| San.NormalizeTwice | src/cabin/ca/leaf.py:142-170 | normalising is idempotent |
| San.ResolveSans | src/cabin/ca/leaf.py:239-270 | the ladder's result is non-empty, without repetition, at most 100 names, and holds exactly the names of the winning rung; a common name that is an address becomes an IP entry |
| San.IssuePreview | src/cabin/web/certs_ui.py:647-682 | one mark for each name, then one verdict over the whole set |
| San.PreviewAgreesWithSigner | src/cabin/web/certs_ui.py:647-682 | for every accepted common name and every SAN text the preview names the list that would be signed and refuses exactly when issuing does, for the same reason |
| San.VerdictIsSomeMarkOrCnRule | src/cabin/ca/leaf.py:620-638 | the whole-set verdict refuses exactly when some single name is refused or the common-name rule refuses |
| Crl.ListedIffRevoked | src/cabin/ca/crl.py:89-106 | an entry is listed exactly when a certificate of that issuer is revoked with it |
| Crl.OtherIssuersUnaffected | src/cabin/ca/crl.py:89-93 | marking a certificate leaves what every other issuer must list |
| Crl.RevokingPublishes | src/cabin/ca/crl.py:193-249 | mark and CRL land together or not at all; no other mark and no other issuer's row moves; the number rises |
| Crl.RevokingKeepsConsistency | src/cabin/ca/crl.py:193-249 | after every call, as before it, each CRL lists exactly what is revoked, under its own number and dates |
| Crl.RevokingTwiceIsRevokingOnce | src/cabin/ca/crl.py:218-235 | retrying later, with any reason, succeeds and changes nothing |
| Crl.CrlStore.RegenerateCrl | src/cabin/ca/crl.py:109-158 | the issuer's row is rebuilt under the next number, or nothing changes |
| Crl.CrlStore.CurrentCrl | src/cabin/ca/crl.py:167-190 | the CRL handed out lists exactly the revoked certificates and outlives every cache it may sit in; a refresh touches one row |
| Crl.CrlStore.RevokeCertificate | src/cabin/ca/crl.py:193-249 | the whole call, with the mark taken off again when publishing fails |
| CrlConcurrent.InvariantIsInductive | src/cabin/ca/crl.py:109-158 | every step under locks, insert conflicts and rollbacks keeps every stored CRL equal to the committed revocations |
| CrlConcurrent.EveryRevocationIsPublished | src/cabin/ca/crl.py:124-133 | in every committed state of every interleaving a CRL lists exactly its issuer's committed revocations, and an issuer with a revoked certificate has a CRL |
| CrlConcurrent.NumberCountsPublications | src/cabin/ca/crl.py:116-118 | an issuer's CRL number is the number of its committed publications |
| CrlConcurrent.OtherRowsUntouched | src/cabin/ca/crl.py:109-158 | a CRL row changes only by a publication for its issuer, and then its number rises by one |
| CrlConcurrent.RewritesExactlyWhenStale | src/cabin/ca/crl.py:234-238 | exactly which commits move a revocation that was already published |
| CrlConcurrent.OverlapMovesRevocation | src/cabin/ca/crl.py:227-238 | a run of two overlapping revocations after which date and reason have moved |
| CrlConcurrent.RevokedOnceForAll | src/cabin/ca/crl.py:218-235 | while revocations of one certificate do not overlap, its date and reason are the same at any two moments after it was revoked |
| CrlConcurrent.AloneIsSequential | src/cabin/ca/crl.py:193-249 | a revocation with nobody else running is the sequential operation |
| Tls.TlsManager.EnsureCurrentMaterial | src/cabin/tls.py:419-534 | one call of the decision machine, in place |
| Tls.TlsManager.ResolveTlsIssuer | src/cabin/tls.py:201-226 | the bound issuer if usable, or the only active one, which is then written down |
| Tls.TlsManager.LoadCurrent | src/cabin/tls.py:315-362 | the material on disk if both halves can be read and belong together |
| TlsRuns.SettlesIffCanonical | src/cabin/tls.py:463-496 | a call right after a success changes nothing if and only if the names are canonical and the issuer is named apart |
| TlsRuns.LongAddressNeverSettles | src/cabin/tls.py:458-460 | with an IPv6 host written out in full, the second call reissues |
| TlsRuns.NamesakeNeverSettles | src/cabin/tls.py:348 | with an issuer named like the certificate, the second call reissues |
| TlsRuns.ReissuedExactlyWhenWorthIt | src/cabin/tls.py:478-496 | the next reissue comes exactly when 60 days have passed, the issuer has a day more to give, and it has not expired |
| TlsRuns.ReissuesAreBounded | src/cabin/tls.py:478-532 | with crashes anywhere, the rows added are at most the days from the first expiry to the issuer's plus two for each crash |
| TlsRuns.EachReissueGainsADay | src/cabin/tls.py:481-496 | without crashes each new certificate outlives the one before by at least a day |
| TlsRuns.TornWriteIsNoticed | src/cabin/tls.py:364-369 | a crash between the two files leaves no loadable material, never a certificate with another one's key |
| TlsRuns.LostMaterialIsReplaced | src/cabin/tls.py:315-362 | a process without material issues at once whenever it can, and the pair is whole again |
| TlsRuns.SelfSignedExactly | src/cabin/tls.py:435-496 | a self-signed certificate is written exactly when issuing is not refused, no issuer resolves, and there is no pair or a self-signed one with wrong names or little time left |
| TlsRuns.CaIssuedUnlessPairIsLost | src/cabin/tls.py:419-534 | a CA-issued pair survives a call, wherever the process dies in it, if and only if no crash tears a reissue and no other master key meets a call that cannot replace it |
| TlsRuns.DowngradedExactly | src/cabin/tls.py:435-445 | a CA-issued certificate is replaced by a self-signed one exactly when its pair cannot be loaded, no issuer resolves, issuing is not refused and the file gets written |
| TlsRuns.CaIssuedThroughoutExactly | src/cabin/tls.py:419-534 | over any run with crashes and changing master keys the file stays CA-issued if and only if no call meets that condition |
| TlsRuns.NeverDowngraded | src/cabin/tls.py:435-452 | through any changes of issuers, names, clock and processes that lose no pair, CA-issued material stays CA-issued and the binding stays |
| TlsRuns.TornPairMayBeDowngraded | src/cabin/tls.py:364-369 | a run in which a torn renewal and a retirement leave a self-signed certificate |
| TlsRuns.OnlyTheBoundIssuerSigns | src/cabin/tls.py:201-226 | every certificate cabin stores for itself is signed by the bound issuer while it is an active intermediate |
| Like.ReplacementsEscapeEach | src/cabin/ca/certs.py:411 | the three replacements, one over the other, escape each special character once |
| Like.SearchIsLiteral | src/cabin/audit.py:351-365 | for every term and text the LIKE pattern matches exactly the texts that contain the term literally |
| Calendar.LaterIsLater | src/cabin/ca/certs.py:392-401 | the Gregorian date and time advance with the second count |
| Calendar.TextOrderIsTimeOrder | src/cabin/ca/certs.py:392-401 | comparing the stored texts is comparing the times |
| Inventory.BuildFilters | src/cabin/ca/certs.py:404-435 | the conditions appended one by one, with the early return |
| Inventory.FilterSelectsLabel | src/cabin/ca/certs.py:367-435 | each status filter selects exactly the rows labelled with that status, although one cuts to the second and the other does not |
| Inventory.OtherStatusSelectsAll | src/cabin/ca/certs.py:421-435 | any other status selects everything the search finds |
| Inventory.SearchFindsLiterally | src/cabin/ca/certs.py:406-419 | the search finds exactly the rows in which the stripped, cut and lower-cased term occurs |
| Inventory.CountsPartition | src/cabin/ca/certs.py:499-519 | the four counts add up to the inventory |
| Inventory.AllPagesAreTheExport | src/cabin/ca/certs.py:438-496 | all pages together are the export if and only if the selection fits into the pages that can be asked for |
| Inventory.ExportIsTheSelection | src/cabin/ca/certs.py:476-496 | the export holds each selected row as often as the inventory does, and nothing else |
| Grants.UnrestrictedResolvesAlike | src/cabin/issuer_grants.py:215-257 | for an unrestricted principal resolving with grants is resolving without, errors included |
| Grants.ResolvesExactly | src/cabin/issuer_grants.py:183-257 | an issuer is answered exactly when it is active and granted and was named or is the only one |
| Grants.GrantStore.ReplaceIssuers | src/cabin/issuer_grants.py:313-346 | the grants become exactly the posted set, what changed is reported, other identities keep theirs, and a bad id changes nothing |
| Grants.OnlyIntermediatesAreGranted | src/cabin/issuer_grants.py:331-335 | over every run a grant names an intermediate |
| Grants.EveryCertificateWasGranted | src/cabin/ca/certs.py:236-258 | every certificate of every run came from an issuer that was active and granted to its principal when the request resolved it |
| Grants.EntitlementMovesExactly | src/cabin/issuer_grants.py:183-257 | exactly which events take an active, granted issuer away from a principal (an accepted retirement that includes it, an accepted set without it) and which give it |
| Grants.EntitlementLastsExactly | src/cabin/issuer_grants.py:313-346 | between any two moments of a run an entitlement lasts if and only if it was not taken, or given back after it was last taken |
| Grants.GrantedWhenStored | src/cabin/ca/certs.py:236-258 | of every stored certificate of every run, under any assignments and retirements: entitled when resolved, and entitled when stored if and only if the issuer was not taken in between for good |
| Grants.StoredWithoutAGrant | src/cabin/ca/certs.py:236-258 | a run in which the grant is withdrawn between resolving and storing |

## Left out

- HTTP routing, forms, cookies, templates, OpenAPI, the MCP server, REST views and audit-log writing: they translate or record.
- Cryptography, DER and PEM: keys, names and signatures are abstract; unsealing a CA key always succeeds, except where a call says that a key cannot be used.
- The network validators: a validation succeeds or fails freely.
- Parsing of ACME identifiers and contacts (`parse_identifiers`, `parse_contacts`): orders are taken with identifiers that were parsed, and a registration is told whether its contacts are in order.
- Python's `ipaddress`: readers from text to addresses and networks are parameters, and networks are a base and a prefix.
- Lower-casing and case-insensitive comparison of characters outside ASCII, and database collations other than by character code.
- Splitting text into lines: the parsers take the lines.
- The names cabin wants for its own certificate (`wanted_names`) come from settings and the operating system; they are an input of each call. Replacing one file is atomic.
- Random ids, nonces and keys: they are fresh values from outside or from a counter.
- SQLAlchemy's identity map: a locked read reads the committed row.
- A commit that fails without the process knowing whether it took effect.
- The ORDER BY of the inventory: its rows are taken newest first.
- Deletion of accounts in the issuance protocol: there accounts stay; the binding model deletes them.
- Key usage bits other than certificate signing, profiles, CRL and AIA URLs: they do not take part in the properties.
- `cryptography` refuses a certificate that ends before it starts; that is the error `BadValidity` here.
- A nonce drawn twice while the first is still stored: `Nonces.NonceTable.Issue` reports it, and the runs have no such event.
- Chains.ParentWalk: requires that parents have smaller ids, which every reachable table satisfies.
- AcmeStore.Store.SignAndStore: whether the signer accepts the request (key, names, validity) is one input; SAN normalisation and the validity clamp are modelled in San and HierarchyRuns.
- TlsRuns.DowngradedExactly, TlsRuns.CaIssuedUnlessPairIsLost, TlsRuns.SelfSignedExactly and the results over runs built on them take issuers that are not named like the certificate; one that is makes a CA-issued certificate read back as self-signed (NamesakeNeverSettles).
- Inventory.FilterSelectsLabel: times are limited to years below 10000, as they are in Python.
