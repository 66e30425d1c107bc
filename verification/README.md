# NMesh node logic, modelled and proved in Dafny

This project models the in-memory state machines that decide what an NMesh node trusts, remembers,
forgets and believes about its peers, and proves what each of them keeps on every call and on every
run. `dafny verify dfyconfig.toml` checks all of it.

Objects whose methods change fields are classes with the same fields; each method is proved against a
function of the old state, and the promises are proved about those functions and about runs of them.

| module | what it models |
|---|---|
| `Certificates`, `Issuance` | certificates and revocations; which chains of certificates there are and which of them answers a question |
| `ChainSearch`, `ShortestChain`, `CertState`, `CertNews`, `CertCrowd`, `CertTrust`, `CertStore` | the breadth-first search and its invariant; why the shortest chain wins; the store's tables as a value; which revocations are kept; how long, and when one is news again; whom a store trusts over a run; the store itself, with its memo, evictions and revocation table |
| `Basics`, `Cycles`, `Eviction`, `Lookup` | numbers and slices; lists turned in a circle; "oldest first, except what is pinned", and looking up by key, shared by the ordered tables |
| `LogRing`, `LogQuery`, `LogFilters`, `LogBook` | what a reader of the compressed ring is owed; the block index against a plain scan; what a filter asks for; the ring itself |
| `NonceCache`, `Login`, `ProofRuns`, `LoginExchange`, `LoginRuns` | the replay cache; one endpoint of the three-message login; runs of verifications by one verifier; one undisturbed login; runs of many endpoints and a network that delivers anything that exists |
| `BootGuard`, `BootRuns` | the rollback as single file operations, and the confirmation that ends a trial; runs of both with a crash between any two operations |
| `AppCatalog`, `CatalogCrowd` | the shared catalogue and its per-author share; how long it remembers an app, and when an old release is new again |
| `LinkQuality`, `Bundle`, `Cadence` | probe accounting; bundle membership and its hysteresis; the agreed probe cadences |
| `Behaviour`, `Books` | when a rule may charge a subject and what that adds up to in the ledger; which history a full book forgets |
| `Base32`, `JoinTicket` | the text form; the ticket printer and its readers |
| `AppPackage` | cutting files into content-addressed chunks and putting them together again |

## What is assumed

- Cryptography is symbolic. An id made from a key is a constructor of that key, so hashing is injective;
  a signature carries the key that made it and the message it covers, so nobody signs for another key.
  Packages go further and take the hashes as arbitrary functions: their theorems name the collision.
- A dishonest node may sign anything with its own key; the network may deliver, repeat, drop and reorder
  anything that exists. Random nonces drawn by honest nodes are new each time.
- Clocks are arguments. Nothing assumes that they run forward unless a contract says so. One call reads
  its clock once.
- Seconds, shares, round trips and scores are exact reals; floating-point rounding is not modelled.
- JSON, zlib and the byte framing of certificates, revocations and assertions are invertible pairs and do
  not appear. A compressed block has a size that is any function of its rows.

## Where the code and its documentation differ

- `get_chain_to_root` says an external root is always preferred. The walk does not go on through the own
  id once that id holds a live self-signed certificate, so for another target the preference is exact only
  for routes that do not pass through it: `Issuance.OwnIdHidesExternalRoot` is the counterexample,
  `Issuance.OwnAnswerPrefersExternal` and `Issuance.PreferenceExactWithoutOwnAnchor` the two cases in
  which nothing is lost.
- A memoised "no chain" has no expiry. `CertStore.MemoRightExactly` says when a memo is right for every
  store: exactly when the clock has not been set back past the moment it was computed.
- `revoke` says that what it returns is new, "so an epidemic dies out", and that an older statement must
  not walk back a newer one. Both hold while the table holds the pair (`CertNews.KeptIsOldNews`), and the
  table is bounded. While trusted roots' entries fill it, a revocation by anybody else is news and gone
  again in the same call, every time (`CertNews.ForgottenAtOnce`, `CertNews.NewsAgainExactly`). Otherwise
  a pair is held until as many other pairs were filed after it as there are places that no trusted entry
  takes; from that number on, its record is news a second time, and its older statement is filed where the
  newer one was (`CertCrowd.NewsTwiceExactly`, `CertCrowd.WalksBackExactly`). One more issuer than places
  is enough for their records to go round for ever: `CertCrowd.CirculatesForEver`.
- `offer` makes the same promise for the catalogue of apps. An app is held until an author's share of other
  apps was gossiped on; from then on the same release, or an older one, can be new again:
  `CatalogCrowd.NewTwiceExactly`.
- The boot guard says that the next start finishes an interrupted rollback. That holds as long as starts
  are all that happens (`BootRuns.RollbackSurvivesCrashes`). But a node whose rollback was cut short by a
  failed move starts all the same, and the launcher confirms whatever tree has run for a while
  (scripts/nmesh_node.py:395-402): the trial is then over with part of the old tree in place and part of
  the failed release. No entry is lost, and none is ever moved back. `BootRuns.ConfirmMixesAfterAnyRun` says
  which disks a confirmation leaves like that, `BootRuns.ConfirmMixesExactly` after which first cut, and
  `BootRuns.MixedForGood` is the witness.
- Where the whole old tree is back, additions of the failed release can stay: `BootRuns.AdditionsCanStay`.
  And an entry listed as added although the old tree had it can be lost: `BootRuns.ClashLosesAnEntry`.
- The comment on the recharge says that one rule is never decisive because complaints fade as fast as a
  rule may charge. The watch always takes an hour (src/behaviour.py:83, src/node.py:294), but the ledger's
  half-life is an option between a minute and thirty days (src/config.py:210-216, src/node.py:250-252).
  With one above the recharge, a rule that keeps firing comes to cost its subject twice its weight and
  more: `Behaviour.NeverDecisiveExactly`.
- `since` reports how many lines were lost. It reports none for a ring that was emptied, nor for a reader
  that starts at nothing: `LogRing.Accounts` is the exact condition, and a ring never emptied meets it for
  every other reader (`LogRing.UnemptiedAccounts`).
- `query` documents a filter, not an assumption. It hides matches exactly when stored times decrease
  against the block index: `LogQuery.QueryIsPlainScan`.
- A node that logs in to itself accepts its own challenge as the answer, so the login's guarantee holds
  exactly between two different nodes: `LoginRuns.CorrespondenceExactly`.
- A frame of a login is read for the oldest login under way with that peer. An attempt whose frame was lost
  therefore keeps every later one from succeeding until it expires, which takes as long as a session lives:
  `LoginExchange.LoginSucceedsExactly`.
- A probe token used again while its first probe is in flight keeps the old place under the new time, and
  hides overdue probes behind it: `LinkQuality.ReusedTokenHides`.
- `encode` promises `TicketError` for anything unusable; an expiry beyond the four-byte minute field raises
  a packing error instead. The model calls it `ExpiryTooFar`.
- `loaded_bounds` keeps a declaration well formed exactly when the raised floor stays at or below the slow
  one, which holds for every clamped declaration but not for every well-formed one:
  `Cadence.LoadedStaysWellFormed`.

## Model

| member | source | states |
|---|---|---|
| `Certificates.SignatureIdentifies` | src/cert.py:76-100 | comparing signatures, as the store does, is comparing certificates |
| `Certificates.OutlivesMeansTime` | src/cert_store.py:27-32 | one certificate outlives another iff it is expired at no moment at which the other is not |
| `Certificates.RevocationRoundTrip` | src/revocation.py:78-140 | a built revocation parses back to what was said, an unknown reason read as unspecified; only a statement its issuer signed about somebody else is ever believed |
| `Issuance.AnswerKinds` | src/cert_store.py:385-390 | an answer is external iff there is an external route, self-anchored iff there is only an own one, nothing iff there is neither; it names each subject at most once and uses only live certificates (`Issuance.AnswerLinks`) |
| `Issuance.AnswerSurvives` | src/cert_store.py:61-69 | losing certificates outside an answer leaves it the right answer: why a memo may outlive evictions, revocations and time |
| `Issuance.OwnAnswerPrefersExternal` | src/cert_store.py:385-390 | for the own id: an answer exists iff any acceptable chain does, and it is external iff any acceptable external chain exists |
| `Issuance.OwnIdHidesExternalRoot` | src/cert_store.py:495-499 | a store and a target with an acceptable external chain for which every answer is self-anchored |
| `Issuance.PreferenceExactWithoutOwnAnchor` | src/cert_store.py:495-499 | without a live self-signed certificate of its own, a node finds an external chain for every target that has any |
| `ChainSearch.StartInv` | src/cert_store.py:466-478 | the first level of the queue establishes the search invariant |
| `ChainSearch.SkipKeepsInv` | src/cert_store.py:479-484 | popping a visited id keeps it |
| `ChainSearch.ExpandKeepsInv` | src/cert_store.py:500-507 | expanding an unvisited id keeps it: paths are walks without repetition, levels stay in order, the longest-lived sibling comes first, every issuer met is visited or waiting |
| `ChainSearch.HeadIsBest` | src/cert_store.py:479-507 | the walk at the head ends in the longest-lived certificate of its kind |
| `ChainSearch.AnchorIsNew` | src/cert_store.py:484-499 | a walk that reaches an anchor has not met it before: closing it repeats no subject |
| `ChainSearch.ClosedChainPresentable` | src/cert_store.py:484-499 | the chain a popped root closes is one worth presenting |
| `ShortestChain.ShortRouteHasNoAnchor` | src/cert_store.py:479-507 | no walk shorter than the one at the head reaches an anchor, however long the search has run |
| `ShortestChain.SelfSignedComesLast` | src/cert_store.py:466-484 | when a target's own self-signed certificate is popped, no other root signed for the target directly |
| `ShortestChain.ClosedChainShortest` | src/cert_store.py:479-499 | the chain a popped root closes is a shortest one of its kind, external or own (promised at Docs/Architecture/security.md:174-175) |
| `ChainSearch.Exhausted` | src/cert_store.py:507-508 | an empty queue means that no external route exists, and what is remembered is the answer |
| `CertState.FiledKeepsTrusted` | src/cert_store.py:113-160 | filing a revocation only moves entries forward in time, never evicts what a trusted root said, and bounds the rest |
| `CertState.AfterRevokeWf` | src/cert_store.py:113-147 | after absorbing a revocation no held certificate is revoked, whichever subject it belongs to |
| `CertState.TrimKeepsAnswer` | src/cert_store.py:302-368 | evicting around an answer keeps every link of it; each bound holds or everything left is pinned |
| `CertState.PinSurvivesExactly` | src/cert_store.py:318-328 | brought down to a bound, one subject's list keeps the own chain's certificate iff the bound is at least one |
| `CertState.AddKeepsOwnChain` | src/cert_store.py:302-368 | `add` never costs the node its own chain, nor turns an external one into a self-anchored one; the store fits or only pinned subjects are left |
| `CertState.StepKeepsWf` | src/cert_store.py:81-160 | every call keeps the tables consistent, bounded, and free of revoked certificates |
| `CertState.StepKeepsRevocations` | src/cert_store.py:113-160 | on every call but `remove_root`, revocation times only grow and trusted entries stay |
| `CertState.TrustedRevocationIsPermanent` | src/cert_store.py:113-171 | on every run without `remove_root`, what a trusted root took back is never held and no chain containing it is ever accepted again |
| `CertTrust.RootsExactly` | src/cert_store.py:81-102 | on every run an id is a root iff it is the own one, or was named before and not removed since |
| `CertTrust.AnchorsStandByName` | src/cert_store.py:88-102 | on every run a chain is accepted, or found, only under such a root: one that was removed vouches for nothing from then on |
| `CertTrust.RevocationTakesExactly` | src/cert_store.py:113-171 | a revocation takes a held certificate iff the table has room for it, its issuer issued that certificate to that subject, and not later than the revocation |
| `CertTrust.AnswerOutlasts` | src/cert_store.py:456-522 | no link of an answer runs out before another certificate of the same subject and issuer that was usable when the answer was found |
| `CertNews.KeptIffRoom` | src/cert_store.py:113-160 | a revocation just heard is in the table afterwards iff its issuer is a root or dropping older entries that no root said is enough to fit the bound |
| `CertNews.StepKeepsFit` | src/cert_store.py:149-160 | on every call but `remove_root`, a table whose untrusted entries fit keeps fitting, so that a trusted entry fewer than the bound is what room means |
| `CertNews.ForgottenAtOnce` | src/cert_store.py:113-160 | without room, a revocation returned as news leaves the store exactly as it was |
| `CertNews.NewsAgainExactly` | src/cert_store.py:113-147 | the same record would be news again iff there was no room for it: its issuer is no root and trusted entries fill the bound |
| `CertNews.RevocationsDieOut` | src/cert_store.py:113-147 | over any run during which a pair stays in the table, its time rises by at least the number of times it was news |
| `CertNews.KeptIsOldNews` | src/cert_store.py:113-147 | over any run during which the table holds its pair, a record that was kept is never news again |
| `CertCrowd.StepCrowds` | src/cert_store.py:113-159 | a call that keeps a pair puts behind it only what it files; one that loses it files another, and that one, those behind the pair and the trusted entries fill the bound |
| `CertCrowd.LostOnlyToACrowd` | src/cert_store.py:113-159 | on every run without `remove_root` from a table inside its bound, a pair filed as new is held until as many other pairs, all different, were filed as new as there are places no trusted entry takes |
| `CertCrowd.NewsTwiceExactly` | src/cert_store.py:113-159 | a record that was kept can be news again with so many other pairs filed in between iff they are as many as those places |
| `CertCrowd.WalksBackExactly` | src/cert_store.py:113-159 | a pair's time can go back with so many other pairs filed in between iff they are as many as those places |
| `CertCrowd.CirculatesForEver` | src/cert_store.py:113-159 | with more issuers than places, nobody of them trusted, each record is news at every one of any number of calls, though there is room at each, and after a full round the store is what it was |
| `CertStore.EarliestMeaning` | src/cert_store.py:33-39 | a chain's expiry time is exactly the last moment at which all its links live |
| `CertStore.MemoStillAnswers` | src/cert_store.py:391-419 | an unexpired memo is acceptable now whatever the clock did, and the right answer unless the clock went back |
| `CertStore.MemoRightExactly` | src/cert_store.py:391-419 | an unexpired memo is the right answer now, for every store, target and answer, iff the clock is not before the moment it was computed, or that was too early for anything to have expired |
| `CertStore.NothingWhileExpired` | src/cert_store.py:391-419 | for every clock set back, a store whose remembered "nothing" is wrong now |
| `CertStore.SweptAll` | src/cert_store.py:434-454 | sweeping subject by subject is dropping every expired certificate at once |
| `CertStore.CertStore.constructor` | src/cert_store.py:48-80 | a new store trusts itself and holds nothing |
| `CertStore.CertStore.LiveCerts` | src/cert_store.py:517-522 | lists exactly the usable certificates of a subject, longest-lived first |
| `CertStore.CertStore.TargetCerts` | src/cert_store.py:466-478 | the same for a target, external issuers first and each kind longest-lived first |
| `CertStore.CertStore.CloseAt` | src/cert_store.py:484-494 | a chain comes out iff the root popped is an anchor; it is the walk, closed by the root's longest-lived self-signed certificate where needed |
| `CertStore.CertStore.BuildChain` | src/cert_store.py:456-508 | terminates with the answer: an external chain iff an external route exists, else the own one, else nothing; no link of it runs out before another that could have stood in its place, no route of its kind is shorter, and of two routes of one link the one from another root is taken |
| `CertStore.CertStore.GetChain` | src/cert_store.py:375-419 | serves only chains acceptable now, the fresh walk's answer unless the clock ran back, and keeps every other memo coherent |
| `CertStore.CertStore.AddRoot` | src/cert_store.py:81-84 | one store step; no memo survives it |
| `CertStore.CertStore.RemoveRoot` | src/cert_store.py:88-102 | one store step; the own root cannot be removed |
| `CertStore.CertStore.Revoke` | src/cert_store.py:113-147 | reports news exactly when the record is genuine and newer than what was known; the news is in the table afterwards iff there was room for it, and then it is not new again and nothing that it voids is held |
| `CertStore.CertStore.EnforceRevocationBound` | src/cert_store.py:149-159 | the oldest entries no trusted root said go, exactly down to the bound |
| `CertStore.CertStore.EvictWithinSubject` | src/cert_store.py:302-331 | one subject's oldest certificates go, the own chain's certificate never |
| `CertStore.CertStore.EnforceBounds` | src/cert_store.py:363-368 | oldest subjects go down to the bound, around one unchanged own chain |
| `CertStore.CertStore.Add` | src/cert_store.py:302-331 | refuses, refreshes, or files and evicts, with every memo still coherent |
| `CertStore.CertStore.PruneExpired` | src/cert_store.py:434-454 | exactly the unexpired certificates stay, memos coherent, and the number returned is how many went |
| `CertStore.CertStore.VerifyChain` | src/cert_store.py:524-560 | names the anchor of a chain exactly when every link is inside its time and not taken back, each is issued by the next, the last by itself, and that one is a root now; of held certificates it accepts exactly the chains the search may return (`CertState.AcceptedIsTrusted`) |
| `Eviction.DropOldestMeaning` | src/cert_store.py:149-159 | an eviction drops nothing pinned and exactly enough, unless only pinned entries are left |
| `Eviction.DropsOldestFirst` | src/cert_store.py:149-159 | no unpinned entry goes before an older one |
| `LogRing.PageOnLongerHistory` | src/logbook.py:411-465 | a page stays right as lines are recorded after it |
| `LogRing.ReaderMissesNothing` | src/logbook.py:411-465 | over any interleaving of reads, records and evictions, a reader gets exactly the matching lines not yet evicted when their call came, once each, in order |
| `LogRing.PageAccounts` | src/logbook.py:411-465 | one page never reports more than its cursor moved over, and accounts for all of it iff `Accounts` holds |
| `LogRing.ReaderAccountsForAll` | src/logbook.py:411-465 | over a whole unfiltered reading, lines delivered plus lines lost equals the distance travelled iff every page accounts for its own |
| `LogRing.UnemptiedAccounts` | src/logbook.py:411-465 | every page of a reader that starts past the first line accounts for its own, as long as the ring is never emptied once it held a line |
| `LogRing.PendingKeepsPast` | src/logbook.py:427-440 | blocks that end at or before the cursor hold nothing a reader is owed |
| `LogQuery.ChronologicalIsSound` | src/logbook.py:357-370 | times that never decrease make the block index sound |
| `LogQuery.SkipsAreSafe` | src/logbook.py:480-517 | with a sound index, skipping blocks finds the matches a full scan finds |
| `LogQuery.EarlyHides` | src/logbook.py:480-517 | a block that starts earlier than its index says hides a match, for every page size |
| `LogQuery.LateHides` | src/logbook.py:480-517 | so does one that ends before something up to it |
| `LogQuery.QueryIsPlainScan` | src/logbook.py:467-517 | the block-skipping query equals the plain newest-first scan cut at the limit, for all questions, iff the index is sound |
| `LogQuery.PagesListEveryMatch` | src/logbook.py:467-517 | paging by `before_seq` lists every match once, newest first |
| `LogFilters.FoundExactly` | src/logbook.py:579-604 | a search finds a text iff it stands somewhere in the line, whatever the case of either |
| `LogFilters.KeepsExactly` | src/logbook.py:579-604 | a line is kept iff it is as severe as the floor, from the source, on the topic, inside the times and has the text in its message or its fields |
| `LogFilters.FieldsSiftApart` | src/logbook.py:579-604 | each field of a filter sifts what the others leave, in order, by its own test alone |
| `LogFilters.CaseNeverMatters` | src/logbook.py:579-604 | the case of what is asked for never changes an answer |
| `LogBook.LogBook.Hold` | src/logbook.py:208-222 | the size asked for is applied first; a holder is added unless it would be a ninth; lines are kept iff somebody holds |
| `LogBook.LogBook.Release` | src/logbook.py:229-243 | only the last release takes the lines |
| `LogBook.LogBook.Stop` | src/logbook.py:245-251 | nobody holds, nothing is kept |
| `LogBook.LogBook.Resize` | src/logbook.py:253-290 | the limit is clamped and applied to packed blocks; every line that went is counted as dropped; the ring is not emptied while its newest block fits or the open block holds a line |
| `LogBook.LogBook.Clear` | src/logbook.py:260-277 | every line goes, the dropped counter starts again, the holds and the numbering stay |
| `LogBook.LogBook.Evict` | src/logbook.py:292-307 | whole blocks go, oldest first, and no block more than needed; the newest stays if it fits |
| `LogBook.LogBook.Record` | src/logbook.py:309-355 | the history grows by exactly this line iff the ring is held, and stays chronological if the clock did not run back; afterwards packed and open bytes, equal to a recount, are inside the limit; the ring is not emptied as long as what the open block packs to fits |
| `LogBook.LogBook.PackOpen` | src/logbook.py:357-370 | no line is lost or reordered by packing |
| `LogBook.LogBook.ReadersView` | src/logbook.py:309-370 | packed and open rows are one contiguous range of the history, indexed by their ends |
| `LogBook.LogBook.Since` | src/logbook.py:411-465 | returns the page a reader at that number is owed, from the start after a restart: exactly the lines up to the new cursor that were asked for, field by field; the page accounts for every number unless the ring was emptied or the reader starts at nothing |
| `LogBook.LogBook.Query` | src/logbook.py:467-517 | the block-skipping answer, which holds only lines asked for and is the plain scan's, with all of them unless it is cut short, whenever the clock of the recorded lines never ran back |
| `NonceCache.Cache.Claim` | src/app_auth.py:301-319 | true the first time; the cache becomes `After`, never above its bound |
| `NonceCache.ClaimedExactly` | src/app_auth.py:301-319 | a claim succeeds iff the nonce has its length and no unexpired entry has it, nor an expired one in a cache less than half full |
| `NonceCache.ClaimLeaves` | src/app_auth.py:301-322 | what a claim leaves in the cache, entry by entry |
| `NonceCache.NeverOverfull` | src/app_auth.py:292-322 | on every run the cache holds at most its bound |
| `NonceCache.ClaimKeeps` | src/app_auth.py:301-319 | an unexpired nonce refuses every second claim until a cache's worth of others succeeded |
| `NonceCache.ReuseBound` | src/app_auth.py:292-322 | between two successful claims of one nonce, a clock reached the first one's expiry or as many other claims succeeded as the cache holds |
| `Login.AppAuth.Verify` | src/app_auth.py:230-289 | a proof passes iff signer, audience, purpose, context and times match and its nonce is new, so never before its time by more than the skew nor at its end or later; the nonce is burnt only after the signature spoke |
| `Login.AppAuth.StartLogin` | src/app_auth.py:422-427 | step 1 as `Endpoint.StartLogin` |
| `Login.AppAuth.AnswerLogin` | src/app_auth.py:429-441 | step 2 as `Endpoint.AnswerLogin` |
| `Login.AppAuth.CompleteLogin` | src/app_auth.py:443-462 | step 3 as `Endpoint.CompleteLogin` |
| `Login.AppAuth.AcceptLogin` | src/app_auth.py:464-481 | step 4 as `Endpoint.AcceptLogin` |
| `Login.AppAuth.StoreSession` | src/app_auth.py:483-491 | dead sessions go first, then the oldest, and the new one is kept |
| `Login.StoredAre` | src/app_auth.py:483-491 | nothing dead and no more than the bound is kept, the new session is, and all that live are while there is room |
| `Login.AppAuth.PrunePending` | src/app_auth.py:509-515 | expired logins go first, then the oldest |
| `Login.FiledKeepsOne` | src/app_auth.py:422-441 | a login filed is pending, the others are untouched, and there is one for a nonce |
| `Login.PrunedAre` | src/app_auth.py:509-515 | nothing expired and no more than the bound is kept, and all that live are if they fit |
| `ProofRuns.PassesExactly` | src/app_auth.py:230-289 | exactly which proofs pass at which moment |
| `ProofRuns.NoProofPassesTwice` | src/app_auth.py:230-322 | on every run of verifications, for whatever purposes, whose clock does not pass the last one's: one proof passes twice only if a cache's worth of others passed in between |
| `LoginExchange.LoginSucceedsExactly` | src/app_auth.py:422-515 | an undisturbed login between honest nodes ends in one session at each end under one id iff the responder has room, both proofs come in time, and neither end has an older login with the other under way in that role |
| `LoginRuns.HonestProof` | src/app_auth.py:230-289 | a proof of an honest node that a verifier accepts was minted for that verifier in a step the log explains |
| `LoginRuns.StepKeepsInv` | src/app_auth.py:422-481 | every step of any endpoint, with any deliverable frame, keeps the protocol invariant |
| `LoginRuns.Correspondence` | src/app_auth.py:422-481 | on every run: a session stored for an honest other node was completed by it before, with this responder, on the same nonces and session id; no two accepted sessions share a nonce |
| `LoginRuns.SelfLoginIsReflected` | src/app_auth.py:422-481 | for every endpoint with nothing pending, a run of two steps in which it accepts itself and nobody completed anything |
| `LoginRuns.CorrespondenceExactly` | src/app_auth.py:422-481 | whatever an honest node accepts from another honest one was completed by it before, on all runs, iff the two are not the same node |
| `BootGuard.Guard.Rollback` | src/boot_guard.py:191-227 | performs its plan up to where it is cut, and says "restored" iff it ran to the end from a backup that held something |
| `BootGuard.Guard.MoveAll` | src/boot_guard.py:200-222 | entry by entry: clear, set aside, bring back; then take out what was added |
| `BootGuard.Guard.Begin` | src/boot_guard.py:156-175 | a start is counted while chances are left, and is a rollback after |
| `BootRuns.ChancesCount` | src/boot_guard.py:156-175 | while no more starts than the chances were counted, nothing is moved, and the count is the number of starts that could be written down; with all of them used the next start rolls back (`BootRuns.LastChance`) |
| `BootGuard.Guard.Confirm` | src/boot_guard.py:178-188 | ends the trial, whatever tree is in place, and touches nothing else |
| `BootRuns.AttemptKeepsInv` | src/boot_guard.py:191-227 | a rollback cut short after any number of operations leaves every old entry in the backup or back in place; a fresh trial starts like that (`BootRuns.TrialStartsSafe`) |
| `BootRuns.PlanIsCareful` | src/boot_guard.py:200-222 | at whatever point earlier attempts were cut, a rollback takes away only what is the release's and moves nothing to where something is |
| `BootRuns.RollbackSurvivesCrashes` | src/boot_guard.py:156-227 | any number of starts, each cut short anywhere, keep that invariant; a trial that no confirmation ended is over only with the whole old tree in place |
| `BootRuns.NothingIsLost` | src/boot_guard.py:156-227 | on every run of starts and confirmations, in any order, each cut anywhere, every old entry is in the backup or back in place |
| `BootRuns.NeitherTreeIsLost` | src/boot_guard.py:156-227 | on every such run from a fresh trial, what the failed release had under any name is in place or set aside, too |
| `BootRuns.ConfirmMixesExactly` | src/boot_guard.py:178-227 | confirming after one rollback that was cut leaves a tree that is neither the old nor the new one iff the cut fell between two entries the release had changed, one already moved or gone and one not back |
| `BootRuns.ConfirmMixesAfterAnyRun` | src/boot_guard.py:156-227 | after any run of starts and wherever each was cut, confirming leaves a mixed tree iff the place of an entry still in the backup is empty, or one entry the release had changed is still in the backup and another is not |
| `BootRuns.MixedForGood` | src/boot_guard.py:178-227 | whenever the release changed two entries there is such a cut, and no later event changes the mixed tree |
| `BootRuns.FullRollbackTakesOutAdded` | src/boot_guard.py:191-227 | a rollback that finishes from a non-empty backup also removes what the release added |
| `BootRuns.ClashLosesAnEntry` | src/boot_guard.py:205-222 | without `NoClash` there is a schedule of crashes that loses an old entry, so the condition is exact |
| `BootRuns.AdditionsCanStay` | src/boot_guard.py:196-204 | a schedule after which the trial is over and an addition is still in place |
| `AppCatalog.Catalog.Offer` | src/app_catalog.py:54-86 | the table and the outcome are those of `Offered`; one entry per app and the bound are kept |
| `AppCatalog.Catalog.Touch` | src/app_catalog.py:98-101 | the entry moves to the back and nothing else changes |
| `AppCatalog.Catalog.MakeRoom` | src/app_catalog.py:107-128 | exactly the entry `Victim` names goes, or none |
| `AppCatalog.TableWithinShares` | src/app_catalog.py:103-128 | pigeonhole: authors inside the share cannot fill the table |
| `AppCatalog.ShareExactly` | src/app_catalog.py:103-106 | the share is the greatest that the guaranteed number of authors can be given alike, and at least one |
| `AppCatalog.FilingIsFair` | src/app_catalog.py:103-128 | with no more authors than guaranteed, the newcomer's included, nobody inside the share loses an entry to somebody else; in general somebody inside it pays iff nobody is over it, the newcomer is under it, and the oldest entry is theirs (`AppCatalog.UnfairExactly`) |
| `AppCatalog.OfferStep` | src/app_catalog.py:54-86 | a held app's time changes iff that app is gossiped on, and then strictly rises; what was filed is held; an ignored offer changes nothing; a held app is updated by exactly the younger releases, and any other is filed while there is room |
| `AppCatalog.EpidemicsDieOut` | src/app_catalog.py:54-86 | over any run, an app's time rises by at least the number of times it was gossiped on while held |
| `CatalogCrowd.VictimIsOld` | src/app_catalog.py:107-128 | the entry that makes room has at least an author's share of entries from its own place on |
| `CatalogCrowd.HeldUntilCrowdedOut` | src/app_catalog.py:54-128 | on every run an app is held until an author's share of other apps, all different, was gossiped on |
| `CatalogCrowd.NewTwiceExactly` | src/app_catalog.py:54-128 | a release no younger than one already gossiped on can be gossiped on with so many other apps in between iff they are at least an author's share |
| `LinkQuality.Quality.OnPong` | src/metrics.py:143-148 | the last samples are the last round trips timed |
| `LinkQuality.Quality.Record` | src/metrics.py:206-213 | the window is the last outcomes and its loss counter a recount, before and after |
| `LinkQuality.Quality.Sent` | src/metrics.py:163-171 | the probe is filed, and what the bound pushes out is charged as lost |
| `LinkQuality.Quality.Answered` | src/metrics.py:173-188 | a round trip comes out iff the token is in flight, and it is that probe's own |
| `LinkQuality.AnsweredAfter` | src/metrics.py:173-188 | a probe answered some time after it went out is timed at that, or at nothing by a clock set back; no other is touched |
| `LinkQuality.Quality.Expire` | src/metrics.py:190-204 | charges and counts the leading overdue probes |
| `LinkQuality.Quality.RecentLoss` | src/metrics.py:225-233 | the share of the last outcomes that were lost, between 0 and 1, or nothing below the minimum |
| `LinkQuality.WindowSlides` | src/metrics.py:206-213 | one more outcome moves the recount by what left and what came |
| `LinkQuality.EveryProbeAccounted` | src/metrics.py:163-204 | conservation on every run: each probe sent is resolved once, in flight, or overwritten under its own token |
| `LinkQuality.OutcomesPlusInFlight` | src/metrics.py:163-204 | outcomes plus probes in flight equals probes sent iff no token was reused in flight |
| `LinkQuality.SweepIsExact` | src/metrics.py:190-204 | whatever the patience, stopping early leaves no overdue probe at any moment iff the probes in flight lie in the order of their times |
| `LinkQuality.SweepsChargeExactly` | src/metrics.py:163-204 | on every orderly run a sweep keeps exactly the young probes and charges the others |
| `LinkQuality.ReusedTokenHides` | src/metrics.py:163-204 | three sends after which a sweep leaves an overdue probe pending |
| `Bundle.Bundle.Update` | src/mlo.py:389-429 | bench, members, skew and gap are those of one pass over the candidates |
| `Bundle.Bundle.NextKey` | src/mlo.py:431-440 | the next member in turn, nothing without a bundle |
| `Bundle.ByMeanSorts` | src/mlo.py:413 | the ranking is a sorted permutation of the eligible |
| `Bundle.TiesKeepTheirOrder` | src/mlo.py:413 | links of equal mean stay in the order in which they were offered |
| `Bundle.MembersAreFastest` | src/mlo.py:414-418 | no more members than wanted, all eligible, and nobody left out is faster than one taken in |
| `Bundle.SkewIsMeanLead` | src/mlo.py:414-428 | the skew a bundle reports is what its members' times exceed the fastest by, on average; never negative nor more than the configured one |
| `Bundle.MembersAreNear` | src/mlo.py:414-424 | members lie pairwise within the skew; there is a bundle iff two are wanted and the two fastest lie that close |
| `Bundle.NeverOneMember` | src/mlo.py:414-429 | a bundle has two members at least, or there is none |
| `Bundle.MembersAreFit` | src/mlo.py:400-412 | a member has both measures and probes enough, lies below the bench share, is not benched, and lies below half of it if it was |
| `Bundle.PassDecides` | src/mlo.py:396-412 | one pass puts a link on the bench iff it failed, or it was there, is still offered and did not recover |
| `Bundle.SharesAreConfigured` | src/mlo.py:396-412 | in percent as configured, a pass fails a link that lost as much or more and lets one back that lost less than half of it; outside 0 to 100 the nearest end counts (`Bundle.SharesAreClamped`) |
| `Bundle.BenchRemembers` | src/mlo.py:389-412 | over every run a link is benched iff it failed in some pass and has been offered in each since without recovering |
| `Bundle.BandNeverMoves` | src/mlo.py:389-412 | a link whose drop stays between the two shares never changes side, however long |
| `Bundle.TurnsGoRound` | src/mlo.py:431-440 | as many turns as there are members go once round all of them, in order |
| `Cadence.NobodyIsDraggedDown` | src/mlo.py:242-267 | both ends agree on the same cadences, and nothing a peer declares takes a node below its own floors |
| `Cadence.FastIfShared` | src/mlo.py:242-267 | there is a fast mode iff some cadence is fast to both, and the agreed one is the fastest of those |
| `Cadence.SlowestShared` | src/mlo.py:242-267 | the idle cadence is the slowest both accept whenever there is one |
| `Cadence.LoadedKeepsBudget` | src/mlo.py:176-195 | the raised floor keeps the probe budget to the millisecond unless the configured ceiling stops it; it never falls |
| `Cadence.LoadedOnlyRaises` | src/mlo.py:176-195 | whatever was configured, load only raises the fast floor and touches nothing else |
| `Cadence.LoadedStaysWellFormed` | src/mlo.py:176-214 | the offer stays well formed iff the raised floor does not pass the slow one; always for a clamped declaration |
| `Cadence.WellFormedMeans` | src/mlo.py:196-214 | each mode is a range, and fast is nowhere slower than slow |
| `Behaviour.Watch.Ask` | src/behaviour.py:705-722 | a charge is allowed iff the pair has none younger than the recharge; the pair becomes the youngest entry |
| `Behaviour.Watch.Judge` | src/behaviour.py:669-703 | reports and table are those of `Judged`; a rule is disarmed iff it hit more than one subject and more than the share of the population, and its hits are counted |
| `Behaviour.Watch.Forget` | src/behaviour.py:724-735 | nothing about the subject is left among the charges or in either history, and everything else is as it was |
| `Behaviour.StepTime` | src/behaviour.py:705-735 | a step moves a pair's time only by charging it, and then at least the recharge forward |
| `Behaviour.ChargesAreSpaced` | src/behaviour.py:72-83 | whatever the clock does, a pair's charges lie the recharge apart on every run that neither evicts nor forgets it |
| `Behaviour.PartBelowTwice` | src/behaviour.py:72-83 | charges a half-life apart never add up to twice the weight, whatever other rules say in between |
| `Behaviour.ScoreIsParts` | src/reputation.py:128-194 | the ledger's score is the sum of what each rule brought in |
| `Behaviour.ScoreIsTotal` | src/reputation.py:128-194 | fading lazily at each note loses nothing: the score is every note's worth, faded since it was made, together |
| `Behaviour.PartsBelowTwice` | src/behaviour.py:72-83 | all rules together stay below twice their weights together |
| `Behaviour.OneRuleIsNeverDecisive` | src/behaviour.py:669-722 | end to end, watch into ledger: with a recharge of at least the ledger's half-life, one rule never costs one subject twice its weight, on any run and with any clock |
| `Behaviour.SlowLedgerIsOutrun` | src/behaviour.py:72-83 | with a shorter recharge there is a run on which it does |
| `Behaviour.NeverDecisiveExactly` | src/behaviour.py:72-83 | so no run makes one rule decisive iff the recharge is at least the half-life |
| `Behaviour.ReportsAreEarned` | src/behaviour.py:669-703 | every report is of an observed subject the rule fired on, with the rule's weight, by a rule with one hit or no more than the share of the population |
| `Behaviour.ChargeableIsReported` | src/behaviour.py:689-703 | and nothing is kept back: such a rule reports every observed subject it fired on and has not charged for a recharge |
| `Behaviour.UniversalRuleIsQuiet` | src/behaviour.py:689-697 | a rule with more than one hit and more than the share of the population reports nobody; hits are the observed subjects it fires on, once each (`Behaviour.HitsCount`) |
| `Behaviour.OneRuleSaysFew` | src/behaviour.py:689-703 | in one sweep one rule accuses one subject at most, or no more than the share of the population |
| `Books.Book.Observe` | src/behaviour.py:278-309 | an identity held counts one more if anything happened; a new one is filed and the least established other makes room |
| `Books.Book.Forget` | src/behaviour.py:311-312 | exactly this identity's history goes |
| `Books.Book.Evict` | src/behaviour.py:321-335 | exactly the first of the least established goes, the newcomer excepted |
| `Books.NewcomerCost` | src/behaviour.py:321-335 | a newcomer costs an established history iff the book is full of them |
| `Books.FloodCostsOne` | src/behaviour.py:321-413 | any number of identities seen once together cost at most one longer history |
| `Base32.RoundTrip` | src/join_ticket.py:92-98 | text is in the alphabet, of the standard's length, and decodes to the bytes it came from |
| `Base32.BitAt` | src/join_ticket.py:92-98 | bits are taken most significant first |
| `Base32.DigitsKeepBits` | src/join_ticket.py:92-98 | the digits' bits are the bytes' bits with fewer than five zeros behind |
| `Base32.AlphabetIsStandard` | src/join_ticket.py:92-98 | the letters are those of table 3 of RFC 4648, and no others are read |
| `JoinTicket.EncodeTicket` | src/join_ticket.py:128-156 | prints what was asked for, or fails with the first error in the order of the code |
| `JoinTicket.RefusedExactly` | src/join_ticket.py:128-156 | exactly which arguments are refused |
| `JoinTicket.FirstReasonCounts` | src/join_ticket.py:128-156 | and with the first reason in the order of the code |
| `JoinTicket.Reader.Take` | src/join_ticket.py:238-243 | the next bytes, or nothing and no movement when they are not all there |
| `JoinTicket.Reader.TakeEndpoint` | src/join_ticket.py:245-250 | an address and a port that can be dialled |
| `JoinTicket.DecodeV1` | src/join_ticket.py:192-203 | reads the older layout, refusing other families and lengths |
| `JoinTicket.DecodeV2` | src/join_ticket.py:206-227 | reads the newer layout, refusing other lengths for its flags |
| `JoinTicket.DecodeTicket` | src/join_ticket.py:159-189 | every text gives a ticket or one of the reader's errors, in the order of the code |
| `JoinTicket.ReadRefuses` | src/join_ticket.py:159-189 | which refusal a text meets, down to the checksum and the version |
| `JoinTicket.BodyLayout` | src/join_ticket.py:15-27 | where each field lies in the printed body |
| `JoinTicket.BodyRoundTrip` | src/join_ticket.py:150-227 | a printed body reads back for every combination of flags |
| `JoinTicket.CleanRetyped` | src/join_ticket.py:166-170 | changed case, ligatures and other letters that upper-case into the alphabet, and inserted white space and dashes are undone |
| `JoinTicket.SpacesMeanNothing` | src/join_ticket.py:166 | a dash or any of 29 white-space characters anywhere in a text changes nothing |
| `JoinTicket.CaseMeansNothing` | src/join_ticket.py:166 | nor does the case of a letter, and a clean text stays as it is |
| `JoinTicket.TicketRoundTrip` | src/join_ticket.py:128-227 | every printable ticket fits the reader's bound and reads back as itself, however it was retyped |
| `JoinTicket.OldBodiesExactly` | src/join_ticket.py:192-203 | of the bodies marked with the older version, exactly those it could have written are read, as what was written |
| `JoinTicket.OldTicketIsRead` | src/join_ticket.py:159-203 | a ticket of the older version reads back, however it was retyped |
| `JoinTicket.TicketLengths` | src/join_ticket.py:29-31 | 34 characters for one IPv4 route, 76 for two |
| `JoinTicket.AskedIsRead` | src/join_ticket.py:128-275 | both endpoints, node id and seed come back, the expiry rounded down to its minute |
| `JoinTicket.AcceptedCanBeReprinted` | src/join_ticket.py:159-275 | whatever a reader accepts, of either version, can be printed again and means the same |
| `AppPackage.ChunkBlob` | src/app_package.py:111-119 | the chunks of a blob into the table, their keys in order |
| `AppPackage.Build` | src/app_package.py:44-68 | the manifest's entries and every chunk to publish, or too many files |
| `AppPackage.Reassemble` | src/app_package.py:266-291 | the files or the first error, as `Assemble` defines them |
| `AppPackage.ReassembleBytes` | src/app_package.py:158-178 | the blob or the first error, as `Rebuilt` defines them |
| `AppPackage.ChunksMakeUp` | src/app_package.py:111-119 | chunks are never empty nor too big, make the content up again, and stay inside what a manifest may list |
| `AppPackage.GatherDelivered` | src/app_package.py:158-178 | delivered chunks give their content iff it fits under the ceiling |
| `AppPackage.GatheredExactly` | src/app_package.py:158-178 | data is gathered iff the source answered every key with a chunk that hashes to it, these make up the data, and it fits under the ceiling |
| `AppPackage.BuiltReassembles` | src/app_package.py:44-291 | what was built comes back as exactly the input files iff they fit together |
| `AppPackage.AnySourceIsSafe` | src/app_package.py:266-291 | for files under distinct paths and any source that may change its mind: failure, or exactly these paths, each with its content or with a different string of the same full hash |
| `AppPackage.BlobIsSafe` | src/app_package.py:122-178 | the same for the manifest behind a root |
| `AppPackage.BuiltIsWellformed` | src/app_package.py:71-99 | a manifest built from files that fit is one the reader takes |
| `AppPackage.GatherIsBounded` | src/app_package.py:266-285 | whatever is claimed and answered, what is gathered stays under the ceiling |

## Left out

- CertStore.CertStore.constructor: asks for at least one certificate per subject, where the code takes any number. With zero the own chain's certificate would go too (`CertState.PinSurvivesExactly`), and below zero the code fails on an empty list.
- CertStore.CertStore.GetChain: does not promise the fresh answer after the clock was set back past the moment a memo was computed; by `CertStore.MemoRightExactly` the code does not either.
- LogBook.LogBook.Resize: does not bound the open block, which the code trims only at the next record.
- Bundle.Bundle.Update: candidates are identified by equality of keys, where the code also compares object identity for links that have gone.
- Behaviour.ChargesAreSpaced: covers a pair only until the table evicts or forgets it, as in the code.
- JoinTicket.DecodeTicket: a character whose upper case is several characters, not all of the alphabet, counts for one here, so that a text near the length bound can be called too long by the code and not a ticket here; names of hosts and IPv6 scopes are not modelled, an address is its packed bytes.
- Books.Book.Observe: the averages and the break and burst rules are not modelled, only how often an identity was counted.
- LogBook.LogBook.Record: takes level, source and fields as already cleaned and times as given, where the code cleans and rounds them, and does not model an exception raised while recording.
- Certificate store: `ancestors`, `family`, `shared_ancestor`, fingerprint lookups, saving and loading.
- Log book: the live sink, `status` and `sources`; each locked section is one step.
- App login: `make_assertion` for other purposes (an application is taken not to mint login proofs outside the protocol), session lookup and dropping, the byte form of frames; the all-zero node id is taken to belong to no key.
- Boot guard: reading damaged trial files, failed unlinks, moves across file systems and half-finished deletion of a directory; an entry is one value.
- App catalogue: listing, the installed set, and the parsing of releases, which is a verified release or nothing.
- Links: jitter, lifetime loss, mean round trip; the node's own counters; clamping of proposed cadences, which sorts four numbers.
- Behaviour: the single rules' tests and the group medians (a rule is any predicate), hearsay and standings in the ledger, eviction of standings.
- Packages: signed release descriptors and the JSON text of manifests and roots.
- Small tables (power, activity, lineage, features, alerts), sockets, HTTP, the console and scripts.
