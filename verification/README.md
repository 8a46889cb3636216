# a2amesh: verified models of its state contracts

This project models the parts of a2amesh whose correctness depends on many operations together, and
proves what they guarantee over all inputs, all runs and all interleavings.

- **Artifact-hold expiry**: the fenced-lease protocol over one atomic snapshot.
  - `HoldModel` and `HoldTransitions`: the snapshot, what `validate` accepts, and the three transitions as
    functions from snapshot to snapshot, branch by branch, down to the validation each one runs on entry and
    on exit.
  - `HoldFacts`, `HoldExactScan`, `HoldExactExpire`, `HoldExactClaim`: what each transition does with any
    snapshot that `validate` accepts, and exactly when the validation on exit rejects it.
  - `HoldTerms`, `HoldReplayTerms`, `HoldMeaning`: the same read off the records. The first two say field by
    field what a caller must bring and what is written in return, without the guards and constructors of the
    transitions; the third says what `validate` guarantees about every stored record.
  - `HoldInvariant`, `HoldScan`, `HoldClaim`, `HoldExpire`, `HoldRuns`, `HoldTheorems`, `HoldWitnesses`: runs.
    A run starts from `create` with an empty ledger and takes any number of scans, expiries, replay claims
    and writes by others that advance the version, under any clock.
  - `HoldValidators`, `HoldRecorders`, `HoldSnapshotValidator`: the validators and recorders as the loops the
    program runs, each proved equal to the condition or function used in the theorems.
- **Identities** (`Utf8`, `Base64Url`, `Preimages`): the NUL-joined bytes that operation identities hash,
  and the strict base64url codec of lease tokens (RFC 4648, sections 3.5 and 5). `Preimages` justifies the
  ideal digests that the hold model uses.
- **Plans** (`Graphs`, `Plans`, `Dispatcher`, `Aggregator`): depth-first validation of a plan, the
  concurrent ready-set loop with retries, and the final report.
- **Sessions** (`SessionStore`): optimistic append to a key-value cell with revisions.
- **Required slots** (`Slots`, `SlotReaders`, `SlotTheorems`, `SlotPermutations`, `SlotMeaning`): generator and
  validator of the stable-slot projections in a signed configuration bundle. `SlotMeaning` states both over the
  JSON of bundle and descriptor alone.
- **Streams** (`StreamCursor`): the sequence gate for live frames.

`Wrappers`, `Text` and `Sorting` hold what several of these share.

## How the model reads the program

A digest is ideal: it is the tuple it was computed from, so two digests are equal exactly if what was hashed
is equal. The digest a record carries of itself is left out, because validation fixes it to be a function of
the other fields. A random lease ID or token is a parameter of the transition that draws it. Exceptions are
error values; in the hold model they are split into `Refused`, a guard that turned the caller away, and
`Rejected`, a validator that found the snapshot or a freshly built record inconsistent. Checks that a freshly
computed number is in range (a lease end, a fence, a revision, a version, a count) depend on the caller's
clock and on how far the counters have run, and count as guards: `Refused(OutOfRange)`.

## What the proofs show about the program

- `validate` is not inductive: the guards of a transition do not imply that the closing validation accepts
  what it built. `HoldTheorems.RejectsExactly` says for every snapshot that `validate` accepts, and every
  input, when a transition whose guards pass is rejected all the same:
  - a scan, exactly if the high-water is ahead of the last entry's fence (`HoldWitnesses.AheadWitness`);
  - an expiry, exactly if another version of the hold has an unconsumed scan candidate with a later fence
    (`HoldWitnesses.StaleWitness`);
  - a replay claim, exactly if its operation ID was spent on a scan, or if nobody claims its operation yet and
    its clock is before the commit (`HoldWitnesses.SpentIdWitness`, `HoldWitnesses.BackdatedWitness`).

  Stored answers and replays of a commit are never rejected.
- On runs from the empty ledger the first two cannot happen, because there fences are exactly
  1, 2, ..., high-water and the candidate on the hold is the last entry. The third can:
  `HoldTheorems.GuardsImplyValidation` has it as the one exception, and the last two witnesses are runs.
  Nothing else, in particular no monotone clock, is needed for the guards to imply the validators.
- With `max_attempts` below 1 a step that is not blocked ends up failed without any result.
  `Dispatcher.ResultsAreMissingExactly` proves that this is the only way to have none.

Where the program guards against something that cannot happen, the model keeps the guard and the lemma says
that it never fires: `SlotTheorems.ErrorsAreOrdinary`, `Preimages.DomainsNeverCollide` and
`StreamCursor.AcceptNeverInvalid`.

## Model

| member | source | states |
|---|---|---|
| HoldTheorems.GuardsImplyValidation | src/a2amesh/state_contracts/artifact_hold.py:2670-3291 | every reachable snapshot validates; whenever a step's guards pass, no validator rejects what it builds, except a new replay claim whose ID was a scan's or which is the first and predates the commit, and such a claim always is |
| HoldTheorems.FencesAndBearers | src/a2amesh/state_contracts/artifact_hold.py:1348-1408 | along any run the fences are exactly 1, 2, ..., high-water, no lease ID or token is used twice in either role, and the entries are all scan candidates followed by all replay candidates |
| HoldTheorems.TakeoversAreDisjoint | src/a2amesh/state_contracts/artifact_hold.py:1300-1309 | in any ledger that validates, the leases of two claims on one operation are disjoint in time and ordered as their fences, although only neighbours are checked |
| HoldTheorems.PointerIsHighest | src/a2amesh/state_contracts/artifact_hold.py:1311-1346 | in any run the stored current authority is the claim with the highest fence, and its revision is the number of claims |
| HoldTheorems.ExactlyOnce | src/a2amesh/state_contracts/artifact_hold.py:2782-2931 | a run commits at most once, with one tombstone, one audit record and one outbox record, and the hold is then EXPIRED and out of the active set |
| HoldTheorems.CommittedForever | src/a2amesh/state_contracts/artifact_hold.py:2884-2912 | no later input, including version advances by others, changes the commit or its records or revives the hold |
| HoldTheorems.ExpiryDelta | src/a2amesh/state_contracts/artifact_hold.py:3409-3440 | expiry raises the version by one, removes only its own hold from the active set, leaves references, minimum-delete time and lifecycle alone, and records the retention of the new state |
| HoldTheorems.SingleReplayAuthority | src/a2amesh/state_contracts/artifact_hold.py:1707-1836 | after the commit a request replays exactly under the committed lease while no claim exists, afterwards only under the newest claim inside its window; it gets the first result and changes nothing, and every other request is refused by a guard |
| HoldTheorems.OneReplayLease | src/a2amesh/state_contracts/artifact_hold.py:2398-2508 | two requests answered in one snapshot are the same request, under the same fence, from the same reaper instance |
| HoldTheorems.ScanAcceptedExactly | src/a2amesh/state_contracts/artifact_hold.py:2938-3124 | a scan under a new ID succeeds exactly when the hold is ACTIVE and due, the lease is in range and its bearers are unused; it then issues the next fence and puts the candidate on the hold |
| HoldTheorems.ExpireAcceptedExactly | src/a2amesh/state_contracts/artifact_hold.py:3443-3674 | in runs before the commit an expiry is accepted exactly if its guards pass, commits that result, and is otherwise refused by a guard; `HoldTerms.ExpireAcceptsExactly` and `HoldTerms.ExpireWritesExactly` read guards, result and snapshot field by field |
| HoldTheorems.ClaimAcceptedExactly | src/a2amesh/state_contracts/artifact_hold.py:3127-3291 | in runs a new replay claim is stored exactly if its guards pass and it is consistent; `HoldTerms.ClaimAcceptsExactly` and `HoldTerms.ClaimWritesExactly` read guards, result and snapshot field by field |
| HoldTheorems.ScanAnswersAreStable | src/a2amesh/state_contracts/artifact_hold.py:3024-3043 | an answered scan gets the same result from every later state, which stays unchanged, even after the lease or the hold has expired |
| HoldTheorems.ClaimAnswersAreStable | src/a2amesh/state_contracts/artifact_hold.py:3164-3183 | an answered replay claim gets the same result from every later state, even when superseded |
| HoldTheorems.Progress | src/a2amesh/state_contracts/artifact_hold.py:3443-3559 | from every reachable due hold within bounds, a fresh scan and then an expiry from the same reaper inside the lease succeed and commit |
| HoldTheorems.RejectsExactly | src/a2amesh/state_contracts/artifact_hold.py:2670-3559 | over every snapshot that validates, reachable or not, a validator rejects what a transition built exactly if its guards pass and: for a scan the high-water is not the last fence; for an expiry the hold has a newer unconsumed scan candidate; for a claim the ID is a scan's, or nobody claims the operation and the clock precedes its commit |
| HoldTheorems.PreparedInRuns | src/a2amesh/state_contracts/artifact_hold.py:2670-2931 | the invariant of runs excludes the first two of these conditions, and reduces the third to the first claim |
| HoldTerms.FromReaperExactly | src/a2amesh/state_contracts/artifact_hold.py:3014-3023 | the caller guards pass exactly for a stable principal and instance at a time in range, of component type artifact-hold-reaper, on the subject a2a.v1.state.artifact.hold.expire |
| HoldTerms.ScanAcceptsExactly | src/a2amesh/state_contracts/artifact_hold.py:2938-3124 | over every valid snapshot, a scan under a new ID is answered, or rejected, exactly on terms spelled out field by field: the reaper itself, the digests of its request, an ACTIVE hold that is due, five minutes and one fence still in range, unused bearers, and a high-water that is, or is not, the last fence |
| HoldTerms.ScanWritesExactly | src/a2amesh/state_contracts/artifact_hold.py:2938-3124 | the candidate that is issued, with the next fence, the caller, now, now plus 300000 and the due tuple of the hold; the seal, allocation, entry, request and result stored about it; and every other field unchanged |
| HoldTerms.ScanRepeats | src/a2amesh/state_contracts/artifact_hold.py:3024-3043 | a scan under a stored ID returns the stored result and the same snapshot for the same request from the owner of all its candidates, and is refused otherwise |
| HoldTerms.ExpireAcceptsExactly | src/a2amesh/state_contracts/artifact_hold.py:3443-3674 | over every valid snapshot, an expiry of an uncommitted operation is accepted, or rejected, exactly on terms spelled out field by field: the request of the candidate on the hold, its principal, instance and authenticated fence, its lease window, a due hold whose artifact is not being deleted, counters in range, and no, or some, newer scan of the hold |
| HoldTerms.ExpireWritesExactly | src/a2amesh/state_contracts/artifact_hold.py:3362-3559 | the expired hold, the result with its retention, the commit, one audit and one outbox record and the tombstone, field by field, and nothing else |
| HoldTerms.ClaimAcceptsExactly | src/a2amesh/state_contracts/artifact_hold.py:3127-3291 | over every valid snapshot, a claim under a new ID is accepted, or rejected, exactly on terms spelled out field by field: the request that names the commit, its principal, a lease that ends after now and within five minutes, every earlier claim run out, unused bearers, and what no guard asks for, that the ID is no scan's and the first claim does not predate the commit |
| HoldTerms.ClaimWritesExactly | src/a2amesh/state_contracts/artifact_hold.py:3185-3291 | the stored and returned claim has the requested lease end, starts now, takes the next fence, the caller, and the bearers and due tuple of the request; the last entry and the current authority of the operation repeat it, with the next revision; nothing else changes |
| HoldTerms.ClaimRepeats | src/a2amesh/state_contracts/artifact_hold.py:3164-3183 | a claim under a stored ID returns the stored result and the same snapshot for the same request from its owner, and is refused otherwise |
| HoldTerms.ScanKeepsValid | src/a2amesh/state_contracts/artifact_hold.py:3008-3124 | a scan is answered only on a snapshot that validates, and leaves one |
| HoldTerms.ClaimKeepsValid | src/a2amesh/state_contracts/artifact_hold.py:3150-3291 | a replay claim is answered only on a snapshot that validates, and leaves one |
| HoldTerms.ExpireKeepsValid | src/a2amesh/state_contracts/artifact_hold.py:3480-3559 | an expiry is answered only on a snapshot that validates, and leaves one |
| HoldReplayTerms.ReplayAcceptsExactly | src/a2amesh/state_contracts/artifact_hold.py:1707-1836 | over every valid snapshot, a request for a committed operation is answered exactly to the holder of the one lease with authority, the committed one until there is a claim and then the claim with the largest fence inside its window, on terms spelled out field by field; it gets the committed result and changes nothing, and everybody else is refused |
| HoldMeaning.HoldSays | src/a2amesh/state_contracts/artifact_hold.py:1989-2080 | what a valid hold guarantees: ACTIVE exactly if in its own active set, indexed at its expiry exactly if ACTIVE and expiring, and a candidate only on an ACTIVE hold and for it as it stands |
| HoldMeaning.LeaseExactly | src/a2amesh/state_contracts/artifact_hold.py:143-255 | a candidate is valid exactly if its bearers differ, its lease is at most 300000 ms and not empty, and all its texts and numbers are in range |
| HoldMeaning.HoldCandidateSays | src/a2amesh/state_contracts/artifact_hold.py:2677-2736 | the candidate on a hold is an unconsumed scan candidate for the hold as it stands, and the one with the largest fence; an ACTIVE hold has one whenever there is any |
| HoldMeaning.EntriesSay | src/a2amesh/state_contracts/artifact_hold.py:1348-1383 | any two entries of a valid snapshot have increasing fences up to the high-water and share no lease ID or token in either role |
| HoldMeaning.EntryIsScannedOrClaimed | src/a2amesh/state_contracts/artifact_hold.py:1402-1408 | the candidate of every entry comes from a stored scan or from a stored claim, never from both |
| HoldMeaning.ScanSays | src/a2amesh/state_contracts/artifact_hold.py:1173-1252 | every stored scan has at most its limit of candidates, each with its seal, its entry and its allocation after the fence stored before it |
| HoldMeaning.SealSays | src/a2amesh/state_contracts/artifact_hold.py:1208-1252 | every seal is that of a stored scan candidate, and no two are of the same lease |
| HoldMeaning.AllocationSays | src/a2amesh/state_contracts/artifact_hold.py:1208-1252 | every allocation is that of a stored scan candidate, and no two are of the same lease |
| HoldMeaning.ScanOrderSays | src/a2amesh/state_contracts/artifact_hold.py:257-388 | the candidates of a stored scan come in increasing order of artifact and hold, by code points, and share no bearer and no fence |
| HoldMeaning.ClaimSays | src/a2amesh/state_contracts/artifact_hold.py:2738-2780 | every stored claim is the request and result for one stored commit, by its principal, with a later fence and not before it, with its own unconsumed entry, on an EXPIRED hold |
| HoldMeaning.PointerSays | src/a2amesh/state_contracts/artifact_hold.py:1311-1346 | a stored current authority repeats the claim with the largest fence of its operation, and its revision counts the claims |
| HoldMeaning.CommitSays | src/a2amesh/state_contracts/artifact_hold.py:2799-2912 | every stored commit has its tombstone, consumed inside its lease and when due; its fields, result and retention follow from that candidate; and it has exactly one audit and one outbox record |
| HoldMeaning.CommitFieldsSay | src/a2amesh/state_contracts/artifact_hold.py:2354-2396 | the numbers in a stored commit are in range, and no two commits are of the same operation |
| HoldMeaning.TombstoneSays | src/a2amesh/state_contracts/artifact_hold.py:2782-2797 | every tombstone is that of a stored commit, at its time, and no two are of the same operation |
| HoldMeaning.CommittedHoldSays | src/a2amesh/state_contracts/artifact_hold.py:2884-2912 | the hold that a commit names is EXPIRED, without index or candidate, at that version or a later one, and while at that version it agrees with the commit on holds, references, minimum-delete time and retention |
| HoldFacts.LatestIsLargest | src/a2amesh/state_contracts/artifact_hold.py:2677-2703 | the projected candidate is the first of the qualifying ones with the largest fence, and there is none exactly if none qualifies |
| HoldFacts.CurrentClaimIsLast | src/a2amesh/state_contracts/artifact_hold.py:1672-1702 | in any ledger that validates, the lookup through the stored authority succeeds and finds the claim with the highest fence |
| HoldExactScan.ScanOutcome | src/a2amesh/state_contracts/artifact_hold.py:2987-3124 | a scan of any valid snapshot under a new ID: the snapshot and result it leads to if the high-water is the last fence, the rejection otherwise, and a refusal if a guard fails |
| HoldExactScan.AppendedScanIsValid | src/a2amesh/state_contracts/artifact_hold.py:1385-1400 | a valid ledger with one more issued candidate is valid exactly if the high-water was the last fence, because provenance compares the two |
| HoldExactExpire.ExpireOutcome | src/a2amesh/state_contracts/artifact_hold.py:3443-3559 | an expiry of any valid snapshot without a commit is accepted, rejected or refused as its guards and the newer scans decide; `HoldTerms.ExpireAcceptsExactly` and `HoldTerms.ExpireWritesExactly` read both field by field |
| HoldExactExpire.ExpireNextIsValid | src/a2amesh/state_contracts/artifact_hold.py:2841-2857 | the terminal snapshot that an expiry builds is valid exactly if no unconsumed scan candidate of the hold, at whatever version, has a later fence |
| HoldExactExpire.NewerIsForAnotherVersion | src/a2amesh/state_contracts/artifact_hold.py:2677-2703 | such a later candidate is never for the version the hold is at |
| HoldExactExpire.ReplayIsNeverRejected | src/a2amesh/state_contracts/artifact_hold.py:3483-3517 | a request for a committed operation in any valid snapshot gets the committed result and the unchanged snapshot, or is refused by a guard |
| HoldExactClaim.ClaimOutcome | src/a2amesh/state_contracts/artifact_hold.py:3127-3291 | a replay claim on any valid snapshot under a new ID is stored, rejected by one of two validations, or refused by a guard; `HoldTerms.ClaimAcceptsExactly` and `HoldTerms.ClaimWritesExactly` read all of it field by field |
| HoldExactClaim.AppendedClaimIsValid | src/a2amesh/state_contracts/artifact_hold.py:1516-1586 | a valid ledger with one more takeover is valid exactly if no scan had its ID |
| HoldExactClaim.ClaimNextIsValid | src/a2amesh/state_contracts/artifact_hold.py:2738-2780 | the snapshot with one more claim is valid exactly if that claim follows a stored commit |
| HoldRuns.CreateFromEmpty | src/a2amesh/state_contracts/artifact_hold.py:2640-2655 | `create` with an empty ledger accepts exactly the valid holds without a candidate |
| HoldRuns.RunKeeps | src/a2amesh/state_contracts/artifact_hold.py:2987-3559 | every run keeps the invariant, and later snapshots keep all stored requests, results and commits |
| HoldRuns.AdvanceStep | src/a2amesh/state_contracts/artifact_hold.py:2892-2912 | a version advance by another writer, before the commit with any change to the hold's status and expiry short of expiring it and afterwards without one, keeps the invariant |
| HoldInvariant.InvariantImpliesValid | src/a2amesh/state_contracts/artifact_hold.py:2670-2931 | the invariant of runs implies every check of the full validation |
| HoldInvariant.LedgerIsValid | src/a2amesh/state_contracts/artifact_hold.py:1132-1408 | the ledger part of the invariant implies every check of the ledger validation |
| HoldScan.ScanKeepsInvariant | src/a2amesh/state_contracts/artifact_hold.py:1410-1514 | recording one issued candidate keeps the invariant |
| HoldExpire.ExpireKeepsInvariant | src/a2amesh/state_contracts/artifact_hold.py:3519-3559 | consuming the candidate and committing keeps the invariant |
| HoldExpire.ReplayOutcome | src/a2amesh/state_contracts/artifact_hold.py:3483-3517 | a request for the committed operation is answered exactly if it comes from the one replay authority |
| HoldClaim.ClaimKeepsInvariant | src/a2amesh/state_contracts/artifact_hold.py:1516-1586 | recording a consistent takeover keeps the invariant |
| HoldClaim.CurrentClaimIsNewest | src/a2amesh/state_contracts/artifact_hold.py:1672-1702 | in runs the claim found through the stored authority is the last one stored |
| HoldClaim.GuardsOfTakeover | src/a2amesh/state_contracts/artifact_hold.py:3185-3291 | in runs the guards of a new claim pass exactly if it names the commit under its principal, the last lease has run out, and its own lease is in range with unused bearers |
| HoldWitnesses.SpentIdWitness | src/a2amesh/state_contracts/artifact_hold.py:1285-1288 | a run in which a claim passes every guard and is rejected because a scan spent its ID |
| HoldWitnesses.BackdatedWitness | src/a2amesh/state_contracts/artifact_hold.py:2756-2772 | a run in which a claim passes every guard and is rejected because it predates the commit |
| HoldWitnesses.AheadWitness | src/a2amesh/state_contracts/artifact_hold.py:1375-1400 | a snapshot that `create` accepts and a scan of which passes every guard and is rejected, because the high-water is ahead |
| HoldWitnesses.StaleWitness | src/a2amesh/state_contracts/artifact_hold.py:2841-2857 | a snapshot that `create` accepts and an expiry of which passes every guard and is rejected, because a later candidate is for another version |
| HoldValidators.ValidateLedger | src/a2amesh/state_contracts/artifact_hold.py:1132-1408 | the ledger validator, in one pass per collection with dictionaries and sets, decides all pairwise conditions |
| HoldValidators.Index | src/a2amesh/state_contracts/artifact_hold.py:1208-1219 | filling a dictionary and refusing repeats decides that all records are valid and all keys distinct |
| HoldValidators.CheckScans | src/a2amesh/state_contracts/artifact_hold.py:1173-1206 | the scan loop decides validity of all pairs, distinct IDs and distinct leases across all results |
| HoldValidators.CheckClaims | src/a2amesh/state_contracts/artifact_hold.py:1254-1298 | the claim loop decides validity, distinct IDs and no ID shared with a scan, and groups the claims by operation |
| HoldValidators.CheckTakeovers | src/a2amesh/state_contracts/artifact_hold.py:1300-1309 | sorting each group and comparing neighbours decides the takeover condition |
| HoldValidators.CheckPointers | src/a2amesh/state_contracts/artifact_hold.py:1311-1346 | the authority loop decides that authorities and operations correspond and each authority is the highest fence with the right revision |
| HoldValidators.CheckEntries | src/a2amesh/state_contracts/artifact_hold.py:1348-1383 | one growing set of bearers and one running fence decide that no two entries share a bearer and fences increase up to the high-water |
| HoldValidators.CheckProvenance | src/a2amesh/state_contracts/artifact_hold.py:1385-1400 | looking up each allocated candidate decides that the allocation names the fence stored just before it |
| HoldRecorders.PersistScan | src/a2amesh/state_contracts/artifact_hold.py:1410-1514 | the recorder of scans, with its set of bearers and running high-water, computes the transition's ledger and errors |
| HoldRecorders.AppendCandidates | src/a2amesh/state_contracts/artifact_hold.py:1464-1502 | the append loop accepts exactly candidates that follow the high-water and share no bearer with the ledger or each other |
| HoldRecorders.PersistClaim | src/a2amesh/state_contracts/artifact_hold.py:1516-1586 | the recorder of claims computes the transition's ledger and errors |
| HoldSnapshotValidator.ValidateSnapshot | src/a2amesh/state_contracts/artifact_hold.py:2670-2931 | the snapshot validator decides all its conditions |
| HoldSnapshotValidator.FindLatest | src/a2amesh/state_contracts/artifact_hold.py:2677-2703 | the loop finds the first of the qualifying candidates with the largest fence, and none exactly if none qualifies |
| HoldSnapshotValidator.CollectTombstones | src/a2amesh/state_contracts/artifact_hold.py:2782-2797 | the tombstone loop decides that no operation consumed two candidates, and indexes them |
| HoldSnapshotValidator.CheckCommits | src/a2amesh/state_contracts/artifact_hold.py:2799-2912 | the commit loop decides the evidence and the exactly-once records of every commit |
| Preimages.PreimagesAreInjective | src/a2amesh/state_contracts/artifact_hold.py:3294-3359 | over all validated tuples of all kinds, expire, replay claim, commit, event ID, event digest, reconciliation due and claim, equal bytes mean equal tuples, including null against decimal and the free-form last component |
| Preimages.CommitInjective | src/a2amesh/state_contracts/artifact_hold.py:3832-3856 | the components of a commit preimage determine the commit |
| Preimages.EventIdIsNoDigest | src/a2amesh/state_contracts/artifact_hold.py:3863-3870 | the event ID and the event digest, which share a domain, never coincide |
| Preimages.SealInjective | src/a2amesh/state_contracts/artifact_hold.py:29 | NUL-joined components can be read back, the last one whatever its bytes |
| Preimages.DueInjective | src/a2amesh/state_contracts/reconciliation.py:38-70 | the components of a due preimage determine the due tuple, with its optional fencing token |
| Preimages.ClaimInjective | src/a2amesh/state_contracts/reconciliation.py:93-118 | the components of a claim preimage determine the claim |
| Preimages.ClaimPrefixThenScope | src/a2amesh/state_contracts/reconciliation.py:120-134 | prefixing the scope with the domain and a NUL is joining all components |
| Preimages.DomainsNeverCollide | src/a2amesh/state_contracts/reconciliation.py:137-173 | the check that claim and due identity differ fires only if the hash function collides |
| Preimages.SystemClaimsAreInjective | src/a2amesh/state_contracts/reconciliation.py:137-173 | for a collision-free hash one claim operation ID belongs to one due tuple and one operator |
| Preimages.ExpireSays | src/a2amesh/state_contracts/artifact_hold.py:3294-3338 | the bytes of an expiry identity: domain, artifact, hold, version, hold digest and expiry, in this order, NUL between them, numbers in decimal |
| Preimages.ReplaySays | src/a2amesh/state_contracts/artifact_hold.py:3345-3359 | the bytes of a replay-claim identity: domain, operation and lease ID |
| Preimages.CommitSays | src/a2amesh/state_contracts/artifact_hold.py:3832-3856 | the bytes of a commit digest, component by component in order, with null or decimal for the minimum-delete time |
| Preimages.EventSays | src/a2amesh/state_contracts/artifact_hold.py:3863-3870 | the bytes of an event ID and of an event digest under their shared domain |
| Preimages.DueSays | src/a2amesh/state_contracts/reconciliation.py:38-70 | the bytes of a due identity, component by component in order, with or without its fencing token |
| Preimages.ClaimSays | src/a2amesh/state_contracts/reconciliation.py:93-134 | the bytes of a claim identity, component by component in order |
| Preimages.SystemClaimSays | src/a2amesh/state_contracts/reconciliation.py:137-173 | the system claim names the kind, the due identity and the operator that the hash is taken of |
| Preimages.DecimalSays | src/a2amesh/state_contracts/artifact_hold.py:3294-3359 | a number is written with the digits of its value and no leading zero |
| Utf8.EncodeCharSays | src/a2amesh/state_contracts/artifact_hold.py:3294-3320 | the bytes of one code point: its bits six to a continuation byte, below a first byte that tells the length |
| Utf8.EncodeKeepsOrder | src/a2amesh/config_slots.py:41-49 | comparing the UTF-8 bytes of two texts is comparing their code points |
| Base64Url.DecodesExactlyEncodings | src/a2amesh/identity/nkey.py:37-50 | the strict decoder accepts exactly the encodings of non-empty byte strings, and returns those bytes |
| Base64Url.DecodeAccepts | src/a2amesh/identity/nkey.py:41-50 | acceptance read off the text: the alphabet, a possible length, and zero leftover bits |
| Base64Url.TokensAreEncodings | src/a2amesh/state_contracts/artifact_hold.py:3978-3987 | a candidate token is accepted exactly if it is the encoding of some 32 bytes |
| Base64Url.SymbolTable | src/a2amesh/identity/nkey.py:37-50 | the URL-safe alphabet, sextet by sextet |
| Base64Url.EncodeSays | src/a2amesh/identity/nkey.py:37-50 | an encoding has four symbols for three bytes, and the bits of each symbol are those of the bytes in order, with zeros at the end |
| Plans.ValidatePlan | src/a2amesh/orchestrator/dispatcher.py:96-132 | acceptance means pending steps, unique IDs, closed non-self dependencies and a topological rank; each error means what it says, with the offending steps; a refusal as cyclic comes with a real cycle |
| Plans.AcceptedExactly | src/a2amesh/orchestrator/dispatcher.py:96-132 | a plan is accepted exactly if it is pending, unique, sound and acyclic |
| Plans.CycleCheck.Visit | src/a2amesh/orchestrator/dispatcher.py:116-132 | the recursion terminates; success adds the step and all it depends on to the visited ones in dependency order, failure finds a cycle through the visiting ones |
| Plans.CheckDependencies | src/a2amesh/orchestrator/dispatcher.py:107-114 | reports the first step with unknown dependencies, and which, or that depends on itself |
| Graphs.RankExcludesCycles | src/a2amesh/orchestrator/dispatcher.py:116-132 | a topological rank rules out every cycle |
| Dispatcher.Dispatcher.Run | src/a2amesh/orchestrator/dispatcher.py:18-65 | whatever the schedule, a step of an accepted plan ends succeeded exactly if its dependencies did and some attempt within the limit was answered with a task in state "completed", and otherwise failed; its result is the first such task, the error of the last attempt, or the blocked result; a refused plan is untouched |
| Dispatcher.Dispatcher.Wait | src/a2amesh/orchestrator/dispatcher.py:34-44 | in any order of resumptions at least one running step finishes, and nothing but running steps moves |
| Dispatcher.Dispatcher.TakeTurn | src/a2amesh/orchestrator/dispatcher.py:67-94 | one attempt moves a step towards the same final verdict and result |
| Dispatcher.Dispatcher.ReadySteps | src/a2amesh/orchestrator/dispatcher.py:23-26 | exactly the pending steps whose dependencies have all succeeded, each once |
| Dispatcher.Dispatcher.BlockRest | src/a2amesh/orchestrator/dispatcher.py:46-65 | exactly the steps still pending become failed, with the blocked result |
| Dispatcher.StuckIsFine | src/a2amesh/orchestrator/dispatcher.py:28-44 | when nothing can move, the succeeded steps are the fine ones and the pending ones those with a dependency that is not fine |
| Dispatcher.SomeAttemptCompletes | src/a2amesh/orchestrator/dispatcher.py:67-94 | the retry loop succeeds exactly if some attempt within the limit is answered with a task in state "completed"; its result is the first such task, or the error of the last attempt |
| Dispatcher.ResultsAreMissingExactly | src/a2amesh/orchestrator/dispatcher.py:67-94 | a step has no result exactly if no attempt is allowed and it is not blocked |
| Dispatcher.SettledAgree | src/a2amesh/orchestrator/dispatcher.py:18-65 | two runs of one plan agree on every status and result, whatever their schedules |
| Aggregator.RunAndCollect | src/a2amesh/orchestrator/aggregator.py:8-19 | dispatching and collecting reports completed exactly if for every step some attempt within the limit is answered with a task in state "completed" |
| Aggregator.Collect | src/a2amesh/orchestrator/aggregator.py:8-19 | one report per step in plan order, completed exactly if every step succeeded |
| Aggregator.ReportKeepsHeading | src/a2amesh/orchestrator/aggregator.py:11-16 | stripping never removes the step, target and status that a report opens with |
| Aggregator.ReportSays | src/a2amesh/orchestrator/aggregator.py:11-16 | a report is the step, its target and its status, and on the lines below the text parts of its result, without trailing white space |
| SessionStore.SessionAppend | src/a2amesh/memory/store.py:44-65 | under arbitrary interference the message is stored once, right after what others stored; a conflict error means at least eight commits by others during the call |
| SessionStore.SessionGet | src/a2amesh/memory/store.py:67-72 | the history is everything ever stored, in commit order |
| SessionStore.NoLostUpdates | src/a2amesh/memory/store.py:44-65 | for any number of interleaved appenders the history is the messages of the calls that returned, each once, in commit order |
| SessionStore.HistoriesGrow | src/a2amesh/memory/store.py:56-63 | every later history extends every earlier one |
| SessionStore.GivingUpIsJustified | src/a2amesh/memory/store.py:46-65 | a call that gives up has stored nothing and at least eight commits happened since it began |
| SessionStore.FewConflictsNeverGiveUp | src/a2amesh/memory/store.py:46-65 | with at most seven commits since it began, a call has not given up |
| SessionStore.PutDecides | src/a2amesh/memory/store.py:56-63 | a put succeeds exactly at the revision that was read, and then stores what was read with the message at its end; otherwise nothing is stored |
| SlotTheorems.ValidatorAcceptsExactly | src/a2amesh/config_slots.py:59-146 | the validator accepts exactly the bundles that the generator accepts and that carry what it generates, in order, and returns the generated slots; `SlotMeaning.ValidatesExactly` states the same over the JSON alone |
| SlotTheorems.InstalledIsAccepted | src/a2amesh/config_slots.py:79-108 | installing the two generated projections makes the validator accept and return the same slots |
| SlotTheorems.ErrorsAreOrdinary | src/a2amesh/config_slots.py:386-396 | the duplicate-slot check and the missing-authority error never fire |
| SlotTheorems.NoDuplicateSlots | src/a2amesh/config_slots.py:438-475 | distinct claimed identities make all slots distinct |
| SlotTheorems.OutputIsSorted | src/a2amesh/config_slots.py:443-451 | the output is strictly increasing under the byte-wise order of its triples |
| SlotTheorems.SortedIsCanonical | src/a2amesh/config_slots.py:41-49 | a set of slots has one strictly increasing listing |
| SlotTheorems.ParsesExactly | src/a2amesh/config_slots.py:303-317 | a slot projection parses to some slots exactly if it is what is written for them |
| SlotTheorems.RecoveryParsesExactly | src/a2amesh/config_slots.py:320-366 | a recovery projection parses to some pairs exactly if it is what is written for them |
| SlotMeaning.GeneratesExactly | src/a2amesh/config_slots.py:111-300 | the generator succeeds exactly if profile, base slots, components and explicit slots are as the JSON of each entry must be, no identity is claimed twice, the base slots are of exactly the seven types, and the explicit slots are listed ones, each once |
| SlotMeaning.GeneratedSlotsExactly | src/a2amesh/config_slots.py:140-142 | a slot is generated exactly if its three fields are those of a fixed base slot, of a component whose profiles contain the wanted one, or of an explicitly required slot |
| SlotMeaning.AuthoritiesExactly | src/a2amesh/config_slots.py:149-270 | the authority of a slot has the verification method and digest of the entry that names the slot |
| SlotMeaning.GeneratedOrderExactly | src/a2amesh/config_slots.py:443-451 | the generated slots are the one listing of the required slots by type, principal and node, each by code points |
| SlotMeaning.ValidatesExactly | src/a2amesh/config_slots.py:59-146 | over the JSON alone: the validator returns some slots exactly if descriptor and bundle are well formed, these are the required slots in order, `requiredSlots` lists them, and `requiredComponents` lists them with the authorities of the entries that name them |
| SlotPermutations.OrderDoesNotMatter | src/a2amesh/config_slots.py:111-146 | permuting base slots, components, explicit slots or a component's profiles changes neither acceptance nor output |
| SlotPermutations.AbsorbExactly | src/a2amesh/config_slots.py:463-475 | reading entries succeeds exactly if all parse and no identity is claimed twice, and what is read depends only on the bag of entries |
| SlotPermutations.ExplicitExactly | src/a2amesh/config_slots.py:273-300 | explicit slots are accepted exactly if each is known, none is the merge broker and none is repeated |
| SlotReaders.ReadBaseSlots | src/a2amesh/config_slots.py:149-208 | the base loop and the two type checks after it read what the model reads, and fail with its first error |
| SlotReaders.ReadComponentSlots | src/a2amesh/config_slots.py:211-270 | the component loop reads what the model reads, and fails with its first error |
| SlotReaders.ReadExplicitSlots | src/a2amesh/config_slots.py:273-300 | the explicit loop reads what the model reads, and fails with its first error |
| SlotReaders.ClaimIdentities | src/a2amesh/config_slots.py:463-475 | claiming identities one by one decides that all are new and distinct |
| SlotReaders.UniqueSlots | src/a2amesh/config_slots.py:443-447 | keeps the first occurrence of each slot |
| SlotReaders.RenderRecovery | src/a2amesh/config_slots.py:369-383 | renders the model's recovery projection |
| SlotReaders.ParseRecoveryComponents | src/a2amesh/config_slots.py:335-358 | the set of slots seen so far decides that none is repeated |
| StreamCursor.TraceShape | src/a2amesh/bindings/nats_v1/stream.py:240-286 | whatever frames arrive, those that pass as new have sequences 1, 2, ..., strictly increasing event numbers above the snapshot, only the last can be final, and the cursor stands at their end |
| StreamCursor.AcceptsExactly | src/a2amesh/bindings/nats_v1/stream.py:240-286 | a frame passes as new exactly if it is the next of its stream, later than the last event, before any final frame, and an artifact update that is not final or a status update that is final exactly in the four terminal states, of the cursor's task; every other frame is a redelivery or refused |
| StreamCursor.ConstructsExactly | src/a2amesh/bindings/nats_v1/stream.py:194-238 | the cursors that the constructor admits, field by field |
| StreamCursor.TracesPass | src/a2amesh/bindings/nats_v1/stream.py:240-286 | every list of that shape passes in full; the shape names the payloads: an artifact update or a status update of the stream's task, final exactly in state COMPLETED, FAILED, CANCELED or REJECTED |
| StreamCursor.AcceptNeverInvalid | src/a2amesh/bindings/nats_v1/stream.py:194-238 | `accept` never builds a cursor that its constructor refuses |
| StreamCursor.RedeliveryExactly | src/a2amesh/bindings/nats_v1/stream.py:258-265 | a frame is a redelivery exactly if it is the frame accepted last, and then nothing changes |
| StreamCursor.NothingAfterFinal | src/a2amesh/bindings/nats_v1/stream.py:266-267 | after a final frame nothing new passes |
| StreamCursor.RepeatsAnywhere | src/a2amesh/bindings/nats_v1/stream.py:258-265 | immediate repeats anywhere in the input change neither the cursor nor the new frames |

## Left out

- SHA-256, RFC 8785 and JSON parsing, JSON Schema, protobuf and Ed25519: digests are ideal, and wire records are datatypes.
- Private seal objects and run-time type checks of the hold contracts: Dafny's types take their place.
- Schema versions and the digest that a record carries of itself: validation fixes both.
- A random lease ID that equals the token drawn with it: the program redraws until they differ, so it is not a step.
- Error messages: the model keeps which guard raised, not its text. In the slot readers the owner labels of identities are left out for the same reason.
- The dispatcher's backoff sleeps, tracker timestamps and prompts, and cancellation inside a step.
- Dispatcher.Client: the reply to an attempt is a function of the step and the number of the attempt, so a client whose replies depend on what other steps are doing is not modelled.
- Python's recursion limit in the cycle check.
- Session close and key expiry: with them the history restarts, and a call that saw the old entry is refused as for any other write.
- NATS transport, the legacy RPC adapter, the subprocess executor, the MCP connector and bridge, the command line, configuration loading and logging.
- Legacy task execution, the task-state transition table, the operation registry, authentication verifiers and credential stores: each checks one record or one table, without the interplay of operations that is modelled here.
- The stream-open response and the frame's JSON codec: they check single records.
