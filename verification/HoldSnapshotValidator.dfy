/** `ArtifactHoldExpiryCASState.validate` as the program runs it, proved to decide `ValidSnapshot`. */
module HoldSnapshotValidator {
  import opened Wrappers
  import opened HoldModel
  import opened HoldTransitions
  import opened HoldFacts
  import opened HoldValidators

  method FindLatest(entries: seq<Entry>, claims: seq<ClaimResult>, h: Hold) returns (best: Option<Candidate>)
    ensures best == Latest(entries, claims, h)
    ensures best.None? ==> forall i | 0 <= i < |entries| :: !Qualifies(entries[i], claims, h)
    ensures best.Some? ==> IsLargest(entries, claims, h, best.value)
  {
    best := None;
    for i := 0 to |entries|
      invariant best == Latest(entries[..i], claims, h)
    {
      assert entries[..i + 1][..i] == entries[..i];
      if Qualifies(entries[i], claims, h) && (best.None? || best.value.fence < entries[i].candidate.fence) {
        best := Some(entries[i].candidate);
      }
    }
    assert entries[..|entries|] == entries;
    LatestIsLargest(entries, claims, h);
  }

  lemma OnlyEntryOfLease(l: Ledger, c: Candidate)
    requires NoSharing(l.entries)
    ensures IsOpenScan(c, l)
       <==> match FindEntry(l, c.leaseId)
            case None => false
            case Some(i) => l.entries[i] == Entry(c, None) && !IsReplayCandidate(c, l.claimResults)
  {
    var found := FindEntry(l, c.leaseId);
    if IsOpenScan(c, l) {
      var i :| 0 <= i < |l.entries| && l.entries[i] == Entry(c, None);
      assert found == Some(i);
    }
  }

  method CheckHoldCandidate(h: Hold, l: Ledger) returns (ok: bool)
    requires NoSharing(l.entries)
    ensures ok <==> ValidHoldCandidate(h, l)
  {
    if h.status == ACTIVE {
      var latest := FindLatest(l.entries, l.claimResults, h);
      if h.candidate != latest {
        return false;
      }
    }
    if h.candidate.None? {
      return true;
    }
    var c := h.candidate.value;
    OnlyEntryOfLease(l, c);
    var index := FindEntry(l, c.leaseId);
    return index.Some? && l.entries[index.value] == Entry(c, None) && !IsReplayCandidate(c, l.claimResults);
  }

  function CommitOperation(c: Commit): Digest {
    c.expireOperationId
  }

  lemma CommitsDecided(commits: seq<Commit>)
    ensures ValidCommits(commits) <==> AllValid(commits, ValidCommit) && Distinct(commits, CommitOperation)
  {
  }

  lemma FollowsIndexed(byOperation: map<Digest, Commit>, commits: seq<Commit>, request: ClaimRequest, result: ClaimResult, h: Hold)
    requires Indexes(byOperation, commits, CommitOperation)
    ensures FollowsSomeCommit(request, result, commits, h)
       <==> && request.expireOperationId in byOperation
            && ClaimFollowsCommit(request, result, byOperation[request.expireOperationId], h)
  {
    if request.expireOperationId in byOperation {
      var commit := byOperation[request.expireOperationId];
      var i :| 0 <= i < |commits| && commits[i] == commit;
    }
    if FollowsSomeCommit(request, result, commits, h) {
      var i :| 0 <= i < |commits| && commits[i].expireOperationId == request.expireOperationId
               && ClaimFollowsCommit(request, result, commits[i], h);
      assert CommitOperation(commits[i]) in byOperation;
    }
  }

  method CheckClaimEvidence(s: Snapshot, byOperation: map<Digest, Commit>) returns (ok: bool)
    requires |s.ledger.claimRequests| == |s.ledger.claimResults|
    requires Indexes(byOperation, s.commits, CommitOperation)
    ensures ok <==> ValidClaimEvidence(s)
  {
    for j := 0 to |s.ledger.claimRequests|
      invariant forall k | 0 <= k < j ::
                  FollowsSomeCommit(s.ledger.claimRequests[k], s.ledger.claimResults[k], s.commits, s.hold)
    {
      var request, result := s.ledger.claimRequests[j], s.ledger.claimResults[j];
      FollowsIndexed(byOperation, s.commits, request, result, s.hold);
      if request.expireOperationId !in byOperation
         || !ClaimFollowsCommit(request, result, byOperation[request.expireOperationId], s.hold)
      {
        return false;
      }
    }
    return true;
  }

  /** The consumed entries by operation. */
  ghost predicate AreTombstones(m: map<Digest, Entry>, entries: seq<Entry>) {
    && (forall k | 0 <= k < |entries| && entries[k].consumed.Some? ::
          entries[k].consumed.value.operation in m && m[entries[k].consumed.value.operation] == entries[k])
    && (forall id | id in m :: m[id] in entries && m[id].consumed.Some? && m[id].consumed.value.operation == id)
  }

  ghost predicate ConsumedOnce(entries: seq<Entry>) {
    forall i, j | 0 <= i < j < |entries| && entries[i].consumed.Some? && entries[j].consumed.Some? ::
      entries[i].consumed.value.operation != entries[j].consumed.value.operation
  }

  lemma TombstoneStep(m: map<Digest, Entry>, entries: seq<Entry>, e: Entry)
    requires AreTombstones(m, entries) && ConsumedOnce(entries)
    ensures e.consumed.None? ==> AreTombstones(m, entries + [e]) && ConsumedOnce(entries + [e])
    ensures e.consumed.Some? ==>
              (ConsumedOnce(entries + [e]) <==> e.consumed.value.operation !in m)
              && (e.consumed.value.operation !in m ==>
                    AreTombstones(m[e.consumed.value.operation := e], entries + [e]))
  {
    var all := entries + [e];
    assert all[|entries|] == e && forall k | 0 <= k < |entries| :: all[k] == entries[k];
    if e.consumed.Some? && e.consumed.value.operation in m {
      var k :| 0 <= k < |entries| && entries[k] == m[e.consumed.value.operation];
      assert all[k].consumed.value.operation == all[|entries|].consumed.value.operation;
    }
  }

  lemma ConsumedOncePrefix(entries: seq<Entry>, i: nat)
    requires i <= |entries|
    ensures ConsumedOnce(entries) ==> ConsumedOnce(entries[..i])
  {
  }

  method CollectTombstones(entries: seq<Entry>) returns (ok: bool, m: map<Digest, Entry>)
    ensures ok <==> ConsumedOnce(entries)
    ensures ok ==> AreTombstones(m, entries)
  {
    ok, m := true, map[];
    for i := 0 to |entries|
      invariant ok && AreTombstones(m, entries[..i]) && ConsumedOnce(entries[..i])
    {
      var e := entries[i];
      TombstoneStep(m, entries[..i], e);
      PrefixStep(entries, i);
      ConsumedOncePrefix(entries, i + 1);
      if e.consumed.Some? {
        if e.consumed.value.operation in m {
          return false, m;
        }
        m := m[e.consumed.value.operation := e];
      }
    }
    assert entries[..|entries|] == entries;
  }

  lemma TombstoneKeys(m: map<Digest, Entry>, entries: seq<Entry>, byOperation: map<Digest, Commit>, commits: seq<Commit>)
    requires AreTombstones(m, entries) && Indexes(byOperation, commits, CommitOperation)
    ensures m.Keys == ConsumedOperations(entries) && byOperation.Keys == CommittedOperations(commits)
  {
    forall id ensures id in m <==> id in ConsumedOperations(entries) {
      if id in m {
        var k :| 0 <= k < |entries| && entries[k] == m[id];
      }
    }
    assert forall i | 0 <= i < |commits| :: commits[i].expireOperationId == CommitOperation(commits[i]);
  }

  method CheckNothingNewer(e: Entry, l: Ledger) returns (ok: bool)
    ensures ok <==> NothingNewer(e, l)
  {
    for i := 0 to |l.entries|
      invariant forall k | 0 <= k < i ::
                  var other := l.entries[k];
                  !(other.consumed.None? && !IsReplayCandidate(other.candidate, l.claimResults)
                    && SameHold(other.candidate.due, e.candidate.due)
                    && e.candidate.fence < other.candidate.fence)
    {
      var other := l.entries[i];
      if other.consumed.None? && !IsReplayCandidate(other.candidate, l.claimResults)
         && SameHold(other.candidate.due, e.candidate.due) && e.candidate.fence < other.candidate.fence
      {
        return false;
      }
    }
    return true;
  }

  /** `tuple.count`. */
  method Count(events: seq<Event>, e: Event) returns (n: nat)
    ensures n == multiset(events)[e]
  {
    n := 0;
    for i := 0 to |events|
      invariant n == multiset(events[..i])[e]
    {
      PrefixStep(events, i);
      if events[i] == e {
        n := n + 1;
      }
    }
    assert events[..|events|] == events;
  }

  ghost predicate Evident(s: Snapshot, e: Entry, commit: Commit) {
    && e.consumed.Some?
    && CommitMatchesEntry(commit, e)
    && NothingNewer(e, s.ledger)
    && HoldReflects(s.hold, commit, e.candidate)
  }

  ghost predicate Recorded(s: Snapshot, commit: Commit) {
    multiset(s.audit)[EventOf(AUDIT, commit)] == 1 && multiset(s.outbox)[EventOf(OUTBOX, commit)] == 1
  }

  method CheckCommit(s: Snapshot, e: Entry, commit: Commit) returns (ok: bool)
    requires e.consumed.Some?
    ensures ok <==> Evident(s, e, commit) && Recorded(s, commit)
  {
    if !CommitMatchesEntry(commit, e) {
      return false;
    }
    ok := CheckNothingNewer(e, s.ledger);
    var audited := Count(s.audit, EventOf(AUDIT, commit));
    var published := Count(s.outbox, EventOf(OUTBOX, commit));
    return ok && audited == 1 && published == 1 && HoldReflects(s.hold, commit, e.candidate);
  }

  ghost predicate AllEvident(s: Snapshot, byOperation: map<Digest, Commit>, tombstones: map<Digest, Entry>) {
    forall id | id in byOperation :: id in tombstones && Evident(s, tombstones[id], byOperation[id])
  }

  ghost predicate AllRecorded(s: Snapshot, byOperation: map<Digest, Commit>) {
    forall id | id in byOperation :: Recorded(s, byOperation[id])
  }

  method CheckCommits(s: Snapshot, byOperation: map<Digest, Commit>, tombstones: map<Digest, Entry>) returns (ok: bool)
    requires tombstones.Keys == byOperation.Keys
    requires forall id | id in tombstones :: tombstones[id].consumed.Some?
    ensures ok <==> AllEvident(s, byOperation, tombstones) && AllRecorded(s, byOperation)
  {
    var todo := byOperation.Keys;
    while todo != {}
      invariant todo <= byOperation.Keys
      invariant forall id | id in byOperation.Keys - todo ::
                  Evident(s, tombstones[id], byOperation[id]) && Recorded(s, byOperation[id])
    {
      var id :| id in todo;
      ok := CheckCommit(s, tombstones[id], byOperation[id]);
      if !ok {
        return;
      }
      todo := todo - {id};
    }
    return true;
  }

  ghost predicate Pairs(entries: seq<Entry>, commits: seq<Commit>, p: (Entry, Commit) -> bool) {
    forall i, k | 0 <= i < |commits| && 0 <= k < |entries| && entries[k].consumed.Some?
                  && entries[k].consumed.value.operation == commits[i].expireOperationId ::
      p(entries[k], commits[i])
  }

  /** What holds of each operation's tombstone and commit holds of every matching pair of records. */
  lemma MatchingPairs(entries: seq<Entry>, commits: seq<Commit>, tombstones: map<Digest, Entry>,
                      byOperation: map<Digest, Commit>, p: (Entry, Commit) -> bool)
    requires Indexes(byOperation, commits, CommitOperation) && AreTombstones(tombstones, entries)
    requires tombstones.Keys == byOperation.Keys
    ensures (forall id | id in byOperation :: p(tombstones[id], byOperation[id])) <==> Pairs(entries, commits, p)
  {
    if id :| id in byOperation && !p(tombstones[id], byOperation[id]) {
      var k :| 0 <= k < |entries| && entries[k] == tombstones[id];
      var i :| 0 <= i < |commits| && commits[i] == byOperation[id];
      assert CommitOperation(commits[i]) == id;
    } else {
      forall i | 0 <= i < |commits|
        ensures CommitOperation(commits[i]) in byOperation && byOperation[commits[i].expireOperationId] == commits[i]
      {
        assert CommitOperation(commits[i]) in byOperation;
      }
    }
  }

  ghost function EvidentIn(s: Snapshot): (Entry, Commit) -> bool {
    (e, c) => Evident(s, e, c)
  }

  lemma PairsAreEvident(s: Snapshot)
    ensures Pairs(s.ledger.entries, s.commits, EvidentIn(s)) <==> ValidCommitEvidence(s)
  {
  }

  lemma EvidenceDecided(s: Snapshot, byOperation: map<Digest, Commit>, tombstones: map<Digest, Entry>)
    requires Indexes(byOperation, s.commits, CommitOperation) && AreTombstones(tombstones, s.ledger.entries)
    requires tombstones.Keys == byOperation.Keys
    ensures AllEvident(s, byOperation, tombstones) <==> ValidCommitEvidence(s)
  {
    PairsAreEvident(s);
    MatchingPairs(s.ledger.entries, s.commits, tombstones, byOperation, EvidentIn(s));
    assert AllEvident(s, byOperation, tombstones)
      <==> forall id | id in byOperation :: EvidentIn(s)(tombstones[id], byOperation[id]);
  }

  lemma RecordsDecided(s: Snapshot, byOperation: map<Digest, Commit>)
    requires Indexes(byOperation, s.commits, CommitOperation)
    ensures AllRecorded(s, byOperation) <==> forall i | 0 <= i < |s.commits| :: Recorded(s, s.commits[i])
  {
    if forall i | 0 <= i < |s.commits| :: Recorded(s, s.commits[i]) {
      forall id | id in byOperation ensures Recorded(s, byOperation[id]) {
        var i :| 0 <= i < |s.commits| && s.commits[i] == byOperation[id];
      }
    } else {
      var i :| 0 <= i < |s.commits| && !Recorded(s, s.commits[i]);
      assert CommitOperation(s.commits[i]) in byOperation;
    }
  }

  method CheckEvents(events: seq<Event>, sink: Sink) returns (ok: bool)
    ensures ok <==> forall i | 0 <= i < |events| :: events[i].sink == sink && ValidEvent(events[i])
  {
    for i := 0 to |events|
      invariant forall k | 0 <= k < i :: events[k].sink == sink && ValidEvent(events[k])
    {
      if events[i].sink != sink || !ValidEvent(events[i]) {
        return false;
      }
    }
    return true;
  }

  ghost predicate ValidRecords(s: Snapshot) {
    ValidEvents(s.audit, AUDIT, s.commits) && ValidEvents(s.outbox, OUTBOX, s.commits)
  }

  /** The two record ledgers, once every commit is known to be recorded once in each. */
  method CheckRecords(s: Snapshot) returns (ok: bool)
    ensures ok && (forall i | 0 <= i < |s.commits| :: Recorded(s, s.commits[i])) <==> ValidRecords(s)
  {
    if |s.audit| != |s.commits| || |s.outbox| != |s.commits| {
      return false;
    }
    ok := CheckEvents(s.audit, AUDIT);
    if ok {
      ok := CheckEvents(s.outbox, OUTBOX);
    }
    assert forall i | 0 <= i < |s.commits| && Recorded(s, s.commits[i]) ::
        multiset(s.audit)[EventOf(AUDIT, s.commits[i])] == 1 && multiset(s.outbox)[EventOf(OUTBOX, s.commits[i])] == 1;
  }

  /** Commits, their tombstones and their records. */
  method CheckCommitted(s: Snapshot, byOperation: map<Digest, Commit>) returns (ok: bool)
    requires Indexes(byOperation, s.commits, CommitOperation)
    ensures ok <==> ValidTombstones(s.ledger.entries, s.commits) && ValidCommitEvidence(s) && ValidRecords(s)
  {
    var tombstones;
    ok, tombstones := CollectTombstones(s.ledger.entries);
    if !ok {
      return;
    }
    TombstoneKeys(tombstones, s.ledger.entries, byOperation, s.commits);
    if tombstones.Keys != byOperation.Keys {
      return false;
    }
    EvidenceDecided(s, byOperation, tombstones);
    RecordsDecided(s, byOperation);
    var evident := CheckCommits(s, byOperation, tombstones);
    var recorded := CheckRecords(s);
    ok := evident && recorded;
  }

  method ValidateSnapshot(s: Snapshot) returns (ok: bool)
    ensures ok <==> ValidSnapshot(s)
  {
    if !ValidHold(s.hold) {
      return false;
    }
    ok := ValidateLedger(s.ledger);
    if !ok {
      return;
    }
    EntriesAgreeIsValid(s.ledger);
    ok := CheckHoldCandidate(s.hold, s.ledger);
    if !ok {
      return;
    }
    CommitsDecided(s.commits);
    var byOperation;
    ok, byOperation := Index(s.commits, CommitOperation, ValidCommit);
    if !ok {
      return;
    }
    ok := CheckClaimEvidence(s, byOperation);
    if !ok {
      return;
    }
    ok := CheckCommitted(s, byOperation);
  }
}
