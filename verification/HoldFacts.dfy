/** What holds of every ledger and snapshot that `validate` accepts, whether or not a run leads to it. */
module HoldFacts {
  import opened Wrappers
  import opened Text
  import opened HoldModel
  import opened HoldTransitions
  import Sorting

  /******* The candidate projection *******/

  /** Entry k qualifies, no qualifying fence is larger, and none before it is as large. */
  ghost predicate LargestAt(entries: seq<Entry>, claims: seq<ClaimResult>, h: Hold, k: int) {
    && 0 <= k < |entries| && Qualifies(entries[k], claims, h)
    && (forall i | 0 <= i < |entries| && Qualifies(entries[i], claims, h) ::
          entries[i].candidate.fence <= entries[k].candidate.fence)
    && (forall i | 0 <= i < k && Qualifies(entries[i], claims, h) ::
          entries[i].candidate.fence < entries[k].candidate.fence)
  }

  ghost predicate IsLargest(entries: seq<Entry>, claims: seq<ClaimResult>, h: Hold, c: Candidate) {
    exists k :: LargestAt(entries, claims, h, k) && entries[k].candidate == c
  }

  /** `Latest` is the first of the qualifying candidates with the largest fence, if any qualifies. */
  lemma {:induction false} LatestIsLargest(entries: seq<Entry>, claims: seq<ClaimResult>, h: Hold)
    ensures match Latest(entries, claims, h)
            case None => forall i | 0 <= i < |entries| :: !Qualifies(entries[i], claims, h)
            case Some(c) => IsLargest(entries, claims, h, c)
  {
    hide Qualifies;
    if entries != [] {
      var n := |entries| - 1;
      LatestIsLargest(entries[..n], claims, h);
      if Latest(entries, claims, h) == Latest(entries[..n], claims, h) {
        if Latest(entries, claims, h).Some? {
          var k :| LargestAt(entries[..n], claims, h, k)
                   && entries[..n][k].candidate == Latest(entries, claims, h).value;
          assert LargestAt(entries, claims, h, k);
        }
      } else {
        assert forall i | 0 <= i < n :: entries[..n][i] == entries[i];
        assert LargestAt(entries, claims, h, n);
      }
    }
  }

  /** A qualifying entry that carries the largest fence of all is the latest. */
  lemma LatestIsLast(entries: seq<Entry>, claims: seq<ClaimResult>, h: Hold)
    requires entries != [] && Qualifies(entries[|entries| - 1], claims, h)
    requires forall i | 0 <= i < |entries| - 1 :: entries[i].candidate.fence < entries[|entries| - 1].candidate.fence
    ensures Latest(entries, claims, h) == Some(entries[|entries| - 1].candidate)
  {
    hide Qualifies;
    var n := |entries| - 1;
    LatestIsLargest(entries, claims, h);
    assert Qualifies(entries[n], claims, h);
    var k :| LargestAt(entries, claims, h, k) && Latest(entries, claims, h) == Some(entries[k].candidate);
    assert entries[n].candidate.fence <= entries[k].candidate.fence;
  }

  /******* One more candidate *******/

  /** The fence of the last entry: what provenance compares the high-water with. */
  function LastFence(entries: seq<Entry>): int {
    if entries == [] then 0 else entries[|entries| - 1].candidate.fence
  }

  /** The stored candidates and the entries are the same ones. */
  lemma PersistedAreEntries(l: Ledger)
    requires |l.scanRequests| == |l.scanResults| && ValidProjection(l)
    ensures forall c :: c in PersistedCandidates(l) <==> c in EntryCandidates(l.entries)
  {
    Sorting.SortPermutes(Sorting.ByKey(CandidateFence), PersistedCandidates(l));
  }

  lemma PersistedEntry(l: Ledger, c: Candidate) returns (k: nat)
    requires |l.scanRequests| == |l.scanResults| && ValidProjection(l) && c in PersistedCandidates(l)
    ensures k < |l.entries| && l.entries[k].candidate == c
  {
    hide PersistedCandidates, ValidProjection;
    PersistedAreEntries(l);
    k :| 0 <= k < |EntryCandidates(l.entries)| && EntryCandidates(l.entries)[k] == c;
  }

  /** Entry `c` is appended behind all others, with two bearers that nobody has. */
  ghost predicate Grows(l: Ledger, l': Ledger, c: Candidate) {
    && l'.entries == l.entries + [Entry(c, None)] && l'.highWater == c.fence
    && ValidCandidate(c) && l.highWater < c.fence && Unused(c, l)
  }

  lemma GrownEntries(l: Ledger, l': Ledger, c: Candidate)
    requires ValidEntries(l) && Grows(l, l', c)
    ensures ValidEntries(l')
  {
  }

  lemma GrownProjection(l: Ledger, l': Ledger, c: Candidate)
    requires |l.scanRequests| == |l.scanResults| && |l'.scanRequests| == |l'.scanResults|
    requires ValidEntries(l) && ValidProjection(l) && Grows(l, l', c)
    requires PersistedCandidates(l') == PersistedCandidates(l) + [c]
    ensures ValidProjection(l')
  {
    hide PersistedCandidates;
    var persisted := PersistedCandidates(l);
    forall i | 0 <= i < |persisted| ensures !Sorting.ByKey(CandidateFence)(c, persisted[i]) {
      var k := PersistedEntry(l, persisted[i]);
      assert l.entries[k].candidate.fence <= l.highWater;
      assert CandidateFence(persisted[i]) < CandidateFence(c);
    }
    Sorting.SortAppends(Sorting.ByKey(CandidateFence), persisted, c);
    assert EntryCandidates(l'.entries) == EntryCandidates(l.entries) + [c];
  }

  lemma GrownProvenance(entries: seq<Entry>, e: Entry, a: Allocation)
    requires HasProvenance(entries, a)
    ensures HasProvenance(entries + [e], a)
  {
    var k :| 0 <= k < |entries| && AllocatedAt(entries, a, k);
    assert AllocatedAt(entries + [e], a, k);
  }

  /** A new bearer is on no stored candidate either. */
  lemma UnusedIsUnpersisted(l: Ledger, c: Candidate)
    requires |l.scanRequests| == |l.scanResults| && ValidProjection(l) && Unused(c, l)
    ensures forall d | d in PersistedCandidates(l) :: !SharesBearer(c, d)
  {
    hide PersistedCandidates, ValidProjection;
    forall d | d in PersistedCandidates(l) ensures !SharesBearer(c, d) {
      var k := PersistedEntry(l, d);
    }
  }

  /******* ACTIVE holds *******/

  /** Claims belong to an expired hold. */
  lemma ActiveHasNoClaims(s: Snapshot)
    requires ValidSnapshot(s) && s.hold.status == ACTIVE
    ensures s.ledger.claimRequests == [] && s.ledger.claimResults == []
  {
    if s.ledger.claimRequests != [] {
      var follows := FollowsSomeCommit(s.ledger.claimRequests[0], s.ledger.claimResults[0], s.commits, s.hold);
    }
  }

  /** Whatever has been consumed was for another hold. */
  lemma ActiveIsUnconsumed(s: Snapshot, k: nat)
    requires ValidSnapshot(s) && s.hold.status == ACTIVE
    requires k < |s.ledger.entries| && s.ledger.entries[k].consumed.Some?
    ensures var d := s.ledger.entries[k].candidate.due;
      !(d.artifactId == s.hold.artifactId && d.holdId == s.hold.holdId)
  {
    var operation := s.ledger.entries[k].consumed.value.operation;
    assert operation in ConsumedOperations(s.ledger.entries);
    var i :| 0 <= i < |s.commits| && s.commits[i].expireOperationId == operation;
    assert CommitMatchesEntry(s.commits[i], s.ledger.entries[k]);
    assert HoldReflects(s.hold, s.commits[i], s.ledger.entries[k].candidate);
  }

  /** An unconsumed entry leaves the tombstones as they are. */
  lemma UnconsumedTombstones(entries: seq<Entry>, e: Entry, commits: seq<Commit>)
    requires ValidTombstones(entries, commits) && e.consumed.None?
    ensures ValidTombstones(entries + [e], commits)
  {
    assert forall i | 0 <= i < |entries| :: (entries + [e])[i] == entries[i];
    forall id | id in ConsumedOperations(entries) ensures id in ConsumedOperations(entries + [e]) {
      var i :| 0 <= i < |entries| && entries[i].consumed.Some? && entries[i].consumed.value.operation == id;
      assert (entries + [e])[i].consumed.value.operation == id;
    }
    assert ConsumedOperations(entries + [e]) == ConsumedOperations(entries);
  }

  /******* Claims *******/

  /** The claims on one operation are the stored ones, whatever their order. */
  lemma {:induction false} ClaimsOnMembers(requests: seq<ClaimRequest>, results: seq<ClaimResult>, operation: Digest)
    requires |requests| == |results|
    ensures forall j | 0 <= j < |requests| && requests[j].expireOperationId == operation ::
              Claim(requests[j], results[j]) in ClaimsOn(requests, results, operation)
    ensures forall c | c in ClaimsOn(requests, results, operation) ::
              exists j | 0 <= j < |requests| :: c == Claim(requests[j], results[j])
  {
    if requests != [] {
      var last := |requests| - 1;
      ClaimsOnMembers(requests[..last], results[..last], operation);
      forall j | 0 <= j < |requests| && requests[j].expireOperationId == operation
        ensures Claim(requests[j], results[j]) in ClaimsOn(requests, results, operation)
      {
        if j < last {
          assert requests[..last][j] == requests[j] && results[..last][j] == results[j];
        }
      }
      forall c | c in ClaimsOn(requests, results, operation)
        ensures exists j | 0 <= j < |requests| :: c == Claim(requests[j], results[j])
      {
        if c in ClaimsOn(requests[..last], results[..last], operation) {
          var j :| 0 <= j < last && c == Claim(requests[..last][j], results[..last][j]);
          assert c == Claim(requests[j], results[j]);
        } else {
          assert c == Claim(requests[last], results[last]);
        }
      }
    }
  }

  lemma {:induction false} ClaimsOnOperation(requests: seq<ClaimRequest>, results: seq<ClaimResult>, operation: Digest)
    requires |requests| == |results|
    ensures forall c | c in ClaimsOn(requests, results, operation) :: c.request.expireOperationId == operation
  {
    if requests != [] {
      var last := |requests| - 1;
      ClaimsOnOperation(requests[..last], results[..last], operation);
    }
  }

  ghost function LastRanked(l: Ledger, operation: Digest): Option<Claim>
    requires |l.claimRequests| == |l.claimResults|
  {
    var ranked := RankedClaims(l, operation);
    if ranked == [] then None else Some(ranked[|ranked| - 1])
  }

  /** Claims are told apart by their IDs. */
  lemma SameIdSameClaim(l: Ledger, operation: Digest, c: Claim, d: Claim)
    requires ValidClaims(l)
    requires c in ClaimsOn(l.claimRequests, l.claimResults, operation)
    requires d in ClaimsOn(l.claimRequests, l.claimResults, operation)
    requires c.request.replayOperationId == d.request.replayOperationId
    ensures c == d
  {
    ClaimsOnMembers(l.claimRequests, l.claimResults, operation);
    var i :| 0 <= i < |l.claimRequests| && c == Claim(l.claimRequests[i], l.claimResults[i]);
    var j :| 0 <= j < |l.claimRequests| && d == Claim(l.claimRequests[j], l.claimResults[j]);
    assert i == j;
  }

  /** An operation with claims has its pointer, and it is to the claim ranked last. */
  lemma PointerOfRanked(l: Ledger, operation: Digest)
    requires |l.claimRequests| == |l.claimResults| && ValidPointers(l)
    ensures FindPointer(l, operation).None? <==> ClaimsOn(l.claimRequests, l.claimResults, operation) == []
    ensures FindPointer(l, operation).Some? ==> LastRanked(l, operation).Some?
    ensures FindPointer(l, operation).Some? ==>
              l.pointers[FindPointer(l, operation).value]
              == PointerOf(LastRanked(l, operation).value, |RankedClaims(l, operation)|)
  {
    hide ValidPointer;
    var claims, p := ClaimsOn(l.claimRequests, l.claimResults, operation), FindPointer(l, operation);
    if claims != [] {
      ClaimsOnMembers(l.claimRequests, l.claimResults, operation);
      ClaimsOnOperation(l.claimRequests, l.claimResults, operation);
      assert claims[0] in claims;
      var j :| 0 <= j < |l.claimRequests| && claims[0] == Claim(l.claimRequests[j], l.claimResults[j]);
      assert l.claimRequests[j].expireOperationId in ClaimedOperations(l.claimRequests);
      assert operation in PointedOperations(l.pointers);
    }
  }

  /** The claim that the stored pointer leads to is the one ranked last; the lookup never fails. */
  lemma CurrentClaimIsLast(l: Ledger, operation: Digest)
    requires ValidClaims(l) && ValidPointers(l)
    ensures CurrentClaim(l, operation) == Ok(LastRanked(l, operation))
  {
    hide ValidPointers;
    var claims := ClaimsOn(l.claimRequests, l.claimResults, operation);
    PointerOfRanked(l, operation);
    Sorting.SortPermutes(Sorting.ByKey(ClaimFence), claims);
    if claims != [] {
      var last, id := LastRanked(l, operation).value, l.pointers[FindPointer(l, operation).value].replayOperationId;
      assert last in RankedClaims(l, operation);
      var i := First(claims, (c: Claim) => c.request.replayOperationId == id);
      assert id == last.request.replayOperationId;
      assert i.Some?;
      SameIdSameClaim(l, operation, claims[i.value], last);
    }
  }

  /******* Checks that look at part of the ledger *******/

  lemma SameScans(l: Ledger, l': Ledger)
    requires l'.scanRequests == l.scanRequests && l'.scanResults == l.scanResults
    ensures ValidScans(l) <==> ValidScans(l')
  {
    hide ValidScanResultFor;
  }

  lemma SameClaims(l: Ledger, l': Ledger)
    requires l'.scanRequests == l.scanRequests
    requires l'.claimRequests == l.claimRequests && l'.claimResults == l.claimResults && l'.pointers == l.pointers
    ensures ValidClaims(l) ==> ValidClaims(l')
    ensures ValidClaims(l) && ValidTakeovers(l) ==> ValidTakeovers(l')
    ensures ValidClaims(l) && ValidPointers(l) ==> ValidPointers(l')
  {
    hide ValidClaimResultFor, ValidPointer, Adjacent;
  }

  /******* Commits *******/

  /** Every commit has its tombstone. */
  lemma CommittedTombstone(s: Snapshot, k: nat) returns (e: nat)
    requires ValidSnapshot(s) && k < |s.commits|
    ensures FindTombstone(s.ledger, s.commits[k].expireOperationId) == Some(e) && e < |s.ledger.entries|
    ensures s.ledger.entries[e].consumed.Some? && CommitMatchesEntry(s.commits[k], s.ledger.entries[e])
  {
    hide ValidHold, ValidLedger, ValidHoldCandidate, ValidClaimEvidence, ValidCommits, ValidEvents;
    hide CommitMatchesEntry, NothingNewer, HoldReflects;
    var operation := s.commits[k].expireOperationId;
    assert operation in CommittedOperations(s.commits) && operation in ConsumedOperations(s.ledger.entries);
    var i :| 0 <= i < |s.ledger.entries| && ConsumedBy(s.ledger.entries[i], operation);
    e := FindTombstone(s.ledger, operation).value;
  }

  /******* Claims in fence order *******/

  lemma {:induction false} DisjointFrom(claims: seq<Claim>, i: nat, j: nat)
    requires Adjacent(claims) && i < j < |claims|
    requires forall k | 0 <= k < |claims| :: claims[k].result.candidate.issuedAt < claims[k].result.candidate.leaseUntil
    ensures claims[i].result.candidate.leaseUntil <= claims[j].result.candidate.issuedAt
    decreases j
  {
    if i + 1 < j {
      DisjointFrom(claims, i, j - 1);
    }
  }

  lemma RankedMembers(l: Ledger, operation: Digest)
    requires |l.claimRequests| == |l.claimResults|
    ensures forall c :: c in RankedClaims(l, operation) <==> c in ClaimsOn(l.claimRequests, l.claimResults, operation)
    ensures Sorting.Ordered(Sorting.ByKey(ClaimFence), RankedClaims(l, operation))
  {
    var claims := ClaimsOn(l.claimRequests, l.claimResults, operation);
    Sorting.ByKeyIsOrder(ClaimFence);
    Sorting.SortPermutes(Sorting.ByKey(ClaimFence), claims);
    Sorting.SortOrders(Sorting.ByKey(ClaimFence), claims);
  }

  lemma RankOf(l: Ledger, j: nat) returns (a: nat)
    requires |l.claimRequests| == |l.claimResults| && j < |l.claimRequests|
    ensures var ranked := RankedClaims(l, l.claimRequests[j].expireOperationId);
      a < |ranked| && ranked[a] == Claim(l.claimRequests[j], l.claimResults[j])
  {
    var operation := l.claimRequests[j].expireOperationId;
    ClaimsOnMembers(l.claimRequests, l.claimResults, operation);
    RankedMembers(l, operation);
    a :| 0 <= a < |RankedClaims(l, operation)|
         && RankedClaims(l, operation)[a] == Claim(l.claimRequests[j], l.claimResults[j]);
  }

  lemma RankedLeases(l: Ledger, operation: Digest)
    requires ValidClaims(l)
    ensures var ranked := RankedClaims(l, operation);
      forall k | 0 <= k < |ranked| :: ranked[k].result.candidate.issuedAt < ranked[k].result.candidate.leaseUntil
  {
    var ranked := RankedClaims(l, operation);
    RankedMembers(l, operation);
    ClaimsOnMembers(l.claimRequests, l.claimResults, operation);
    forall k | 0 <= k < |ranked|
      ensures ranked[k].result.candidate.issuedAt < ranked[k].result.candidate.leaseUntil
    {
      assert ranked[k] in ranked;
      var j :| 0 <= j < |l.claimRequests| && ranked[k] == Claim(l.claimRequests[j], l.claimResults[j]);
      assert ValidClaimResultFor(l.claimResults[j], l.claimRequests[j]);
    }
  }

  /** Only the claim ranked last can still be live. */
  lemma EarlierClaimsEnd(l: Ledger, operation: Digest, j: nat)
    requires ValidClaims(l) && ValidTakeovers(l) && j < |l.claimRequests| && l.claimRequests[j].expireOperationId == operation
    ensures LastRanked(l, operation).Some?
    ensures l.claimResults[j].candidate.leaseUntil <= LastRanked(l, operation).value.result.candidate.leaseUntil
    ensures l.claimResults[j].candidate.fence <= LastRanked(l, operation).value.result.candidate.fence
  {
    hide ValidClaimResultFor;
    var ranked := RankedClaims(l, operation);
    var a := RankOf(l, j);
    RankedMembers(l, operation);
    RankedLeases(l, operation);
    assert Adjacent(ranked);
    if a < |ranked| - 1 {
      DisjointFrom(ranked, a, |ranked| - 1);
      assert !Sorting.ByKey(ClaimFence)(ranked[|ranked| - 1], ranked[a]);
      assert !(ClaimFence(ranked[|ranked| - 1]) < ClaimFence(ranked[a]));
    }
  }

  /** And it is one of the stored claims of its operation. */
  lemma LastIsStored(l: Ledger, operation: Digest) returns (j: nat)
    requires |l.claimRequests| == |l.claimResults| && LastRanked(l, operation).Some?
    ensures j < |l.claimRequests| && l.claimRequests[j].expireOperationId == operation
    ensures LastRanked(l, operation).value == Claim(l.claimRequests[j], l.claimResults[j])
  {
    var ranked := RankedClaims(l, operation);
    RankedMembers(l, operation);
    ClaimsOnMembers(l.claimRequests, l.claimResults, operation);
    ClaimsOnOperation(l.claimRequests, l.claimResults, operation);
    assert ranked[|ranked| - 1] in ranked;
    j :| 0 <= j < |l.claimRequests| && ranked[|ranked| - 1] == Claim(l.claimRequests[j], l.claimResults[j]);
  }
}
