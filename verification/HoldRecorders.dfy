/** `_record_scan` and `_record_replay_claim` as the program runs them, proved equal to the model's. */
module HoldRecorders {
  import opened Wrappers
  import opened HoldModel
  import opened HoldTransitions
  import opened HoldValidators

  method CheckAllocated(allocations: seq<Allocation>, request: ScanRequest, candidates: seq<Candidate>) returns (ok: bool)
    ensures ok <==> AllocatedTo(allocations, request, candidates)
  {
    if |allocations| != |candidates| {
      return false;
    }
    for i := 0 to |allocations|
      invariant forall k | 0 <= k < i ::
                  ValidAllocation(allocations[k]) && allocations[k].request == request && allocations[k].candidate == candidates[k]
    {
      if !ValidAllocation(allocations[i]) || allocations[i].request != request || allocations[i].candidate != candidates[i] {
        return false;
      }
    }
    return true;
  }

  /** Every bearer in the ledger, in either role. */
  method CollectBearers(entries: seq<Entry>) returns (used: set<Token>)
    ensures AreBearers(used, entries)
  {
    used := {};
    for i := 0 to |entries|
      invariant AreBearers(used, entries[..i])
    {
      AddBearers(used, entries[..i], entries[i]);
      PrefixStep(entries, i);
      used := used + {entries[i].candidate.leaseId, entries[i].candidate.token};
    }
    assert entries[..|entries|] == entries;
  }

  /** The entries that the append loop has produced so far. */
  function EntriesSoFar(l: Ledger, candidates: seq<Candidate>, i: nat): (r: seq<Entry>)
    requires i <= |candidates|
    ensures |r| == |l.entries| + i
    ensures forall e | 0 <= e < |l.entries| :: r[e] == l.entries[e]
    ensures forall j | 0 <= j < i :: r[|l.entries| + j] == Entry(candidates[j], None)
  {
    l.entries + NewEntries(candidates[..i])
  }

  lemma UnusedSoFar(l: Ledger, candidates: seq<Candidate>, i: nat, c: Candidate)
    requires i <= |candidates|
    ensures var before := EntriesSoFar(l, candidates, i);
      (forall k | 0 <= k < |before| :: !SharesBearer(before[k].candidate, c))
      <==> Unused(c, l) && forall j | 0 <= j < i :: !SharesBearer(c, candidates[j])
  {
    var before := EntriesSoFar(l, candidates, i);
    if Unused(c, l) && forall j | 0 <= j < i :: !SharesBearer(c, candidates[j]) {
      forall k | 0 <= k < |before| ensures !SharesBearer(before[k].candidate, c) {
        assert k >= |l.entries| ==> before[k] == Entry(candidates[k - |l.entries|], None);
      }
    }
    if forall k | 0 <= k < |before| :: !SharesBearer(before[k].candidate, c) {
      forall e | 0 <= e < |l.entries| ensures !SharesBearer(c, l.entries[e].candidate) {
        assert before[e] == l.entries[e];
      }
      forall j | 0 <= j < i ensures !SharesBearer(c, candidates[j]) {
        assert before[|l.entries| + j].candidate == candidates[j];
      }
    }
  }

  lemma BearersSoFar(l: Ledger, candidates: seq<Candidate>, i: nat, used: set<Token>)
    requires i < |candidates|
    ensures AreBearers(used, EntriesSoFar(l, candidates, i))
        ==> AreBearers(used + {candidates[i].leaseId, candidates[i].token}, EntriesSoFar(l, candidates, i + 1))
  {
    AddBearers(used, EntriesSoFar(l, candidates, i), Entry(candidates[i], None));
    assert EntriesSoFar(l, candidates, i + 1) == EntriesSoFar(l, candidates, i) + [Entry(candidates[i], None)];
  }

  ghost predicate AppendableBelow(l: Ledger, candidates: seq<Candidate>, allocations: seq<Allocation>, i: nat)
    requires i <= |candidates| == |allocations|
  {
    forall k | 0 <= k < i :: Appendable(l, candidates, allocations, k)
  }

  /** The set of bearers used by the ledger and by the first candidates decides `Appendable`. */
  lemma AppendableDecided(l: Ledger, candidates: seq<Candidate>, allocations: seq<Allocation>, i: nat, used: set<Token>)
    requires i < |candidates| == |allocations| && AreBearers(used, EntriesSoFar(l, candidates, i))
    ensures Appendable(l, candidates, allocations, i)
       <==> && allocations[i].previousHighWater == HighWaterBefore(l.highWater, candidates, i) < candidates[i].fence
            && candidates[i].leaseId !in used && candidates[i].token !in used
            && candidates[i].leaseId != candidates[i].token
  {
    UnusedSoFar(l, candidates, i, candidates[i]);
    AddBearers(used, EntriesSoFar(l, candidates, i), Entry(candidates[i], None));
  }

  lemma AppendableStep(l: Ledger, candidates: seq<Candidate>, allocations: seq<Allocation>, i: nat)
    requires i < |candidates| == |allocations|
    ensures AppendableBelow(l, candidates, allocations, i + 1)
       <==> AppendableBelow(l, candidates, allocations, i) && Appendable(l, candidates, allocations, i)
    ensures AllAppendable(l, candidates, allocations) ==> AppendableBelow(l, candidates, allocations, i + 1)
  {
  }

  lemma NewRecordsStep(request: ScanRequest, result: ScanResult, candidates: seq<Candidate>, i: nat)
    requires i < |candidates|
    ensures NewEntries(candidates[..i + 1]) == NewEntries(candidates[..i]) + [Entry(candidates[i], None)]
    ensures NewSeals(request, result, candidates[..i + 1])
         == NewSeals(request, result, candidates[..i]) + [SealOf(request, result, candidates[i])]
  {
  }

  /** The append loop of `_record_scan`. */
  method AppendCandidates(l: Ledger, request: ScanRequest, result: ScanResult, allocations: seq<Allocation>)
    returns (ok: bool, nextHighWater: int, entries: seq<Entry>, seals: seq<Seal>)
    requires |allocations| == |result.candidates|
    ensures ok <==> AllAppendable(l, result.candidates, allocations)
    ensures ok ==> nextHighWater == HighWaterBefore(l.highWater, result.candidates, |result.candidates|)
    ensures ok ==> entries == NewEntries(result.candidates)
    ensures ok ==> seals == NewSeals(request, result, result.candidates)
  {
    var cs := result.candidates;
    var used := CollectBearers(l.entries);
    ok, nextHighWater, entries, seals := true, l.highWater, [], [];
    assert EntriesSoFar(l, cs, 0) == l.entries;
    for i := 0 to |cs|
      invariant ok
      invariant ok == AppendableBelow(l, cs, allocations, i)
      invariant nextHighWater == HighWaterBefore(l.highWater, cs, i)
      invariant AreBearers(used, EntriesSoFar(l, cs, i))
      invariant entries == NewEntries(cs[..i]) && seals == NewSeals(request, result, cs[..i])
    {
      var c := cs[i];
      AppendableDecided(l, cs, allocations, i, used);
      AppendableStep(l, cs, allocations, i);
      BearersSoFar(l, cs, i, used);
      NewRecordsStep(request, result, cs, i);
      if allocations[i].previousHighWater != nextHighWater || c.leaseId in used || c.token in used
         || c.leaseId == c.token || c.fence <= nextHighWater
      {
        ok := false;
        return;
      }
      used := used + {c.leaseId, c.token};
      nextHighWater := c.fence;
      entries := entries + [Entry(c, None)];
      seals := seals + [SealOf(request, result, c)];
    }
    assert cs[..|cs|] == cs;
  }

  lemma StoredInPairs(l: Ledger)
    ensures ValidLedger(l) ==> |l.scanRequests| == |l.scanResults| && |l.claimRequests| == |l.claimResults|
  {
  }

  method FindStoredScan(l: Ledger, id: Digest) returns (r: Option<nat>)
    ensures r == FindScan(l, id)
  {
    for i := 0 to |l.scanRequests|
      invariant forall k | 0 <= k < i :: l.scanRequests[k].scanOperationId != id
    {
      if l.scanRequests[i].scanOperationId == id {
        return Some(i);
      }
    }
    return None;
  }

  method PersistScan(l: Ledger, request: ScanRequest, result: ScanResult, allocations: seq<Allocation>)
    returns (r: Result<Ledger, Failure>)
    ensures r == RecordScan(l, request, result, allocations)
  {
    hide ValidLedger, ValidScanResultFor, AllAppendable;
    var ok := ValidateLedger(l);
    if !ok {
      return Err(Rejected(LedgerBefore));
    }
    if !ValidScanResultFor(result, request) {
      return Err(Rejected(IssuedRecord));
    }
    ok := CheckAllocated(allocations, request, result.candidates);
    if !ok {
      return Err(Rejected(AllocationProof));
    }
    StoredInPairs(l);
    var stored := FindStoredScan(l, request.scanOperationId);
    if stored.Some? {
      var i := stored.value;
      if l.scanRequests[i] == request && l.scanResults[i] == result
         && PersistedAllocations(l.allocations, result.candidates) == allocations
      {
        return Ok(l);
      }
      return Err(Refused(IdReused));
    }
    var highWater, entries, seals;
    ok, highWater, entries, seals := AppendCandidates(l, request, result, allocations);
    if !ok {
      return Err(Refused(BearerReused));
    }
    var updated := l.(highWater := highWater,
                      scanRequests := l.scanRequests + [request],
                      scanResults := l.scanResults + [result],
                      entries := l.entries + entries,
                      seals := l.seals + seals,
                      allocations := l.allocations + allocations);
    ok := ValidateLedger(updated);
    return if ok then Ok(updated) else Err(Rejected(LedgerAfter));
  }

  method FindStoredClaim(l: Ledger, id: Digest) returns (r: Option<nat>)
    ensures r == FindClaim(l, id)
  {
    for i := 0 to |l.claimRequests|
      invariant forall k | 0 <= k < i :: l.claimRequests[k].replayOperationId != id
    {
      if l.claimRequests[i].replayOperationId == id {
        return Some(i);
      }
    }
    return None;
  }

  /** Replaces the operation's pointer where it stands, or appends one. */
  method Repoint(pointers: seq<Pointer>, request: ClaimRequest, result: ClaimResult, ghost l: Ledger)
    returns (updated: seq<Pointer>, pointer: Pointer)
    requires pointers == l.pointers
    ensures pointer == PointerOf(Claim(request, result), NextRevision(l, request.expireOperationId))
    ensures updated == WithPointer(l, pointer)
  {
    var existing: Option<nat> := None;
    for i := 0 to |pointers|
      invariant match existing
                case None => forall k | 0 <= k < i :: pointers[k].expireOperationId != request.expireOperationId
                case Some(p) => FindPointer(l, request.expireOperationId) == Some(p)
    {
      if existing.None? && pointers[i].expireOperationId == request.expireOperationId {
        existing := Some(i);
      }
    }
    var revision := if existing.Some? then pointers[existing.value].revision + 1 else 1;
    pointer := PointerOf(Claim(request, result), revision);
    updated := if existing.Some? then pointers[existing.value := pointer] else pointers + [pointer];
  }

  method CheckUnused(c: Candidate, l: Ledger) returns (ok: bool)
    ensures ok <==> Unused(c, l)
  {
    var used := CollectBearers(l.entries);
    AddBearers(used, l.entries, Entry(c, None));
    return c.leaseId !in used && c.token !in used;
  }

  method PersistNewClaim(l: Ledger, request: ClaimRequest, result: ClaimResult) returns (r: Result<Ledger, Failure>)
    ensures r == StoreClaim(l, request, result)
  {
    var c := result.candidate;
    var ok := CheckUnused(c, l);
    if !ok || c.leaseId == c.token || c.fence <= l.highWater {
      return Err(Refused(BearerReused));
    }
    var pointers, pointer := Repoint(l.pointers, request, result, l);
    if !ValidPointer(pointer) {
      return Err(Refused(OutOfRange));
    }
    var updated := l.(highWater := c.fence,
                      claimRequests := l.claimRequests + [request],
                      claimResults := l.claimResults + [result],
                      entries := l.entries + [Entry(c, None)],
                      pointers := pointers);
    ok := ValidateLedger(updated);
    return if ok then Ok(updated) else Err(Rejected(LedgerAfter));
  }

  method PersistClaim(l: Ledger, request: ClaimRequest, result: ClaimResult) returns (r: Result<Ledger, Failure>)
    ensures r == RecordClaim(l, request, result)
  {
    hide ValidLedger, ValidClaimResultFor, StoreClaim;
    var ok := ValidateLedger(l);
    if !ok {
      return Err(Rejected(LedgerBefore));
    }
    if !ValidClaimResultFor(result, request) {
      return Err(Rejected(IssuedRecord));
    }
    StoredInPairs(l);
    var stored := FindStoredClaim(l, request.replayOperationId);
    if stored.Some? {
      var i := stored.value;
      return if l.claimRequests[i] == request && l.claimResults[i] == result then Ok(l) else Err(Refused(IdReused));
    }
    r := PersistNewClaim(l, request, result);
  }
}
