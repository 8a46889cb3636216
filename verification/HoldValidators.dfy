/** The ledger validator as the program runs it: loops that fill dictionaries and sets in one pass.
    Each is proved to decide the pairwise conditions of the model. */
module HoldValidators {
  import opened Wrappers
  import opened Text
  import opened HoldModel
  import opened HoldTransitions
  import opened HoldFacts
  import opened HoldInvariant
  import Sorting

  /******* Dictionaries keyed once *******/

  ghost predicate Distinct<T, K>(xs: seq<T>, key: T -> K) {
    forall i, j | 0 <= i < j < |xs| :: key(xs[i]) != key(xs[j])
  }

  ghost predicate Indexes<T, K>(m: map<K, T>, xs: seq<T>, key: T -> K) {
    && (forall i | 0 <= i < |xs| :: key(xs[i]) in m && m[key(xs[i])] == xs[i])
    && (forall k | k in m :: m[k] in xs && key(m[k]) == k)
  }

  /** One more record either repeats a key or extends the dictionary. */
  lemma IndexStep<T, K>(m: map<K, T>, xs: seq<T>, x: T, key: T -> K)
    requires Distinct(xs, key) && Indexes(m, xs, key)
    ensures Distinct(xs + [x], key) <==> key(x) !in m
    ensures key(x) !in m ==> Indexes(m[key(x) := x], xs + [x], key)
  {
    var all := xs + [x];
    assert all[|xs|] == x;
    if key(x) in m {
      var k :| 0 <= k < |xs| && xs[k] == m[key(x)];
      assert key(all[k]) == key(all[|xs|]);
    }
  }

  ghost predicate AllValid<T>(xs: seq<T>, valid: T -> bool) {
    forall i | 0 <= i < |xs| :: valid(xs[i])
  }

  /** Records whose keys agree are related. */
  ghost predicate Agree<K, A, B>(xs: seq<A>, f: A -> K, ys: seq<B>, g: B -> K, p: (A, B) -> bool) {
    forall i, j | 0 <= i < |xs| && 0 <= j < |ys| && f(xs[i]) == g(ys[j]) :: p(xs[i], ys[j])
  }

  lemma PrefixStep<T>(xs: seq<T>, i: nat)
    requires i < |xs|
    ensures xs[..i + 1] == xs[..i] + [xs[i]]
  {
  }

  lemma DistinctPrefix<T, K>(xs: seq<T>, ys: seq<T>, key: T -> K)
    requires xs <= ys
    ensures Distinct(ys, key) ==> Distinct(xs, key)
  {
    assert forall i | 0 <= i < |xs| :: xs[i] == ys[i];
  }

  lemma AddValid<T>(xs: seq<T>, x: T, valid: T -> bool)
    requires AllValid(xs, valid)
    ensures AllValid(xs + [x], valid) <==> valid(x)
  {
    assert (xs + [x])[|xs|] == x;
  }

  /** Fills a dictionary from `xs`, refusing an invalid record or a key seen before. */
  method Index<T, K(==)>(xs: seq<T>, key: T -> K, valid: T -> bool) returns (ok: bool, m: map<K, T>)
    ensures ok <==> AllValid(xs, valid) && Distinct(xs, key)
    ensures ok ==> Indexes(m, xs, key)
  {
    ok, m := true, map[];
    for i := 0 to |xs|
      invariant ok
      invariant ok == (AllValid(xs[..i], valid) && Distinct(xs[..i], key) && Indexes(m, xs[..i], key))
    {
      IndexStep(m, xs[..i], xs[i], key);
      PrefixStep(xs, i);
      DistinctPrefix(xs[..i + 1], xs, key);
      AddValid(xs[..i], xs[i], valid);
      if !valid(xs[i]) || key(xs[i]) in m {
        return false, m;
      }
      m := m[key(xs[i]) := xs[i]];
    }
    assert xs[..|xs|] == xs;
  }

  /** The two dictionaries have the same keys, and `p` relates their items. */
  ghost predicate Fits<K, A, B>(left: map<K, A>, right: map<K, B>, p: (A, B) -> bool) {
    left.Keys == right.Keys && forall k | k in left :: p(left[k], right[k])
  }

  method CheckItems<K(==), A, B>(left: map<K, A>, right: map<K, B>, p: (A, B) -> bool) returns (ok: bool)
    ensures ok <==> Fits(left, right, p)
  {
    if left.Keys != right.Keys {
      return false;
    }
    var todo := right.Keys;
    while todo != {}
      invariant todo <= right.Keys
      invariant forall k | k in right.Keys - todo :: p(left[k], right[k])
    {
      var k :| k in todo;
      if !p(left[k], right[k]) {
        return false;
      }
      todo := todo - {k};
    }
    return true;
  }

  /** What the dictionaries say about each key, said of the records themselves. */
  lemma FitsRecords<K, A, B>(left: map<K, A>, xs: seq<A>, f: A -> K, right: map<K, B>, ys: seq<B>, g: B -> K, p: (A, B) -> bool)
    requires Indexes(left, xs, f) && Indexes(right, ys, g) && left.Keys == right.Keys
    ensures Fits(left, right, p) <==> Agree(xs, f, ys, g, p)
  {
    if !Fits(left, right, p) {
      var k :| k in left && !p(left[k], right[k]);
      var i :| 0 <= i < |xs| && xs[i] == left[k];
      var j :| 0 <= j < |ys| && ys[j] == right[k];
      assert f(xs[i]) == g(ys[j]);
    }
  }

  /******* The candidate ledger *******/

  function EvidenceLease(e: Evidence): Token {
    e.candidate.leaseId
  }

  function Issued(evidence: seq<Evidence>): seq<Candidate> {
    seq(|evidence|, i requires 0 <= i < |evidence| => evidence[i].candidate)
  }

  lemma IssuedStep(evidence: seq<Evidence>, request: ScanRequest, result: ScanResult)
    ensures Issued(evidence + EvidenceIn(request, result)) == Issued(evidence) + result.candidates
  {
  }

  lemma {:induction false} EvidencePrefix(requests: seq<ScanRequest>, results: seq<ScanResult>, i: nat)
    requires i <= |requests| == |results|
    ensures EvidenceOf(requests[..i], results[..i]) <= EvidenceOf(requests, results)
  {
    if i < |requests| {
      var last := |requests| - 1;
      EvidencePrefix(requests[..last], results[..last], i);
      assert requests[..last][..i] == requests[..i] && results[..last][..i] == results[..i];
    } else {
      assert requests[..i] == requests && results[..i] == results;
    }
  }

  lemma EvidenceStep(requests: seq<ScanRequest>, results: seq<ScanResult>, i: nat)
    requires i < |requests| == |results|
    ensures EvidenceOf(requests[..i + 1], results[..i + 1])
         == EvidenceOf(requests[..i], results[..i]) + EvidenceIn(requests[i], results[i])
  {
    assert requests[..i + 1][..i] == requests[..i] && results[..i + 1][..i] == results[..i];
  }

  /** The inner loop over one scan result. */
  method IndexResult(request: ScanRequest, result: ScanResult, before: map<Token, Evidence>, ghost evidence: seq<Evidence>)
    returns (ok: bool, byLease: map<Token, Evidence>)
    requires Distinct(evidence, EvidenceLease) && Indexes(before, evidence, EvidenceLease)
    ensures ok <==> Distinct(evidence + EvidenceIn(request, result), EvidenceLease)
    ensures ok ==> Indexes(byLease, evidence + EvidenceIn(request, result), EvidenceLease)
  {
    ok, byLease := true, before;
    ghost var all := evidence + EvidenceIn(request, result);
    assert all[..|evidence|] == evidence;
    for k := 0 to |result.candidates|
      invariant ok
      invariant ok == (Distinct(all[..|evidence| + k], EvidenceLease) && Indexes(byLease, all[..|evidence| + k], EvidenceLease))
    {
      var c := result.candidates[k];
      ghost var n := |evidence| + k;
      assert all[n] == Evidence(request, result, c);
      IndexStep(byLease, all[..n], all[n], EvidenceLease);
      PrefixStep(all, n);
      if c.leaseId in byLease {
        DistinctPrefix(all[..n + 1], all, EvidenceLease);
        return false, byLease;
      }
      byLease := byLease[c.leaseId := Evidence(request, result, c)];
    }
    assert all[..|all|] == all;
  }

  function ScanId(q: ScanRequest): Digest {
    q.scanOperationId
  }

  ghost predicate AreKeys<T, K>(ids: set<K>, xs: seq<T>, key: T -> K) {
    && (forall i | 0 <= i < |xs| :: key(xs[i]) in ids)
    && (forall id | id in ids :: exists i | 0 <= i < |xs| :: key(xs[i]) == id)
  }

  ghost predicate Matched<A, B>(xs: seq<A>, ys: seq<B>, p: (A, B) -> bool) {
    |xs| == |ys| && forall i | 0 <= i < |xs| :: p(xs[i], ys[i])
  }

  lemma AddMatch<A, B>(xs: seq<A>, ys: seq<B>, x: A, y: B, p: (A, B) -> bool)
    requires Matched(xs, ys, p)
    ensures Matched(xs + [x], ys + [y], p) <==> p(x, y)
  {
    assert (xs + [x])[|xs|] == x && (ys + [y])[|xs|] == y;
  }

  lemma AddKey<T, K>(ids: set<K>, xs: seq<T>, x: T, key: T -> K)
    requires Distinct(xs, key) && AreKeys(ids, xs, key)
    ensures Distinct(xs + [x], key) <==> key(x) !in ids
    ensures AreKeys(ids + {key(x)}, xs + [x], key)
  {
    var all := xs + [x];
    assert key(all[|xs|]) == key(x);
    forall id | id in ids ensures exists i | 0 <= i < |all| :: key(all[i]) == id {
      var i :| 0 <= i < |xs| && key(xs[i]) == id;
      assert key(all[i]) == id;
    }
    if key(x) in ids {
      var i :| 0 <= i < |xs| && key(xs[i]) == key(x);
      assert key(all[i]) == key(all[|xs|]);
    }
  }

  lemma MatchedPrefix<A, B>(xs: seq<A>, ys: seq<B>, p: (A, B) -> bool, i: nat)
    requires i <= |xs| == |ys|
    ensures Matched(xs, ys, p) ==> Matched(xs[..i], ys[..i], p)
  {
  }

  /** What the scan loop looks for. */
  ghost predicate ScansAgree(requests: seq<ScanRequest>, results: seq<ScanResult>)
    requires |requests| == |results|
  {
    && Matched(results, requests, ValidScanResultFor)
    && Distinct(requests, ScanId)
    && Distinct(EvidenceOf(requests, results), EvidenceLease)
  }

  lemma ScansAgreePrefix(requests: seq<ScanRequest>, results: seq<ScanResult>, i: nat)
    requires i <= |requests| == |results|
    ensures ScansAgree(requests, results) ==> ScansAgree(requests[..i], results[..i])
  {
    MatchedPrefix(results, requests, ValidScanResultFor, i);
    DistinctPrefix(requests[..i], requests, ScanId);
    EvidencePrefix(requests, results, i);
    DistinctPrefix(EvidenceOf(requests[..i], results[..i]), EvidenceOf(requests, results), EvidenceLease);
  }

  lemma ScansAgreeIsValid(l: Ledger)
    requires |l.scanRequests| == |l.scanResults|
    ensures ScansAgree(l.scanRequests, l.scanResults) <==> ValidScans(l)
  {
    if ValidScans(l) {
      assert Distinct(l.scanRequests, ScanId);
    }
  }

  method CheckScans(requests: seq<ScanRequest>, results: seq<ScanResult>)
    returns (ok: bool, byLease: map<Token, Evidence>, ids: set<Digest>, persisted: seq<Candidate>)
    requires |requests| == |results|
    ensures ok <==> ScansAgree(requests, results)
    ensures ok ==> Indexes(byLease, EvidenceOf(requests, results), EvidenceLease)
    ensures ok ==> persisted == Issued(EvidenceOf(requests, results))
    ensures ok ==> AreKeys(ids, requests, ScanId)
  {
    hide ValidScanResultFor, ValidScanRequest;
    ok, byLease, ids, persisted := true, map[], {}, [];
    ghost var evidence := [];
    for i := 0 to |requests|
      invariant ok
      invariant ok == ScansAgree(requests[..i], results[..i])
      invariant AreKeys(ids, requests[..i], ScanId)
      invariant evidence == EvidenceOf(requests[..i], results[..i])
      invariant Indexes(byLease, evidence, EvidenceLease)
      invariant persisted == Issued(evidence)
    {
      var request, result := requests[i], results[i];
      PrefixStep(requests, i);
      PrefixStep(results, i);
      AddMatch(results[..i], requests[..i], result, request, ValidScanResultFor);
      AddKey(ids, requests[..i], request, ScanId);
      EvidenceStep(requests, results, i);
      ok := ValidScanResultFor(result, request) && request.scanOperationId !in ids;
      if ok {
        ids := ids + {request.scanOperationId};
        ok, byLease := IndexResult(request, result, byLease, evidence);
        IssuedStep(evidence, request, result);
        evidence := evidence + EvidenceIn(request, result);
        persisted := persisted + result.candidates;
      }
      if !ok {
        ScansAgreePrefix(requests, results, i + 1);
        return;
      }
    }
    assert requests[..|requests|] == requests && results[..|results|] == results;
  }

  function SealLease(s: Seal): Token {
    s.leaseId
  }

  lemma SameLeases(byLease: map<Token, Seal>, seals: seq<Seal>, evidenceByLease: map<Token, Evidence>, evidence: seq<Evidence>)
    requires Indexes(byLease, seals, SealLease) && Indexes(evidenceByLease, evidence, EvidenceLease)
    ensures byLease.Keys == SealedLeases(seals) && evidenceByLease.Keys == EvidenceLeases(evidence)
  {
    assert forall i | 0 <= i < |seals| :: seals[i].leaseId == SealLease(seals[i]);
    assert forall i | 0 <= i < |evidence| :: evidence[i].candidate.leaseId == EvidenceLease(evidence[i]);
  }

  predicate SealFits(s: Seal, e: Evidence) {
    s == SealOf(e.request, e.result, e.candidate)
  }

  lemma SealsDecided(seals: seq<Seal>, evidence: seq<Evidence>)
    ensures ValidSeals(seals, evidence)
       <==> AllValid(seals, ValidSeal) && Distinct(seals, SealLease)
            && SealedLeases(seals) == EvidenceLeases(evidence)
            && Agree(seals, SealLease, evidence, EvidenceLease, SealFits)
  {
  }

  method CheckSeals(seals: seq<Seal>, evidenceByLease: map<Token, Evidence>, ghost evidence: seq<Evidence>) returns (ok: bool)
    requires Indexes(evidenceByLease, evidence, EvidenceLease)
    ensures ok <==> ValidSeals(seals, evidence)
  {
    SealsDecided(seals, evidence);
    var byLease;
    ok, byLease := Index(seals, SealLease, ValidSeal);
    if ok {
      SameLeases(byLease, seals, evidenceByLease, evidence);
      if byLease.Keys == evidenceByLease.Keys {
        FitsRecords(byLease, seals, SealLease, evidenceByLease, evidence, EvidenceLease, SealFits);
      }
      ok := CheckItems(byLease, evidenceByLease, SealFits);
    }
  }

  function AllocationLease(a: Allocation): Token {
    a.candidate.leaseId
  }

  predicate AllocationFits(a: Allocation, e: Evidence) {
    a.request == e.request && a.candidate == e.candidate
  }

  lemma SameAllocatedLeases(byLease: map<Token, Allocation>, allocations: seq<Allocation>,
                            evidenceByLease: map<Token, Evidence>, evidence: seq<Evidence>)
    requires Indexes(byLease, allocations, AllocationLease) && Indexes(evidenceByLease, evidence, EvidenceLease)
    ensures byLease.Keys == AllocatedLeases(allocations) && evidenceByLease.Keys == EvidenceLeases(evidence)
  {
    assert forall i | 0 <= i < |allocations| :: allocations[i].candidate.leaseId == AllocationLease(allocations[i]);
    assert forall i | 0 <= i < |evidence| :: evidence[i].candidate.leaseId == EvidenceLease(evidence[i]);
  }

  lemma AllocationsDecided(allocations: seq<Allocation>, evidence: seq<Evidence>)
    ensures ValidAllocations(allocations, evidence)
       <==> AllValid(allocations, ValidAllocation) && Distinct(allocations, AllocationLease)
            && AllocatedLeases(allocations) == EvidenceLeases(evidence)
            && Agree(allocations, AllocationLease, evidence, EvidenceLease, AllocationFits)
  {
  }

  method CheckAllocations(allocations: seq<Allocation>, evidenceByLease: map<Token, Evidence>, ghost evidence: seq<Evidence>)
    returns (ok: bool)
    requires Indexes(evidenceByLease, evidence, EvidenceLease)
    ensures ok <==> ValidAllocations(allocations, evidence)
  {
    AllocationsDecided(allocations, evidence);
    var byLease;
    ok, byLease := Index(allocations, AllocationLease, ValidAllocation);
    if ok {
      SameAllocatedLeases(byLease, allocations, evidenceByLease, evidence);
      if byLease.Keys == evidenceByLease.Keys {
        FitsRecords(byLease, allocations, AllocationLease, evidenceByLease, evidence, EvidenceLease, AllocationFits);
      }
      ok := CheckItems(byLease, evidenceByLease, AllocationFits);
    }
  }

  function ReplayId(q: ClaimRequest): Digest {
    q.replayOperationId
  }

  function ClaimCandidates(results: seq<ClaimResult>): seq<Candidate> {
    seq(|results|, j requires 0 <= j < |results| => results[j].candidate)
  }

  /** The claims of each operation, in stored order. */
  ghost predicate Groups(groups: map<Digest, seq<Claim>>, requests: seq<ClaimRequest>, results: seq<ClaimResult>)
    requires |requests| == |results|
  {
    && (forall id | id in groups :: groups[id] == ClaimsOn(requests, results, id) != [])
    && (forall id | id !in groups :: ClaimsOn(requests, results, id) == [])
  }

  function AddToGroup(groups: map<Digest, seq<Claim>>, claim: Claim): map<Digest, seq<Claim>> {
    var id := claim.request.expireOperationId;
    groups[id := (if id in groups then groups[id] else []) + [claim]]
  }

  lemma GroupStep(groups: map<Digest, seq<Claim>>, requests: seq<ClaimRequest>, results: seq<ClaimResult>,
                  request: ClaimRequest, result: ClaimResult)
    requires |requests| == |results| && Groups(groups, requests, results)
    ensures Groups(AddToGroup(groups, Claim(request, result)), requests + [request], results + [result])
  {
    var all, allResults := requests + [request], results + [result];
    assert all[..|requests|] == requests && allResults[..|requests|] == results;
    forall id
      ensures ClaimsOn(all, allResults, id)
           == ClaimsOn(requests, results, id) + if request.expireOperationId == id then [Claim(request, result)] else []
    {
    }
  }

  /** What the claim loop looks for. */
  ghost predicate ClaimsAgree(requests: seq<ClaimRequest>, results: seq<ClaimResult>, scanIds: set<Digest>)
  {
    && Matched(results, requests, ValidClaimResultFor)
    && Distinct(requests, ReplayId)
    && forall j | 0 <= j < |requests| :: ReplayId(requests[j]) !in scanIds
  }

  lemma ClaimsAgreeIsValid(l: Ledger, scanIds: set<Digest>)
    requires |l.claimRequests| == |l.claimResults| && AreKeys(scanIds, l.scanRequests, ScanId)
    ensures ClaimsAgree(l.claimRequests, l.claimResults, scanIds) <==> ValidClaims(l)
  {
    if ValidClaims(l) {
      assert Distinct(l.claimRequests, ReplayId);
    }
  }

  lemma ClaimsAgreePrefix(requests: seq<ClaimRequest>, results: seq<ClaimResult>, scanIds: set<Digest>, j: nat)
    requires j <= |requests| == |results|
    ensures ClaimsAgree(requests, results, scanIds) ==> ClaimsAgree(requests[..j], results[..j], scanIds)
  {
    MatchedPrefix(results, requests, ValidClaimResultFor, j);
    DistinctPrefix(requests[..j], requests, ReplayId);
  }

  /** The prefix with one more claim agrees exactly when the loop's checks pass. */
  lemma ClaimsAgreeStep(requests: seq<ClaimRequest>, results: seq<ClaimResult>, scanIds: set<Digest>, ids: set<Digest>, j: nat)
    requires j < |requests| == |results|
    requires ClaimsAgree(requests[..j], results[..j], scanIds) && AreKeys(ids, requests[..j], ReplayId)
    ensures AreKeys(ids + {ReplayId(requests[j])}, requests[..j + 1], ReplayId)
    ensures ClaimsAgree(requests[..j + 1], results[..j + 1], scanIds)
       <==> ValidClaimResultFor(results[j], requests[j]) && ReplayId(requests[j]) !in ids + scanIds
  {
    PrefixStep(requests, j);
    PrefixStep(results, j);
    AddMatch(results[..j], requests[..j], results[j], requests[j], ValidClaimResultFor);
    AddKey(ids, requests[..j], requests[j], ReplayId);
  }

  lemma ClaimCandidatesStep(results: seq<ClaimResult>, j: nat)
    requires j < |results|
    ensures ClaimCandidates(results[..j + 1]) == ClaimCandidates(results[..j]) + [results[j].candidate]
  {
  }

  /** What the loop has collected, with one more claim. */
  lemma ClaimLoopStep(groups: map<Digest, seq<Claim>>, persisted: seq<Candidate>, requests: seq<ClaimRequest>,
                      results: seq<ClaimResult>, issued: seq<Candidate>, j: nat)
    requires j < |requests| == |results|
    requires Groups(groups, requests[..j], results[..j])
    requires persisted == issued + ClaimCandidates(results[..j])
    ensures Groups(AddToGroup(groups, Claim(requests[j], results[j])), requests[..j + 1], results[..j + 1])
    ensures persisted + [results[j].candidate] == issued + ClaimCandidates(results[..j + 1])
  {
    hide Groups, AddToGroup;
    ClaimCandidatesStep(results, j);
    GroupStep(groups, requests[..j], results[..j], requests[j], results[j]);
    PrefixStep(requests, j);
    PrefixStep(results, j);
  }

  lemma NothingCollected(issued: seq<Candidate>, scanIds: set<Digest>)
    ensures Groups(map[], [], []) && ClaimsAgree([], [], scanIds) && issued == issued + ClaimCandidates([])
  {
  }

  method CheckClaims(requests: seq<ClaimRequest>, results: seq<ClaimResult>, scanIds: set<Digest>, issued: seq<Candidate>)
    returns (ok: bool, groups: map<Digest, seq<Claim>>, persisted: seq<Candidate>)
    requires |requests| == |results|
    ensures ok <==> ClaimsAgree(requests, results, scanIds)
    ensures ok ==> Groups(groups, requests, results)
    ensures ok ==> persisted == issued + ClaimCandidates(results)
  {
    hide Groups, AddToGroup, ClaimsAgree, ClaimCandidates, ValidClaimResultFor;
    NothingCollected(issued, scanIds);
    ok, groups, persisted := true, map[], issued;
    var ids := {};
    for j := 0 to |requests|
      invariant ok
      invariant ok == ClaimsAgree(requests[..j], results[..j], scanIds)
      invariant AreKeys(ids, requests[..j], ReplayId)
      invariant Groups(groups, requests[..j], results[..j])
      invariant persisted == issued + ClaimCandidates(results[..j])
    {
      var request, result := requests[j], results[j];
      ClaimsAgreeStep(requests, results, scanIds, ids, j);
      if !ValidClaimResultFor(result, request) || request.replayOperationId in ids
         || request.replayOperationId in scanIds
      {
        ClaimsAgreePrefix(requests, results, scanIds, j + 1);
        return false, groups, persisted;
      }
      ids := ids + {request.replayOperationId};
      ClaimLoopStep(groups, persisted, requests, results, issued, j);
      persisted := persisted + [result.candidate];
      groups := AddToGroup(groups, Claim(request, result));
    }
    assert requests[..|requests|] == requests && results[..|results|] == results;
  }

  method CheckAdjacent(ranked: seq<Claim>) returns (ok: bool)
    ensures ok <==> Adjacent(ranked)
  {
    if ranked == [] {
      return true;
    }
    for i := 1 to |ranked|
      invariant forall j, k | 0 <= j < k < i && k == j + 1 ::
                  ranked[j].result.candidate.leaseUntil <= ranked[k].result.candidate.issuedAt
    {
      if ranked[i].result.candidate.issuedAt < ranked[i - 1].result.candidate.leaseUntil {
        return false;
      }
    }
    return true;
  }

  lemma GroupKeys(groups: map<Digest, seq<Claim>>, requests: seq<ClaimRequest>, results: seq<ClaimResult>)
    requires |requests| == |results| && Groups(groups, requests, results)
    ensures groups.Keys == ClaimedOperations(requests)
  {
    forall id ensures id in groups <==> exists j | 0 <= j < |requests| :: requests[j].expireOperationId == id {
      ClaimsOnMembers(requests, results, id);
      if id in groups {
        assert ClaimsOn(requests, results, id)[0] in ClaimsOn(requests, results, id);
        var j :| 0 <= j < |requests| && ClaimsOn(requests, results, id)[0] == Claim(requests[j], results[j]);
        ClaimsOnOperation(requests, results, id);
        assert requests[j].expireOperationId == id;
      }
    }
  }

  function Ranked(claims: seq<Claim>): seq<Claim> {
    Sorting.SortBy(ClaimFence, claims)
  }

  method CheckTakeovers(groups: map<Digest, seq<Claim>>, l: Ledger) returns (ok: bool)
    requires |l.claimRequests| == |l.claimResults| && Groups(groups, l.claimRequests, l.claimResults)
    ensures ok <==> ValidTakeovers(l)
  {
    GroupKeys(groups, l.claimRequests, l.claimResults);
    var todo := groups.Keys;
    while todo != {}
      invariant todo <= groups.Keys
      invariant forall id | id in groups.Keys - todo :: Adjacent(RankedClaims(l, id))
    {
      var id :| id in todo;
      ok := CheckAdjacent(Ranked(groups[id]));
      if !ok {
        ghost var j :| 0 <= j < |l.claimRequests| && l.claimRequests[j].expireOperationId == id;
        return;
      }
      todo := todo - {id};
    }
    forall j | 0 <= j < |l.claimRequests| ensures Adjacent(RankedClaims(l, l.claimRequests[j].expireOperationId)) {
      assert l.claimRequests[j].expireOperationId in groups.Keys;
    }
    return true;
  }

  function PointedOperation(p: Pointer): Digest {
    p.expireOperationId
  }

  /** `validate_against` the highest-fence claim, and the revision check. */
  predicate PointsTo(p: Pointer, claims: seq<Claim>) {
    var ordered := Ranked(claims);
    && ordered != []
    && p == PointerOf(ordered[|ordered| - 1], p.revision)
    && p.revision == |claims|
  }

  lemma PointsToRanked(l: Ledger, p: Pointer)
    requires |l.claimRequests| == |l.claimResults|
    ensures var ranked := RankedClaims(l, p.expireOperationId);
      PointsTo(p, ClaimsOn(l.claimRequests, l.claimResults, p.expireOperationId))
      <==> ranked != [] && p == PointerOf(ranked[|ranked| - 1], |ranked|)
  {
  }

  ghost predicate AllPointTo(pointers: seq<Pointer>, groups: map<Digest, seq<Claim>>)
    requires forall i | 0 <= i < |pointers| :: pointers[i].expireOperationId in groups
  {
    forall i | 0 <= i < |pointers| :: PointsTo(pointers[i], groups[pointers[i].expireOperationId])
  }

  lemma FitsPointers(byOperation: map<Digest, Pointer>, pointers: seq<Pointer>, groups: map<Digest, seq<Claim>>)
    requires Indexes(byOperation, pointers, PointedOperation)
    ensures byOperation.Keys == PointedOperations(pointers)
    ensures Fits(byOperation, groups, PointsTo)
       <==> PointedOperations(pointers) == groups.Keys && AllPointTo(pointers, groups)
  {
    assert byOperation.Keys == PointedOperations(pointers) by {
      assert forall i | 0 <= i < |pointers| :: pointers[i].expireOperationId == PointedOperation(pointers[i]);
    }
    if Fits(byOperation, groups, PointsTo) {
      forall i | 0 <= i < |pointers| ensures PointsTo(pointers[i], groups[pointers[i].expireOperationId]) {
        assert PointedOperation(pointers[i]) in byOperation;
      }
    }
  }

  lemma PointersDecided(l: Ledger, groups: map<Digest, seq<Claim>>)
    requires |l.claimRequests| == |l.claimResults| && Groups(groups, l.claimRequests, l.claimResults)
    requires Distinct(l.pointers, PointedOperation) && AllValid(l.pointers, ValidPointer)
    requires groups.Keys == ClaimedOperations(l.claimRequests)
    ensures PointedOperations(l.pointers) == groups.Keys && AllPointTo(l.pointers, groups) <==> ValidPointers(l)
  {
    if PointedOperations(l.pointers) == groups.Keys {
      forall i | 0 <= i < |l.pointers|
        ensures var p := l.pointers[i];
          var ranked := RankedClaims(l, p.expireOperationId);
          && p.expireOperationId in PointedOperations(l.pointers)
          && (PointsTo(p, groups[p.expireOperationId]) <==> ranked != [] && p == PointerOf(ranked[|ranked| - 1], |ranked|))
      {
        assert l.pointers[i].expireOperationId in PointedOperations(l.pointers);
        PointsToRanked(l, l.pointers[i]);
      }
    }
  }

  lemma PointersIndexed(l: Ledger)
    requires |l.claimRequests| == |l.claimResults| && ValidPointers(l)
    ensures Distinct(l.pointers, PointedOperation) && AllValid(l.pointers, ValidPointer)
  {
  }

  method CheckPointers(l: Ledger, groups: map<Digest, seq<Claim>>) returns (ok: bool)
    requires |l.claimRequests| == |l.claimResults| && Groups(groups, l.claimRequests, l.claimResults)
    ensures ok <==> ValidPointers(l)
  {
    var byOperation;
    ok, byOperation := Index(l.pointers, PointedOperation, ValidPointer);
    if ok {
      GroupKeys(groups, l.claimRequests, l.claimResults);
      PointersDecided(l, groups);
      FitsPointers(byOperation, l.pointers, groups);
      ok := CheckItems(byOperation, groups, PointsTo);
    } else if ValidPointers(l) {
      PointersIndexed(l);
    }
  }

  /** The bearers used so far, in either role. */
  ghost predicate AreBearers(used: set<Token>, entries: seq<Entry>) {
    && (forall k | 0 <= k < |entries| :: entries[k].candidate.leaseId in used && entries[k].candidate.token in used)
    && (forall t | t in used ::
          exists k | 0 <= k < |entries| :: t in {entries[k].candidate.leaseId, entries[k].candidate.token})
  }

  lemma AddBearers(used: set<Token>, entries: seq<Entry>, e: Entry)
    ensures AreBearers(used, entries) ==> AreBearers(used + {e.candidate.leaseId, e.candidate.token}, entries + [e])
    ensures AreBearers(used, entries) ==>
              ((forall k | 0 <= k < |entries| :: !SharesBearer(entries[k].candidate, e.candidate))
               <==> e.candidate.leaseId !in used && e.candidate.token !in used)
  {
    var all := entries + [e];
    assert all[|entries|] == e;
    if AreBearers(used, entries) {
      forall t | t in used ensures exists k | 0 <= k < |all| :: t in {all[k].candidate.leaseId, all[k].candidate.token} {
        var k :| 0 <= k < |entries| && t in {entries[k].candidate.leaseId, entries[k].candidate.token};
        assert all[k] == entries[k];
      }
    }
  }

  ghost predicate NoSharing(entries: seq<Entry>) {
    forall i, j | 0 <= i < j < |entries| :: !SharesBearer(entries[i].candidate, entries[j].candidate)
  }

  ghost predicate Increasing(entries: seq<Entry>) {
    forall i, j | 0 <= i < j < |entries| :: entries[i].candidate.fence < entries[j].candidate.fence
  }

  ghost predicate WithinWater(entries: seq<Entry>, highWater: int) {
    forall i | 0 <= i < |entries| :: 0 < entries[i].candidate.fence <= highWater
  }

  /** What the entry loop looks for. */
  ghost predicate EntriesAgree(entries: seq<Entry>, highWater: int) {
    AllValid(entries, ValidEntry) && WithinWater(entries, highWater) && Increasing(entries) && NoSharing(entries)
  }

  lemma EntriesAgreeIsValid(l: Ledger)
    ensures EntriesAgree(l.entries, l.highWater) <==> ValidEntries(l)
  {
  }

  lemma EntriesAgreePrefix(entries: seq<Entry>, highWater: int, i: nat)
    requires i <= |entries|
    ensures EntriesAgree(entries, highWater) ==> EntriesAgree(entries[..i], highWater)
  {
  }

  lemma IncreasingStep(entries: seq<Entry>, e: Entry, highWater: int)
    requires Increasing(entries) && WithinWater(entries, highWater)
    ensures Increasing(entries + [e]) && WithinWater(entries + [e], highWater)
       <==> LastFence(entries) < e.candidate.fence <= highWater
  {
    var all := entries + [e];
    assert all[|entries|] == e;
    if entries != [] {
      assert all[|entries| - 1] == entries[|entries| - 1];
    }
  }

  lemma SharingStep(used: set<Token>, entries: seq<Entry>, e: Entry)
    requires AreBearers(used, entries) && NoSharing(entries)
    ensures NoSharing(entries + [e]) <==> e.candidate.leaseId !in used && e.candidate.token !in used
  {
    var all := entries + [e];
    AddBearers(used, entries, e);
    assert all[|entries|] == e;
    assert forall k | 0 <= k < |entries| :: all[k] == entries[k];
  }

  /** One turn of the entry loop. */
  lemma EntryStep(entries: seq<Entry>, highWater: int, i: nat, used: set<Token>)
    requires i < |entries|
    requires EntriesAgree(entries[..i], highWater) && AreBearers(used, entries[..i])
    ensures EntriesAgree(entries[..i + 1], highWater)
       <==> && ValidEntry(entries[i])
            && LastFence(entries[..i]) < entries[i].candidate.fence <= highWater
            && entries[i].candidate.leaseId !in used
            && entries[i].candidate.token !in used + {entries[i].candidate.leaseId}
    ensures AreBearers(used + {entries[i].candidate.leaseId, entries[i].candidate.token}, entries[..i + 1])
  {
    PrefixStep(entries, i);
    AddValid(entries[..i], entries[i], ValidEntry);
    IncreasingStep(entries[..i], entries[i], highWater);
    SharingStep(used, entries[..i], entries[i]);
    AddBearers(used, entries[..i], entries[i]);
  }

  lemma EntryCandidatesStep(entries: seq<Entry>, i: nat)
    requires i < |entries|
    ensures EntryCandidates(entries[..i + 1]) == EntryCandidates(entries[..i]) + [entries[i].candidate]
    ensures LastFence(entries[..i + 1]) == entries[i].candidate.fence
  {
  }

  lemma NoEntries(highWater: int)
    ensures EntriesAgree([], highWater) && AreBearers({}, []) && LastFence([]) == 0 && EntryCandidates([]) == []
  {
  }

  method CheckEntries(l: Ledger) returns (ok: bool, candidates: seq<Candidate>)
    ensures ok <==> EntriesAgree(l.entries, l.highWater)
    ensures ok ==> candidates == EntryCandidates(l.entries)
  {
    hide EntriesAgree, AreBearers, EntryCandidates, LastFence, ValidEntry;
    NoEntries(l.highWater);
    ok, candidates := true, [];
    var used, fences, previous := {}, {}, 0;
    for i := 0 to |l.entries|
      invariant ok
      invariant ok == EntriesAgree(l.entries[..i], l.highWater)
      invariant ok == AreBearers(used, l.entries[..i])
      invariant previous == LastFence(l.entries[..i])
      invariant forall f | f in fences :: f <= previous
      invariant candidates == EntryCandidates(l.entries[..i])
    {
      var e := l.entries[i];
      var c := e.candidate;
      EntryStep(l.entries, l.highWater, i, used);
      EntryCandidatesStep(l.entries, i);
      if !ValidEntry(e) || c.fence <= previous || c.leaseId in used || c.token in used + {c.leaseId}
         || c.fence in fences || l.highWater < c.fence
      {
        EntriesAgreePrefix(l.entries, l.highWater, i + 1);
        return false, candidates;
      }
      previous := c.fence;
      used := used + {c.leaseId, c.token};
      fences := fences + {c.fence};
      candidates := candidates + [c];
    }
    assert l.entries[..|l.entries|] == l.entries;
  }

  /** `entry_candidates.index(...)`, and the fence stored just before it. */
  method CheckProvenance(l: Ledger) returns (ok: bool)
    requires Increasing(l.entries)
    ensures ok <==> ValidProvenance(l)
  {
    for a := 0 to |l.allocations|
      invariant forall k | 0 <= k < a :: HasProvenance(l.entries, l.allocations[k])
    {
      var allocation := l.allocations[a];
      var index := First(l.entries, (e: Entry) => e.candidate == allocation.candidate);
      if index.None? {
        return false;
      }
      var expected := if index.value == 0 then 0 else l.entries[index.value - 1].candidate.fence;
      assert forall k | 0 <= k < |l.entries| && k != index.value :: l.entries[k].candidate != allocation.candidate;
      if allocation.previousHighWater != expected {
        assert !HasProvenance(l.entries, allocation);
        return false;
      }
      assert AllocatedAt(l.entries, allocation, index.value);
    }
    return true;
  }

  /** `ArtifactHoldExpiryLedgerState.validate`: one pass per collection decides every pairwise condition. */
  method ValidateLedger(l: Ledger) returns (ok: bool)
    ensures ok <==> ValidLedger(l)
  {
    if !SafeInteger(0, l.highWater) || |l.scanRequests| != |l.scanResults| || |l.claimRequests| != |l.claimResults| {
      return false;
    }
    ghost var evidence := EvidenceOf(l.scanRequests, l.scanResults);
    var byLease, scanIds, issued, groups, persisted, candidates;
    ScansAgreeIsValid(l);
    ok, byLease, scanIds, issued := CheckScans(l.scanRequests, l.scanResults);
    if !ok {
      return;
    }
    ok := CheckSeals(l.seals, byLease, evidence);
    if !ok {
      return;
    }
    ok := CheckAllocations(l.allocations, byLease, evidence);
    if !ok {
      return;
    }
    ClaimsAgreeIsValid(l, scanIds);
    ok, groups, persisted := CheckClaims(l.claimRequests, l.claimResults, scanIds, issued);
    if !ok {
      return;
    }
    ok := CheckTakeovers(groups, l);
    if !ok {
      return;
    }
    ok := CheckPointers(l, groups);
    if !ok {
      return;
    }
    EntriesAgreeIsValid(l);
    ok, candidates := CheckEntries(l);
    if !ok {
      return;
    }
    ok := CheckProvenance(l);
    if !ok {
      return;
    }
    assert persisted == PersistedCandidates(l);
    ok := candidates == Sorting.SortBy(CandidateFence, persisted);
  }
}
