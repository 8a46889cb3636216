/** Plans of dependent steps, and the checks a plan must pass before it is dispatched. */
module Plans {
  import opened Wrappers
  import opened Graphs

  datatype Status = PENDING | RUNNING | SUCCEEDED | FAILED

  class Step {
    const id: string
    const target: string
    const dependsOn: seq<string>
    var status: Status

    constructor (id: string, target: string, dependsOn: seq<string>, status: Status)
      ensures this.id == id && this.target == target && this.dependsOn == dependsOn && this.status == status
    {
      this.id := id;
      this.target := target;
      this.dependsOn := dependsOn;
      this.status := status;
    }
  }

  datatype PlanError =
    | NotPending(ids: seq<string>)
    | DuplicateIds
    | UnknownDependencies(step: string, missing: set<string>)
    | SelfDependency(step: string)
    | Cyclic

  ghost predicate UniqueIds(steps: seq<Step>) {
    forall i, j | 0 <= i < j < |steps| :: steps[i].id != steps[j].id
  }

  ghost predicate AllPending(steps: seq<Step>)
    reads steps
  {
    forall i | 0 <= i < |steps| :: steps[i].status == PENDING
  }

  ghost function Ids(steps: seq<Step>): set<string> {
    set i | 0 <= i < |steps| :: steps[i].id
  }

  ghost predicate SoundDependencies(s: Step, known: set<string>) {
    (forall d | d in s.dependsOn :: d in known) && s.id !in s.dependsOn
  }

  ghost predicate AllSound(steps: seq<Step>) {
    forall i | 0 <= i < |steps| :: SoundDependencies(steps[i], Ids(steps))
  }

  /** The dictionary `by_id`, with the dependencies of each step. */
  function GraphOf(steps: seq<Step>): Graph {
    if steps == [] then map[]
    else
      var last := steps[|steps| - 1];
      GraphOf(steps[..|steps| - 1])[last.id := last.dependsOn]
  }

  lemma {:induction false} GraphHasIds(steps: seq<Step>)
    ensures GraphOf(steps).Keys == Ids(steps)
  {
    if steps != [] {
      var n := |steps| - 1;
      GraphHasIds(steps[..n]);
      forall id | id in Ids(steps) ensures id in Ids(steps[..n]) || id == steps[n].id {
        var i :| 0 <= i < |steps| && steps[i].id == id;
        assert i < n ==> steps[..n][i].id == id;
      }
    }
  }

  lemma {:induction false} GraphHasDependencies(steps: seq<Step>, i: nat)
    requires UniqueIds(steps) && i < |steps|
    ensures steps[i].id in GraphOf(steps) && GraphOf(steps)[steps[i].id] == steps[i].dependsOn
  {
    var n := |steps| - 1;
    if i < n {
      GraphHasDependencies(steps[..n], i);
    }
  }

  lemma GraphIsClosed(steps: seq<Step>)
    requires UniqueIds(steps) && AllSound(steps)
    ensures Closed(GraphOf(steps))
  {
    var g := GraphOf(steps);
    GraphHasIds(steps);
    forall v, d | v in g && d in g[v] ensures d in g {
      var i :| 0 <= i < |steps| && steps[i].id == v;
      GraphHasDependencies(steps, i);
      assert SoundDependencies(steps[i], Ids(steps));
    }
  }

  /** The depth-first search of `validate_plan`. */
  class CycleCheck {
    const graph: Graph
    var visiting: set<string>
    var visited: set<string>
    /** The vertices being visited, from the root of the search down. */
    ghost var stack: seq<string>
    /** The visited vertices, in the order in which they were finished. */
    ghost var order: seq<string>

    ghost predicate Valid()
      reads this
    {
      && Closed(graph)
      && IsPath(graph, stack) && visiting == (set v | v in stack) && visiting <= graph.Keys
      && IsOrder(graph, order) && visited == (set v | v in order)
      && visiting !! visited
    }

    constructor (graph: Graph)
      requires Closed(graph)
      ensures Valid() && this.graph == graph && visiting == visited == {} && stack == []
    {
      this.graph := graph;
      visiting, visited, stack, order := {}, {}, [], [];
    }

    lemma StackExtends(v: string)
      requires Valid() && v in graph && (stack != [] ==> v in graph[stack[|stack| - 1]])
      ensures IsPath(graph, stack + [v])
    {
      var longer := stack + [v];
      forall i, j | 0 <= i < j < |longer| && j == i + 1 ensures Edge(graph, longer[i], longer[j]) {
        if j < |stack| {
          assert Edge(graph, stack[i], stack[j]);
        }
      }
    }

    /** Back on the stack: the part from there on closes a cycle. */
    lemma StackCloses(v: string) returns (cycle: seq<string>)
      requires Valid() && v in visiting && v in graph[stack[|stack| - 1]]
      ensures IsCycle(graph, cycle)
    {
      StackExtends(v);
      var k :| 0 <= k < |stack| && stack[k] == v;
      var longer := stack + [v];
      cycle := longer[k..];
      forall i, j | 0 <= i < j < |cycle| && j == i + 1 ensures Edge(graph, cycle[i], cycle[j]) {
        assert Edge(graph, longer[k + i], longer[k + j]);
      }
    }

    method Visit(v: string) returns (ok: bool, ghost cycle: seq<string>)
      requires Valid() && v in graph
      requires stack != [] ==> v in graph[stack[|stack| - 1]]
      modifies this
      ensures ok ==> Valid() && v in visited && visiting == old(visiting) && stack == old(stack) && old(visited) <= visited
      ensures !ok ==> IsCycle(graph, cycle)
      decreases graph.Keys - visiting
    {
      cycle := [];
      if v in visiting {
        cycle := StackCloses(v);
        return false, cycle;
      }
      if v in visited {
        return true, cycle;
      }
      StackExtends(v);
      visiting := visiting + {v};
      stack := stack + [v];
      for i := 0 to |graph[v]|
        invariant Valid() && visiting == old(visiting) + {v} && stack == old(stack) + [v] && old(visited) <= visited
        invariant forall k | 0 <= k < i :: graph[v][k] in visited
      {
        ok, cycle := Visit(graph[v][i]);
        if !ok {
          return;
        }
      }
      OrderExtends(graph, order, v);
      visiting := visiting - {v};
      visited := visited + {v};
      stack := old(stack);
      order := order + [v];
      return true, cycle;
    }
  }

  ghost predicate IsFirstUnsound(steps: seq<Step>, i: nat)
    requires i < |steps|
  {
    !SoundDependencies(steps[i], Ids(steps)) && forall k | 0 <= k < i :: SoundDependencies(steps[k], Ids(steps))
  }

  method FindNotPending(steps: seq<Step>) returns (ids: seq<string>)
    ensures ids == [] <==> AllPending(steps)
    ensures forall id :: id in ids <==> exists i | 0 <= i < |steps| :: steps[i].id == id && steps[i].status != PENDING
  {
    ids := [];
    for i := 0 to |steps|
      invariant ids == [] <==> forall k | 0 <= k < i :: steps[k].status == PENDING
      invariant forall id :: id in ids <==> exists k | 0 <= k < i :: steps[k].id == id && steps[k].status != PENDING
    {
      if steps[i].status != PENDING {
        ids := ids + [steps[i].id];
      }
    }
  }

  method CollectIds(steps: seq<Step>) returns (known: set<string>, unique: bool)
    ensures known == Ids(steps) && (unique <==> UniqueIds(steps))
  {
    known, unique := {}, true;
    for i := 0 to |steps|
      invariant forall k | 0 <= k < i :: steps[k].id in known
      invariant forall id | id in known :: exists k | 0 <= k < i :: steps[k].id == id
      invariant unique <==> forall j, k | 0 <= j < k < i :: steps[j].id != steps[k].id
    {
      unique := unique && steps[i].id !in known;
      known := known + {steps[i].id};
    }
  }

  /** What each error, and the absence of one, says of the plan. */
  ghost predicate Judges(r: Option<PlanError>, steps: seq<Step>)
    reads steps
  {
    match r
    case None => AllPending(steps) && UniqueIds(steps) && AllSound(steps) && IsAcyclic(GraphOf(steps))
    case Some(NotPending(ids)) =>
      ids != [] && forall id :: id in ids <==> exists i | 0 <= i < |steps| :: steps[i].id == id && steps[i].status != PENDING
    case Some(DuplicateIds) => AllPending(steps) && !UniqueIds(steps)
    case Some(UnknownDependencies(id, missing)) =>
      AllPending(steps) && UniqueIds(steps) && missing != {}
      && exists i | 0 <= i < |steps| ::
           IsFirstUnsound(steps, i) && steps[i].id == id
           && missing == set d | d in steps[i].dependsOn && d !in Ids(steps)
    case Some(SelfDependency(id)) =>
      AllPending(steps) && UniqueIds(steps)
      && exists i | 0 <= i < |steps| ::
           IsFirstUnsound(steps, i) && steps[i].id == id && id in steps[i].dependsOn
           && forall d | d in steps[i].dependsOn :: d in Ids(steps)
    case Some(Cyclic) =>
      AllPending(steps) && UniqueIds(steps) && AllSound(steps) && exists p :: IsCycle(GraphOf(steps), p)
  }

  method CheckDependencies(steps: seq<Step>, known: set<string>) returns (r: Option<PlanError>)
    requires known == Ids(steps) && AllPending(steps) && UniqueIds(steps)
    ensures r.None? ==> AllSound(steps)
    ensures r.Some? ==> !r.value.Cyclic? && Judges(r, steps)
  {
    for i := 0 to |steps|
      invariant forall k | 0 <= k < i :: SoundDependencies(steps[k], known)
    {
      var s := steps[i];
      var missing := set d | d in s.dependsOn && d !in known;
      if missing != {} {
        assert IsFirstUnsound(steps, i);
        return Some(UnknownDependencies(s.id, missing));
      }
      if s.id in s.dependsOn {
        assert forall d | d in s.dependsOn :: d !in known ==> d in missing;
        assert IsFirstUnsound(steps, i);
        return Some(SelfDependency(s.id));
      }
      assert forall d | d in s.dependsOn :: d !in known ==> d in missing;
    }
    return None;
  }

  method CheckCycles(steps: seq<Step>) returns (ok: bool, ghost rank: map<string, nat>, ghost cycle: seq<string>)
    requires UniqueIds(steps) && AllSound(steps)
    ensures ok ==> IsRank(GraphOf(steps), rank)
    ensures !ok ==> IsCycle(GraphOf(steps), cycle)
  {
    GraphIsClosed(steps);
    GraphHasIds(steps);
    var check := new CycleCheck(GraphOf(steps));
    rank, cycle := map[], [];
    for i := 0 to |steps|
      invariant fresh(check) && check.Valid() && check.visiting == {} && check.stack == []
      invariant forall k | 0 <= k < i :: steps[k].id in check.visited
    {
      ok, cycle := check.Visit(steps[i].id);
      if !ok {
        return;
      }
    }
    OrderRanks(GraphOf(steps), check.order);
    return true, RankOf(check.order), cycle;
  }

  /** `validate_plan`. An accepted plan is pending, has unique IDs and closed dependencies, and its
      dependency graph has no cycle, as `rank` shows; a plan refused as cyclic has the cycle returned. */
  method ValidatePlan(steps: seq<Step>) returns (r: Option<PlanError>, ghost rank: map<string, nat>, ghost cycle: seq<string>)
    ensures Judges(r, steps)
    ensures r.None? ==> IsRank(GraphOf(steps), rank)
    ensures r == Some(Cyclic) ==> IsCycle(GraphOf(steps), cycle)
  {
    rank, cycle := map[], [];
    var notPending := FindNotPending(steps);
    if notPending != [] {
      return Some(NotPending(notPending)), rank, cycle;
    }
    var known, unique := CollectIds(steps);
    if !unique {
      return Some(DuplicateIds), rank, cycle;
    }
    r := CheckDependencies(steps, known);
    if r.Some? {
      return;
    }
    var acyclic;
    acyclic, rank, cycle := CheckCycles(steps);
    if !acyclic {
      return Some(Cyclic), rank, cycle;
    }
    RankExcludesCycles(GraphOf(steps), rank);
    return None, rank, cycle;
  }

  /** The five verdicts exclude each other, so a plan is accepted exactly when it is sound and acyclic. */
  lemma AcceptedExactly(r: Option<PlanError>, steps: seq<Step>)
    requires Judges(r, steps)
    ensures r.None? <==> AllPending(steps) && UniqueIds(steps) && AllSound(steps) && IsAcyclic(GraphOf(steps))
  {
    match r
    case Some(NotPending(ids)) =>
      assert ids[0] in ids;
    case Some(UnknownDependencies(id, missing)) =>
      var i :| 0 <= i < |steps| && IsFirstUnsound(steps, i) && steps[i].id == id;
    case Some(SelfDependency(id)) =>
      var i :| 0 <= i < |steps| && IsFirstUnsound(steps, i) && steps[i].id == id;
    case _ =>
  }
}
