/** The dispatcher: runs the ready steps of a plan concurrently, retries each, and blocks what
    depends on a failure. */
module Dispatcher {
  import opened Wrappers
  import opened Graphs
  import opened Plans

  datatype Part = TextPart(text: string) | OtherPart

  datatype Artifact = Artifact(artifactId: string, parts: seq<Part>)

  datatype Task = Task(id: string, state: string, artifacts: seq<Artifact>)

  /** What one `send_message` comes to. */
  datatype Reply = Answered(task: Task) | Raised(message: string)

  function FailureText(reply: Reply): string {
    match reply
    case Raised(message) => message
    case Answered(task) => "task returned non-completed status: " + task.state
  }

  predicate Completes(reply: Reply) {
    reply.Answered? && reply.task.state == "completed"
  }

  function FailedTask(id: string, reply: Reply): Task {
    Task(id, "failed", [Artifact("err", [TextPart("step failed: " + FailureText(reply))])])
  }

  function BlockedTask(id: string): Task {
    Task(id, "failed", [Artifact("blocked", [TextPart("step blocked by a failed dependency")])])
  }

  /** The reply to each attempt at each step. Steps run under their own names, so a schedule can
      change when an attempt is made, and not what it is answered. */
  type Client = (string, int) -> Reply

  /******* What each step comes to *******/

  /** Verdict and last result of the attempts from `attempt` on, if `sofar` is the result before them. */
  function Attempts(client: Client, id: string, attempt: int, max: int, sofar: Option<Task>): (bool, Option<Task>)
    decreases max - attempt
  {
    if attempt > max then (false, sofar)
    else if Completes(client(id, attempt)) then (true, Some(client(id, attempt).task))
    else Attempts(client, id, attempt + 1, max, Some(FailedTask(id, client(id, attempt))))
  }

  predicate Succeeds(client: Client, id: string, max: int) {
    Attempts(client, id, 1, max, None).0
  }

  /** Attempt `a` is answered with a task in state "completed", and none from `start` on was before. */
  ghost predicate CompletesFirst(client: Client, id: string, start: int, a: int) {
    && client(id, a).Answered? && client(id, a).task.state == "completed"
    && forall b | start <= b < a :: client(id, b).Answered? ==> client(id, b).task.state != "completed"
  }

  /** Some attempt within the limit is answered with a task in state "completed". */
  ghost predicate GetsCompleted(client: Client, id: string, max: int) {
    exists a | 1 <= a <= max :: client(id, a).Answered? && client(id, a).task.state == "completed"
  }

  lemma SucceedsExactly(client: Client, id: string, max: int)
    ensures Succeeds(client, id, max) <==> GetsCompleted(client, id, max)
  {
    SomeAttemptCompletes(client, id, 1, max, None);
  }

  /** The result of a step whose last attempt came to this. */
  ghost predicate IsErrorResult(task: Task, id: string, last: Reply) {
    && task.id == id && task.state == "failed"
    && match last
       case Raised(message) => task.artifacts == [Artifact("err", [TextPart("step failed: " + message)])]
       case Answered(answer) =>
         task.artifacts
         == [Artifact("err", [TextPart("step failed: " + ("task returned non-completed status: " + answer.state))])]
  }

  /** The step succeeds exactly when some attempt within the limit is answered with a completed task. The
      first such task is its result; otherwise it is the error of the last attempt. */
  lemma {:induction false} SomeAttemptCompletes(client: Client, id: string, attempt: int, max: int, sofar: Option<Task>)
    ensures var (ok, result) := Attempts(client, id, attempt, max, sofar);
      && (ok <==> exists a | attempt <= a <= max :: client(id, a).Answered? && client(id, a).task.state == "completed")
      && (ok ==> exists a | attempt <= a <= max :: CompletesFirst(client, id, attempt, a) && result == Some(client(id, a).task))
      && (!ok ==> if attempt <= max then result.Some? && IsErrorResult(result.value, id, client(id, max)) else result == sofar)
    decreases max - attempt
  {
    if attempt <= max {
      if Completes(client(id, attempt)) {
        assert CompletesFirst(client, id, attempt, attempt);
      } else {
        SomeAttemptCompletes(client, id, attempt + 1, max, Some(FailedTask(id, client(id, attempt))));
        if Attempts(client, id, attempt + 1, max, Some(FailedTask(id, client(id, attempt)))).0 {
          var a :| attempt + 1 <= a <= max && CompletesFirst(client, id, attempt + 1, a);
          assert CompletesFirst(client, id, attempt, a);
        }
      }
    }
  }

  /** There is a result unless no attempt was allowed. */
  lemma {:induction false} AttemptsLeaveResult(client: Client, id: string, attempt: int, max: int, sofar: Option<Task>)
    ensures Attempts(client, id, attempt, max, sofar).1.None? <==> sofar.None? && max < attempt
    decreases max - attempt
  {
    if attempt <= max && !Completes(client(id, attempt)) {
      AttemptsLeaveResult(client, id, attempt + 1, max, Some(FailedTask(id, client(id, attempt))));
    }
  }

  /** The simple form of a run: a step is fine if some attempt completes and its dependencies are fine. */
  ghost predicate Fine(g: Graph, rank: map<string, nat>, client: Client, max: int, id: string)
    requires IsRank(g, rank) && id in g
    decreases if id in rank then rank[id] else 0
  {
    Succeeds(client, id, max) && forall d | Edge(g, id, d) && d in g :: Fine(g, rank, client, max, d)
  }

  /** Which order witnesses the acyclicity makes no difference. */
  lemma {:induction false} FineIgnoresRank(g: Graph, rank: map<string, nat>, rank': map<string, nat>, client: Client, max: int, id: string)
    requires IsRank(g, rank) && IsRank(g, rank') && id in g
    ensures Fine(g, rank, client, max, id) <==> Fine(g, rank', client, max, id)
    decreases if id in rank then rank[id] else 0
  {
    forall d | Edge(g, id, d) && d in g ensures Fine(g, rank, client, max, d) <==> Fine(g, rank', client, max, d) {
      FineIgnoresRank(g, rank, rank', client, max, d);
    }
  }

  ghost predicate DependenciesFine(g: Graph, rank: map<string, nat>, client: Client, max: int, id: string)
    requires IsRank(g, rank) && id in g
  {
    forall d | Edge(g, id, d) && d in g :: Fine(g, rank, client, max, d)
  }

  ghost function Expected(g: Graph, rank: map<string, nat>, client: Client, max: int, id: string): Option<Task>
    requires IsRank(g, rank) && id in g
  {
    if DependenciesFine(g, rank, client, max, id) then Attempts(client, id, 1, max, None).1 else Some(BlockedTask(id))
  }

  function Lookup<T>(m: map<string, T>, id: string): Option<T> {
    if id in m then Some(m[id]) else None
  }

  /******* The state of a run *******/

  /** `by_id`: every step under its own ID, and nothing else. */
  ghost predicate Maps(byId: map<string, Step>, steps: seq<Step>) {
    && (forall i | 0 <= i < |steps| :: steps[i].id in byId && byId[steps[i].id] == steps[i])
    && (forall id | id in byId :: byId[id] in steps && byId[id].id == id)
  }

  ghost function Statuses(byId: map<string, Step>): map<string, Status>
    reads byId.Values
  {
    map id | id in byId :: byId[id].status
  }

  lemma StatusKeys(byId: map<string, Step>)
    ensures Statuses(byId).Keys == byId.Keys
  {
  }

  ghost predicate Unblocked(g: Graph, st: map<string, Status>, id: string) {
    forall d | Edge(g, id, d) :: d in st && st[d] == SUCCEEDED
  }

  /** Where a step stands, and what its attempts so far imply. `next` is the attempt to be made. */
  ghost predicate Accounted(status: Status, unblocked: bool, next: Option<int>, result: Option<Task>,
                            client: Client, id: string, max: int)
  {
    match status
    case PENDING => next.None? && result.None?
    case RUNNING =>
      unblocked && next.Some? && Attempts(client, id, next.value, max, result) == Attempts(client, id, 1, max, None)
    case SUCCEEDED => unblocked && (true, result) == Attempts(client, id, 1, max, None)
    case FAILED => unblocked && (false, result) == Attempts(client, id, 1, max, None)
  }

  ghost predicate StepAccounted(g: Graph, st: map<string, Status>, running: map<string, int>, results: map<string, Task>,
                                client: Client, max: int, id: string)
    requires id in st
  {
    Accounted(st[id], Unblocked(g, st, id), Lookup(running, id), Lookup(results, id), client, id, max)
  }

  /** The whole state of a run between two suspensions. */
  ghost predicate Accounts(g: Graph, st: map<string, Status>, running: map<string, int>, results: map<string, Task>,
                           client: Client, max: int)
  {
    && running.Keys <= st.Keys && results.Keys <= st.Keys
    && forall id | id in st :: StepAccounted(g, st, running, results, client, max, id)
  }

  /** The running steps are those with a coroutine. */
  ghost predicate Tracks(running: set<string>, st: map<string, Status>) {
    forall id | id in st :: st[id] == RUNNING <==> id in running
  }

  /** No step changes its status but these, and none of these becomes pending. */
  ghost predicate OnlyMoves(st: map<string, Status>, st': map<string, Status>, running: set<string>) {
    && st'.Keys == st.Keys
    && (forall id | id in st && id !in running :: st'[id] == st[id])
    && (forall id | id in st && id in running :: st'[id] != PENDING)
  }

  /** One running step moves on; nothing else is disturbed. */
  lemma MoveAccounts(g: Graph, st: map<string, Status>, running: map<string, int>, results: map<string, Task>,
                     client: Client, max: int, id: string, status: Status, running': map<string, int>, results': map<string, Task>)
    requires Accounts(g, st, running, results, client, max) && id in st && st[id] == RUNNING && id in running
    requires running'.Keys == running.Keys && forall k | k != id :: Lookup(running', k) == Lookup(running, k)
    requires results'.Keys <= results.Keys + {id} && forall k | k != id :: Lookup(results', k) == Lookup(results, k)
    requires Accounted(status, true, Lookup(running', id), Lookup(results', id), client, id, max) && status != PENDING
    ensures Accounts(g, st[id := status], running', results', client, max)
  {
    var st' := st[id := status];
    forall k | k in st' ensures StepAccounted(g, st', running', results', client, max, k) {
      assert StepAccounted(g, st, running, results, client, max, k);
      assert Unblocked(g, st, k) ==> Unblocked(g, st', k);
    }
  }

  /** A step that moved is waited for only if it is still running. */
  lemma MoveTracks(waiting: set<string>, running: set<string>, st0: map<string, Status>, st: map<string, Status>, id: string, status: Status)
    requires Tracks(waiting, st) && OnlyMoves(st0, st, running) && status != PENDING
    requires waiting <= running && id in waiting && id in st
    ensures Tracks(if status == RUNNING then waiting else waiting - {id}, st[id := status])
    ensures OnlyMoves(st0, st[id := status], running)
  {
  }

  /** Finished coroutines are forgotten. */
  lemma DropFinished(g: Graph, st: map<string, Status>, running: map<string, int>, results: map<string, Task>,
                     client: Client, max: int, waiting: set<string>)
    requires Accounts(g, st, running, results, client, max) && Tracks(waiting, st) && waiting <= running.Keys
    ensures Accounts(g, st, map id | id in waiting :: running[id], results, client, max)
  {
    var left := map id | id in waiting :: running[id];
    forall id | id in st ensures StepAccounted(g, st, left, results, client, max, id) {
      assert StepAccounted(g, st, running, results, client, max, id);
    }
  }

  /** The graph lists the dependencies of every step, and all of them are steps. */
  ghost predicate Describes(g: Graph, byId: map<string, Step>) {
    && g.Keys == byId.Keys
    && (forall id | id in byId :: g[id] == byId[id].dependsOn)
    && Closed(g)
  }

  /** A pending step with succeeded dependencies is started. */
  lemma StartAccounts(g: Graph, st: map<string, Status>, running: map<string, int>, results: map<string, Task>,
                      client: Client, max: int, id: string)
    requires Accounts(g, st, running, results, client, max) && id in st && st[id] == PENDING && Unblocked(g, st, id)
    ensures Accounts(g, st[id := RUNNING], running[id := 1], results, client, max)
    ensures Tracks(running.Keys, st) ==> Tracks((running[id := 1]).Keys, st[id := RUNNING])
  {
    var st', running' := st[id := RUNNING], running[id := 1];
    assert StepAccounted(g, st, running, results, client, max, id);
    forall k | k in st' ensures StepAccounted(g, st', running', results, client, max, k) {
      assert StepAccounted(g, st, running, results, client, max, k);
      assert Unblocked(g, st, k) ==> Unblocked(g, st', k);
    }
  }

  ghost function Unfinished(st: map<string, Status>): set<string> {
    set id | id in st && (st[id] == PENDING || st[id] == RUNNING)
  }

  lemma KeysAreSteps(g: Graph, st: map<string, Status>, running: map<string, int>, results: map<string, Task>,
                        client: Client, max: int)
    requires Accounts(g, st, running, results, client, max)
    ensures running.Keys <= st.Keys && results.Keys <= st.Keys
  {
  }

  lemma WaitFinishes(st: map<string, Status>, st': map<string, Status>, running: set<string>, left: set<string>)
    requires OnlyMoves(st, st', running) && Tracks(running, st) && Tracks(left, st') && left < running <= st.Keys
    ensures Unfinished(st') < Unfinished(st)
  {
    var id :| id in running && id !in left;
    assert id in Unfinished(st) && id !in Unfinished(st');
  }

  /** No step is running, and no pending step could be started. */
  ghost predicate Stuck(g: Graph, st: map<string, Status>) {
    forall id | id in st :: st[id] != RUNNING && (st[id] == PENDING ==> !Unblocked(g, st, id))
  }

  /** When nothing moves any more, the steps that succeeded are the fine ones, and the pending ones
      are those with a dependency that is not fine. */
  lemma {:induction false} StuckIsFine(g: Graph, rank: map<string, nat>, st: map<string, Status>, results: map<string, Task>,
                                       client: Client, max: int, id: string)
    requires IsRank(g, rank) && Closed(g) && st.Keys == g.Keys && id in g
    requires Accounts(g, st, map[], results, client, max) && Stuck(g, st)
    ensures st[id] == SUCCEEDED <==> Fine(g, rank, client, max, id)
    ensures st[id] == PENDING <==> !DependenciesFine(g, rank, client, max, id)
    ensures st[id] != PENDING ==> Lookup(results, id) == Attempts(client, id, 1, max, None).1
    ensures st[id] == PENDING ==> id !in results
    decreases if id in rank then rank[id] else 0
  {
    forall d | Edge(g, id, d) ensures st[d] == SUCCEEDED <==> Fine(g, rank, client, max, d) {
      StuckIsFine(g, rank, st, results, client, max, d);
    }
    assert StepAccounted(g, st, map[], results, client, max, id);
    assert Unblocked(g, st, id) <==> DependenciesFine(g, rank, client, max, id);
  }

  ghost predicate Startable(g: Graph, st: map<string, Status>, id: string) {
    id in st && st[id] == PENDING && Unblocked(g, st, id)
  }

  /** Each of these steps, once, can be started. */
  ghost predicate StillReady(ready: seq<Step>, g: Graph, st: map<string, Status>, steps: seq<Step>) {
    && (forall i, j | 0 <= i < j < |ready| :: ready[i].id != ready[j].id)
    && (forall i | 0 <= i < |ready| :: ready[i] in steps && Startable(g, st, ready[i].id))
  }

  /** And no other step can. */
  ghost predicate AreReady(ready: seq<Step>, g: Graph, st: map<string, Status>, steps: seq<Step>) {
    StillReady(ready, g, st, steps) && forall s | s in steps && Startable(g, st, s.id) :: s in ready
  }

  lemma NothingIsReady(g: Graph, st: map<string, Status>)
    ensures AreReady([], g, st, [])
  {
  }

  lemma AddReady(ready: seq<Step>, g: Graph, st: map<string, Status>, steps: seq<Step>, s: Step)
    requires AreReady(ready, g, st, steps) && forall i | 0 <= i < |steps| :: steps[i].id != s.id
    ensures AreReady(if Startable(g, st, s.id) then ready + [s] else ready, g, st, steps + [s])
  {
    hide Startable;
    forall i | 0 <= i < |ready| ensures ready[i].id != s.id {
      assert ready[i] in steps;
    }
  }

  lemma StartKeepsReady(ready: seq<Step>, g: Graph, st: map<string, Status>, steps: seq<Step>)
    requires StillReady(ready, g, st, steps) && ready != []
    ensures ready[0] in steps && Startable(g, st, ready[0].id)
    ensures StillReady(ready[1..], g, st[ready[0].id := RUNNING], steps)
    ensures Unfinished(st[ready[0].id := RUNNING]) == Unfinished(st)
  {
    var st' := st[ready[0].id := RUNNING];
    forall i | 1 <= i < |ready| ensures Startable(g, st', ready[i].id) {
      assert Startable(g, st, ready[i].id);
    }
  }

  /** Before anything has run, everything is pending. */
  lemma FreshAccounts(g: Graph, st: map<string, Status>, client: Client, max: int)
    requires forall id | id in st :: st[id] == PENDING
    ensures var none: map<string, int> := map[];
      Accounts(g, st, none, map[], client, max) && Tracks(none.Keys, st)
  {
    forall id | id in st ensures StepAccounted(g, st, map[], map[], client, max, id) {
    }
  }

  lemma NothingLeftIsStuck(g: Graph, st: map<string, Status>, byId: map<string, Step>, steps: seq<Step>)
    requires Maps(byId, steps) && st.Keys == byId.Keys && AreReady([], g, st, steps)
    requires var none: map<string, int> := map[]; Tracks(none.Keys, st)
    ensures Stuck(g, st)
  {
    forall id | id in st ensures !Startable(g, st, id) {
      assert byId[id] in steps && byId[id].id == id;
    }
  }

  /** With at least one attempt allowed, every step has a result; without, exactly the blocked ones. */
  lemma ResultsAreMissingExactly(g: Graph, rank: map<string, nat>, client: Client, max: int, id: string)
    requires IsRank(g, rank) && id in g
    ensures Expected(g, rank, client, max, id).None? <==> max < 1 && DependenciesFine(g, rank, client, max, id)
  {
    AttemptsLeaveResult(client, id, 1, max, None);
  }

  /** The final verdict and result of every step. */
  ghost predicate Settled(steps: seq<Step>, st: map<string, Status>, results: map<string, Task>, rank: map<string, nat>,
                          client: Client, max: int)
  {
    var g := GraphOf(steps);
    && IsRank(g, rank) && st.Keys == g.Keys && results.Keys <= g.Keys
    && forall id | id in g ::
         && st[id] == (if Fine(g, rank, client, max, id) then SUCCEEDED else FAILED)
         && Lookup(results, id) == Expected(g, rank, client, max, id)
  }

  ghost predicate SettledStep(s: Step, g: Graph, rank: map<string, nat>, results: map<string, Task>, client: Client, max: int)
    requires IsRank(g, rank)
    reads s
  {
    && s.id in g
    && s.status == (if Fine(g, rank, client, max, s.id) then SUCCEEDED else FAILED)
    && Lookup(results, s.id) == Expected(g, rank, client, max, s.id)
  }

  /** Two settled runs of one plan agree on every step, whatever their schedules. */
  lemma SettledAgree(s: Step, g: Graph, rank: map<string, nat>, results: map<string, Task>,
                     t: Step, rank': map<string, nat>, results': map<string, Task>, client: Client, max: int)
    requires IsRank(g, rank) && IsRank(g, rank') && s.id == t.id
    requires SettledStep(s, g, rank, results, client, max) && SettledStep(t, g, rank', results', client, max)
    ensures s.status == t.status && Lookup(results, s.id) == Lookup(results', t.id)
  {
    FineIgnoresRank(g, rank, rank', client, max, s.id);
    forall d | Edge(g, s.id, d) && d in g ensures Fine(g, rank, client, max, d) <==> Fine(g, rank', client, max, d) {
      FineIgnoresRank(g, rank, rank', client, max, d);
    }
  }

  /** What blocking the rest does to one step. */
  ghost predicate BlockedAs(st: map<string, Status>, results: map<string, Task>, st': map<string, Status>,
                            results': map<string, Task>, id: string)
    requires id in st && id in st'
  {
    if st[id] == PENDING then st'[id] == FAILED && Lookup(results', id) == Some(BlockedTask(id))
    else st'[id] == st[id] && Lookup(results', id) == Lookup(results, id)
  }

  /** The same, while only these steps have been looked at. */
  ghost predicate BlockedSoFar(st0: map<string, Status>, results: map<string, Task>, st: map<string, Status>,
                               updated: map<string, Task>, handled: set<string>)
  {
    && st.Keys == st0.Keys
    && (forall id | id in st && id in handled :: BlockedAs(st0, results, st, updated, id))
    && (forall id | id in st && id !in handled :: st[id] == st0[id] && Lookup(updated, id) == Lookup(results, id))
  }

  lemma NoneBlocked(st: map<string, Status>, results: map<string, Task>)
    ensures BlockedSoFar(st, results, st, results, {})
  {
  }

  lemma BlockOne(st0: map<string, Status>, results: map<string, Task>, st: map<string, Status>,
                 updated: map<string, Task>, handled: set<string>, id: string)
    requires BlockedSoFar(st0, results, st, updated, handled) && id in st && id !in handled
    ensures st[id] == PENDING ==>
              BlockedSoFar(st0, results, st[id := FAILED], updated[id := BlockedTask(id)], handled + {id})
    ensures st[id] != PENDING ==> BlockedSoFar(st0, results, st, updated, handled + {id})
  {
  }

  lemma AllBlocked(st0: map<string, Status>, results: map<string, Task>, st: map<string, Status>,
                   updated: map<string, Task>, handled: set<string>)
    requires BlockedSoFar(st0, results, st, updated, handled) && st.Keys <= handled
    ensures forall id | id in st :: id in st0 && BlockedAs(st0, results, st, updated, id)
  {
  }

  /** Blocking what is still pending settles the plan. */
  lemma BlockingSettles(steps: seq<Step>, st: map<string, Status>, results: map<string, Task>, rank: map<string, nat>,
                        client: Client, max: int, st': map<string, Status>, results': map<string, Task>)
    requires var g := GraphOf(steps); IsRank(g, rank) && Closed(g) && st.Keys == g.Keys
    requires Accounts(GraphOf(steps), st, map[], results, client, max) && Stuck(GraphOf(steps), st)
    requires st'.Keys == st.Keys && results'.Keys <= st.Keys
    requires forall id | id in st :: BlockedAs(st, results, st', results', id)
    ensures Settled(steps, st', results', rank, client, max)
  {
    var g := GraphOf(steps);
    forall id | id in g
      ensures st'[id] == if Fine(g, rank, client, max, id) then SUCCEEDED else FAILED
      ensures Lookup(results', id) == Expected(g, rank, client, max, id)
    {
      StuckIsFine(g, rank, st, results, client, max, id);
    }
  }

  /** What became of step i, read off the plan and the replies alone. */
  ghost predicate Outcome(steps: seq<Step>, i: nat, results: map<string, Task>, client: Client, max: int)
    requires i < |steps|
    reads steps
  {
    var s := steps[i];
    var unblocked := forall j | 0 <= j < |steps| && steps[j].id in s.dependsOn :: steps[j].status == SUCCEEDED;
    && (s.status == SUCCEEDED
        <==> unblocked && GetsCompleted(client, s.id, max))
    && (s.status != SUCCEEDED ==> s.status == FAILED)
    && (s.status == SUCCEEDED ==>
          exists a | 1 <= a <= max :: CompletesFirst(client, s.id, 1, a) && s.id in results && results[s.id] == client(s.id, a).task)
    && (s.status == FAILED && unblocked ==>
          if 1 <= max then s.id in results && IsErrorResult(results[s.id], s.id, client(s.id, max)) else s.id !in results)
    && (!unblocked ==>
          s.id in results
          && results[s.id] == Task(s.id, "failed", [Artifact("blocked", [TextPart("step blocked by a failed dependency")])]))
  }

  lemma UnblockedExactly(steps: seq<Step>, i: nat, rank: map<string, nat>, results: map<string, Task>, client: Client, max: int)
    requires UniqueIds(steps) && AllSound(steps) && IsRank(GraphOf(steps), rank) && i < |steps|
    requires forall k | 0 <= k < |steps| :: SettledStep(steps[k], GraphOf(steps), rank, results, client, max)
    ensures steps[i].id in GraphOf(steps)
    ensures DependenciesFine(GraphOf(steps), rank, client, max, steps[i].id)
       <==> forall j | 0 <= j < |steps| && steps[j].id in steps[i].dependsOn :: steps[j].status == SUCCEEDED
  {
    hide Fine, Expected;
    var g, id := GraphOf(steps), steps[i].id;
    GraphHasDependencies(steps, i);
    GraphHasIds(steps);
    forall j | 0 <= j < |steps| && steps[j].id in steps[i].dependsOn
      ensures Edge(g, id, steps[j].id) && (steps[j].status == SUCCEEDED <==> Fine(g, rank, client, max, steps[j].id))
    {
      var settled := SettledStep(steps[j], g, rank, results, client, max);
    }
    assert SoundDependencies(steps[i], Ids(steps));
    forall d | Edge(g, id, d) ensures exists j | 0 <= j < |steps| :: steps[j].id == d {
    }
  }

  /** A settled plan has come out as its replies say. */
  lemma SettledOutcome(steps: seq<Step>, i: nat, rank: map<string, nat>, results: map<string, Task>, client: Client, max: int)
    requires UniqueIds(steps) && AllSound(steps) && IsRank(GraphOf(steps), rank) && i < |steps|
    requires forall k | 0 <= k < |steps| :: SettledStep(steps[k], GraphOf(steps), rank, results, client, max)
    ensures Outcome(steps, i, results, client, max)
  {
    hide Attempts, CompletesFirst, IsErrorResult, UniqueIds, AllSound, GraphOf, IsRank;
    UnblockedExactly(steps, i, rank, results, client, max);
    SomeAttemptCompletes(client, steps[i].id, 1, max, None);
    var settled := SettledStep(steps[i], GraphOf(steps), rank, results, client, max);
  }

  class Dispatcher {
    const client: Client
    const maxAttempts: int

    constructor (client: Client, maxAttempts: int)
      ensures this.client == client && this.maxAttempts == maxAttempts
    {
      this.client := client;
      this.maxAttempts := maxAttempts;
    }

    /** How many turns a coroutine that is about to make this attempt has left. */
    ghost function TurnsLeft(attempt: int): nat {
      if attempt < maxAttempts then maxAttempts - attempt + 1 else 1
    }

    ghost predicate HasTurns(turns: multiset<string>, running: map<string, int>, waiting: set<string>) {
      forall id | id in waiting :: id in running && turns[id] == TurnsLeft(running[id])
    }

    lemma NoTurns()
      ensures var none: map<string, int> := map[]; HasTurns(multiset{}, none, none.Keys)
    {
    }

    /** A turn is spent by the coroutine that was resumed. */
    lemma SpendTurn(turns: multiset<string>, running: map<string, int>, waiting: set<string>, id: string,
                    running': map<string, int>, waiting': set<string>)
      requires HasTurns(turns, running, waiting) && id in waiting && waiting' <= waiting
      requires running' == running[id := running[id] + 1]
      requires id in waiting' ==> TurnsLeft(running[id]) == TurnsLeft(running'[id]) + 1
      ensures HasTurns(turns - multiset{id}, running', waiting') && |turns - multiset{id}| < |turns|
    {
    }

    /** `_run_step`, from one suspension to the next. */
    method TakeTurn(s: Step, attempt: int, results: map<string, Task>) returns (updated: map<string, Task>)
      requires s.status == RUNNING
      modifies s`status
      ensures forall id | id != s.id :: Lookup(updated, id) == Lookup(results, id)
      ensures updated.Keys <= results.Keys + {s.id}
      ensures var total := Attempts(client, s.id, attempt, maxAttempts, Lookup(results, s.id));
        match s.status
        case PENDING => false
        case RUNNING =>
          attempt < maxAttempts && Attempts(client, s.id, attempt + 1, maxAttempts, Lookup(updated, s.id)) == total
        case SUCCEEDED => total == (true, Lookup(updated, s.id))
        case FAILED => total == (false, Lookup(updated, s.id))
    {
      updated := results;
      if attempt > maxAttempts {
        s.status := FAILED;
        return;
      }
      var reply := client(s.id, attempt);
      if Completes(reply) {
        updated := updated[s.id := reply.task];
        s.status := SUCCEEDED;
        return;
      }
      updated := updated[s.id := FailedTask(s.id, reply)];
      if attempt == maxAttempts {
        s.status := FAILED;
      }
    }

    /** One coroutine runs until it is suspended again. */
    method Resume(ghost g: Graph, byId: map<string, Step>, ghost steps: seq<Step>, s: Step,
                  running: map<string, int>, results: map<string, Task>)
      returns (running': map<string, int>, updated: map<string, Task>)
      requires Maps(byId, steps) && Accounts(g, Statuses(byId), running, results, client, maxAttempts)
      requires s in steps && s.id in running && s.status == RUNNING
      modifies s`status
      ensures Accounts(g, Statuses(byId), running', updated, client, maxAttempts)
      ensures Statuses(byId) == old(Statuses(byId))[s.id := s.status] && s.status != PENDING
      ensures running' == running[s.id := running[s.id] + 1]
      ensures s.status == RUNNING ==> TurnsLeft(running[s.id]) == TurnsLeft(running'[s.id]) + 1
    {
      ghost var st := Statuses(byId);
      assert StepAccounted(g, st, running, results, client, maxAttempts, s.id);
      updated := TakeTurn(s, running[s.id], results);
      running' := running[s.id := running[s.id] + 1];
      assert Statuses(byId) == st[s.id := s.status];
      MoveAccounts(g, st, running, results, client, maxAttempts, s.id, s.status, running', updated);
    }

    /** Some of the coroutines that were running at `st0` are still waited for. */
    ghost predicate InFlight(g: Graph, st0: map<string, Status>, st: map<string, Status>, running: map<string, int>,
                             results: map<string, Task>, waiting: set<string>, turns: multiset<string>)
    {
      && waiting <= running.Keys <= st.Keys
      && Accounts(g, st, running, results, client, maxAttempts)
      && Tracks(waiting, st) && OnlyMoves(st0, st, running.Keys)
      && HasTurns(turns, running, waiting)
    }

    lemma TakeOff(g: Graph, st: map<string, Status>, running: map<string, int>, results: map<string, Task>, turns: multiset<string>)
      requires Accounts(g, st, running, results, client, maxAttempts) && running.Keys <= st.Keys
      requires Tracks(running.Keys, st) && HasTurns(turns, running, running.Keys)
      ensures InFlight(g, st, st, running, results, running.Keys, turns)
    {
    }

    /** Any one of them is resumed. */
    method ResumeAny(ghost g: Graph, ghost st0: map<string, Status>, byId: map<string, Step>, ghost steps: seq<Step>,
                     running: map<string, int>, results: map<string, Task>, waiting: set<string>, ghost turns: multiset<string>)
      returns (running': map<string, int>, updated: map<string, Task>, waiting': set<string>, ghost turns': multiset<string>)
      requires Maps(byId, steps) && waiting != {}
      requires InFlight(g, st0, Statuses(byId), running, results, waiting, turns)
      modifies byId.Values`status
      ensures InFlight(g, st0, Statuses(byId), running', updated, waiting', turns')
      ensures running'.Keys == running.Keys && waiting' <= waiting && |turns'| < |turns|
    {
      hide Accounts;
      ghost var st := Statuses(byId);
      var id :| id in waiting;
      var s := byId[id];
      running', updated := Resume(g, byId, steps, s, running, results);
      waiting' := if s.status == RUNNING then waiting else waiting - {id};
      turns' := turns - multiset{id};
      MoveTracks(waiting, running.Keys, st0, st, id, s.status);
      SpendTurn(turns, running, waiting, id, running', waiting');
    }

    lemma Landed(g: Graph, st0: map<string, Status>, st: map<string, Status>, running: map<string, int>,
                 results: map<string, Task>, waiting: set<string>, turns: multiset<string>)
      requires InFlight(g, st0, st, running, results, waiting, turns)
      ensures var left := map id | id in waiting :: running[id];
        && Accounts(g, st, left, results, client, maxAttempts) && Tracks(left.Keys, st)
        && OnlyMoves(st0, st, running.Keys) && HasTurns(turns, left, left.Keys)
    {
      DropFinished(g, st, running, results, client, maxAttempts, waiting);
    }

    /** Waits for the first completion: the event loop resumes coroutines in any order, and may let
        several complete before the dispatcher is resumed. */
    method Wait(ghost g: Graph, byId: map<string, Step>, ghost steps: seq<Step>, running: map<string, int>,
                results: map<string, Task>, ghost turns: multiset<string>)
      returns (left: map<string, int>, updated: map<string, Task>, ghost turns': multiset<string>)
      requires Maps(byId, steps) && Accounts(g, Statuses(byId), running, results, client, maxAttempts)
      requires running != map[] && running.Keys <= byId.Keys && Tracks(running.Keys, Statuses(byId))
      requires HasTurns(turns, running, running.Keys)
      modifies byId.Values`status
      ensures Accounts(g, Statuses(byId), left, updated, client, maxAttempts)
      ensures left.Keys < running.Keys && Tracks(left.Keys, Statuses(byId))
      ensures OnlyMoves(old(Statuses(byId)), Statuses(byId), running.Keys)
      ensures HasTurns(turns', left, left.Keys)
    {
      hide InFlight, Accounts, Tracks, OnlyMoves, HasTurns;
      left, updated, turns' := running, results, turns;
      ghost var st0 := Statuses(byId);
      var waiting := running.Keys;
      TakeOff(g, st0, left, updated, turns');
      while waiting != {}
        invariant waiting <= running.Keys == left.Keys
        invariant InFlight(g, st0, Statuses(byId), left, updated, waiting, turns')
        decreases |turns'|
      {
        if waiting < running.Keys {
          if * {
            break;
          }
        }
        left, updated, waiting, turns' := ResumeAny(g, st0, byId, steps, left, updated, waiting, turns');
      }
      Landed(g, st0, Statuses(byId), left, updated, waiting, turns');
      left := map id | id in waiting :: left[id];
    }

    method IsReady(ghost g: Graph, byId: map<string, Step>, s: Step) returns (ready: bool)
      requires Describes(g, byId) && s.id in byId && byId[s.id] == s
      ensures ready <==> Startable(g, Statuses(byId), s.id)
    {
      if s.status != PENDING {
        return false;
      }
      for i := 0 to |s.dependsOn|
        invariant forall k | 0 <= k < i :: byId[s.dependsOn[k]].status == SUCCEEDED
      {
        if byId[s.dependsOn[i]].status != SUCCEEDED {
          assert Edge(g, s.id, s.dependsOn[i]);
          return false;
        }
      }
      forall d | Edge(g, s.id, d) ensures Statuses(byId)[d] == SUCCEEDED {
        var k :| 0 <= k < |s.dependsOn| && s.dependsOn[k] == d;
      }
      return true;
    }

    /** `ready_steps`. */
    method ReadySteps(ghost g: Graph, byId: map<string, Step>, steps: seq<Step>) returns (ready: seq<Step>)
      requires Maps(byId, steps) && Describes(g, byId) && UniqueIds(steps)
      ensures AreReady(ready, g, Statuses(byId), steps)
    {
      ready := [];
      hide AreReady, Describes, Unblocked, Statuses;
      NothingIsReady(g, Statuses(byId));
      for i := 0 to |steps|
        invariant AreReady(ready, g, Statuses(byId), steps[..i])
      {
        var isReady := IsReady(g, byId, steps[i]);
        AddReady(ready, g, Statuses(byId), steps[..i], steps[i]);
        if isReady {
          ready := ready + [steps[i]];
        }
        assert steps[..i + 1] == steps[..i] + [steps[i]];
      }
      assert steps[..|steps|] == steps;
    }

    method Start(ghost g: Graph, byId: map<string, Step>, ghost steps: seq<Step>, s: Step, running: map<string, int>,
                 ghost results: map<string, Task>, ghost turns: multiset<string>)
      returns (running': map<string, int>, ghost turns': multiset<string>)
      requires Maps(byId, steps) && s in steps && Startable(g, Statuses(byId), s.id)
      requires Accounts(g, Statuses(byId), running, results, client, maxAttempts)
      requires Tracks(running.Keys, Statuses(byId)) && HasTurns(turns, running, running.Keys)
      modifies s`status
      ensures Statuses(byId) == old(Statuses(byId))[s.id := RUNNING] && running' == running[s.id := 1]
      ensures Accounts(g, Statuses(byId), running', results, client, maxAttempts)
      ensures Tracks(running'.Keys, Statuses(byId)) && HasTurns(turns', running', running'.Keys)
    {
      StartAccounts(g, Statuses(byId), running, results, client, maxAttempts, s.id);
      hide Accounts, Tracks, Startable;
      ghost var st := Statuses(byId);
      s.status := RUNNING;
      running' := running[s.id := 1];
      turns' := turns[s.id := TurnsLeft(1)];
      assert Statuses(byId) == st[s.id := RUNNING];
    }

    method StartAll(ghost g: Graph, byId: map<string, Step>, ghost steps: seq<Step>, ready: seq<Step>,
                    running: map<string, int>, ghost results: map<string, Task>, ghost turns: multiset<string>)
      returns (running': map<string, int>, ghost turns': multiset<string>)
      requires Maps(byId, steps) && AreReady(ready, g, Statuses(byId), steps)
      requires Accounts(g, Statuses(byId), running, results, client, maxAttempts)
      requires Tracks(running.Keys, Statuses(byId)) && HasTurns(turns, running, running.Keys)
      modifies byId.Values`status
      ensures Accounts(g, Statuses(byId), running', results, client, maxAttempts)
      ensures Tracks(running'.Keys, Statuses(byId)) && HasTurns(turns', running', running'.Keys)
      ensures Unfinished(Statuses(byId)) == old(Unfinished(Statuses(byId)))
      ensures ready != [] || running != map[] ==> running' != map[]
    {
      running', turns' := running, turns;
      hide Accounts, Tracks, HasTurns;
      for i := 0 to |ready|
        invariant Accounts(g, Statuses(byId), running', results, client, maxAttempts)
        invariant Tracks(running'.Keys, Statuses(byId)) && HasTurns(turns', running', running'.Keys)
        invariant StillReady(ready[i..], g, Statuses(byId), steps)
        invariant Unfinished(Statuses(byId)) == old(Unfinished(Statuses(byId)))
        invariant i > 0 || running != map[] ==> running' != map[]
      {
        ghost var st := Statuses(byId);
        StartKeepsReady(ready[i..], g, st, steps);
        running', turns' := Start(g, byId, steps, ready[i], running', results, turns');
        assert running'[ready[i].id] == 1;
      }
    }

    /** One turn of the main loop: start what is ready, then wait for a completion. */
    method Round(ghost g: Graph, byId: map<string, Step>, ghost steps: seq<Step>, ready: seq<Step>,
                 running: map<string, int>, results: map<string, Task>, ghost turns: multiset<string>)
      returns (running': map<string, int>, results': map<string, Task>, ghost turns': multiset<string>)
      requires Maps(byId, steps) && AreReady(ready, g, Statuses(byId), steps)
      requires Accounts(g, Statuses(byId), running, results, client, maxAttempts)
      requires Tracks(running.Keys, Statuses(byId)) && HasTurns(turns, running, running.Keys)
      requires ready != [] || running != map[]
      modifies byId.Values`status
      ensures Accounts(g, Statuses(byId), running', results', client, maxAttempts)
      ensures Tracks(running'.Keys, Statuses(byId)) && HasTurns(turns', running', running'.Keys)
      ensures Unfinished(Statuses(byId)) < old(Unfinished(Statuses(byId)))
    {
      hide Accounts, Tracks, HasTurns, AreReady, OnlyMoves, Unfinished;
      running', turns' := StartAll(g, byId, steps, ready, running, results, turns);
      ghost var st, started := Statuses(byId), running'.Keys;
      KeysAreSteps(g, st, running', results, client, maxAttempts);
      running', results', turns' := Wait(g, byId, steps, running', results, turns');
      WaitFinishes(st, Statuses(byId), started, running'.Keys);
    }

    /** The main loop of `run`: start what is ready, wait for a completion, look again. */
    method Drive(ghost g: Graph, byId: map<string, Step>, steps: seq<Step>) returns (results: map<string, Task>)
      requires Maps(byId, steps) && Describes(g, byId) && UniqueIds(steps)
      requires forall id | id in Statuses(byId) :: Statuses(byId)[id] == PENDING
      modifies byId.Values`status
      ensures Accounts(g, Statuses(byId), map[], results, client, maxAttempts) && Stuck(g, Statuses(byId))
    {
      hide *;
      results := map[];
      var running: map<string, int> := map[];
      ghost var turns := multiset{};
      FreshAccounts(g, Statuses(byId), client, maxAttempts);
      NoTurns();
      var ready := ReadySteps(g, byId, steps);
      while ready != [] || running != map[]
        invariant Accounts(g, Statuses(byId), running, results, client, maxAttempts)
        invariant Tracks(running.Keys, Statuses(byId)) && HasTurns(turns, running, running.Keys)
        invariant AreReady(ready, g, Statuses(byId), steps)
        decreases Unfinished(Statuses(byId))
      {
        running, results, turns := Round(g, byId, steps, ready, running, results, turns);
        ready := ReadySteps(g, byId, steps);
      }
      assert ready == [] && running == map[];
      StatusKeys(byId);
      NothingLeftIsStuck(g, Statuses(byId), byId, steps);
    }

    method BlockStep(byId: map<string, Step>, ghost steps: seq<Step>, s: Step, results: map<string, Task>)
      returns (updated: map<string, Task>)
      requires Maps(byId, steps) && s in steps
      modifies s`status
      ensures var st := old(Statuses(byId));
        if st[s.id] == PENDING
        then Statuses(byId) == st[s.id := FAILED] && updated == results[s.id := BlockedTask(s.id)]
        else Statuses(byId) == st && updated == results
    {
      updated := results;
      if s.status == PENDING {
        s.status := FAILED;
        updated := updated[s.id := BlockedTask(s.id)];
      }
    }

    /** Whatever is still pending is failed, with a result that says why. */
    method BlockRest(byId: map<string, Step>, steps: seq<Step>, results: map<string, Task>) returns (updated: map<string, Task>)
      requires Maps(byId, steps) && UniqueIds(steps) && results.Keys <= byId.Keys
      modifies byId.Values`status
      ensures updated.Keys <= byId.Keys
      ensures forall id | id in byId ::
                BlockedAs(old(Statuses(byId)), results, Statuses(byId), updated, id)
    {
      hide BlockedSoFar;
      updated := results;
      ghost var st0, handled := Statuses(byId), {};
      NoneBlocked(st0, results);
      for i := 0 to |steps|
        invariant updated.Keys <= byId.Keys
        invariant forall k | 0 <= k < |steps| :: steps[k].id in handled <==> k < i
        invariant BlockedSoFar(st0, results, Statuses(byId), updated, handled)
      {
        BlockOne(st0, results, Statuses(byId), updated, handled, steps[i].id);
        updated := BlockStep(byId, steps, steps[i], updated);
        handled := handled + {steps[i].id};
      }
      forall id | id in byId ensures id in handled {
        assert byId[id] in steps;
      }
      AllBlocked(st0, results, Statuses(byId), updated, handled);
    }

    method MapSteps(steps: seq<Step>) returns (byId: map<string, Step>)
      requires UniqueIds(steps)
      ensures Maps(byId, steps) && byId.Keys == Ids(steps)
    {
      byId := map[];
      for i := 0 to |steps|
        invariant forall k | 0 <= k < i :: steps[k].id in byId && byId[steps[k].id] == steps[k]
        invariant forall id | id in byId :: byId[id] in steps[..i] && byId[id].id == id
      {
        byId := byId[steps[i].id := steps[i]];
        assert steps[..i + 1] == steps[..i] + [steps[i]];
      }
    }

    lemma MapDescribes(byId: map<string, Step>, steps: seq<Step>)
      requires Maps(byId, steps) && UniqueIds(steps) && AllSound(steps) && byId.Keys == Ids(steps)
      ensures Describes(GraphOf(steps), byId)
    {
      GraphHasIds(steps);
      GraphIsClosed(steps);
      forall id | id in byId ensures GraphOf(steps)[id] == byId[id].dependsOn {
        var i :| 0 <= i < |steps| && steps[i] == byId[id];
        GraphHasDependencies(steps, i);
      }
    }

    lemma SettledSteps(byId: map<string, Step>, steps: seq<Step>, results: map<string, Task>, rank: map<string, nat>)
      requires Maps(byId, steps) && Settled(steps, Statuses(byId), results, rank, client, maxAttempts)
      ensures IsRank(GraphOf(steps), rank) && results.Keys <= Ids(steps)
      ensures forall i | 0 <= i < |steps| :: SettledStep(steps[i], GraphOf(steps), rank, results, client, maxAttempts)
    {
      GraphHasIds(steps);
    }

    /** `run`. A refused plan is untouched. In an accepted one every step ends up succeeded or failed,
        whichever way the coroutines were interleaved: succeeded exactly if some attempt completes and
        all of its dependencies succeeded, with the result of that attempt. */
    method Run(steps: seq<Step>) returns (r: Result<map<string, Task>, PlanError>, ghost rank: map<string, nat>)
      modifies steps
      ensures r.Err? ==> old(Judges(Some(r.error), steps)) && forall s | s in steps :: s.status == old(s.status)
      ensures r.Ok? ==>
                && old(Judges(None, steps))
                && IsRank(GraphOf(steps), rank) && r.value.Keys <= Ids(steps)
                && (forall i | 0 <= i < |steps| :: Outcome(steps, i, r.value, client, maxAttempts))
                && forall i | 0 <= i < |steps| :: SettledStep(steps[i], GraphOf(steps), rank, r.value, client, maxAttempts)
    {
      hide Settled, SettledStep, Accounts, Stuck, Outcome;
      var verdict;
      ghost var cycle;
      verdict, rank, cycle := ValidatePlan(steps);
      if verdict.Some? {
        return Err(verdict.value), rank;
      }
      var byId := MapSteps(steps);
      ghost var g := GraphOf(steps);
      MapDescribes(byId, steps);
      var results := Drive(g, byId, steps);
      ghost var st, settled := Statuses(byId), results;
      KeysAreSteps(g, st, map[], results, client, maxAttempts);
      results := BlockRest(byId, steps, results);
      BlockingSettles(steps, st, settled, rank, client, maxAttempts, Statuses(byId), results);
      SettledSteps(byId, steps, results, rank);
      forall i | 0 <= i < |steps| ensures Outcome(steps, i, results, client, maxAttempts) {
        SettledOutcome(steps, i, rank, results, client, maxAttempts);
      }
      return Ok(results), rank;
    }
  }
}
