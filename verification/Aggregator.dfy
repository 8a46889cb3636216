/** The aggregator: one report for the whole plan. */
module Aggregator {
  import opened Wrappers
  import opened Text
  import opened Graphs
  import opened Plans
  import opened Dispatcher

  function StripLeft(s: string): string {
    if s != "" && IsSpace(s[0]) then StripLeft(s[1..]) else s
  }

  function StripRight(s: string): string {
    if s != "" && IsSpace(s[|s| - 1]) then StripRight(s[..|s| - 1]) else s
  }

  /** Python's `str.strip`. */
  function Strip(s: string): string {
    StripRight(StripLeft(s))
  }

  /** Python's `"\n".join`. */
  function Lines(texts: seq<string>): string {
    if texts == [] then ""
    else if |texts| == 1 then texts[0]
    else texts[0] + "\n" + Lines(texts[1..])
  }

  function PartTexts(parts: seq<Part>): seq<string> {
    if parts == [] then []
    else (if parts[0].TextPart? then [parts[0].text] else []) + PartTexts(parts[1..])
  }

  function ArtifactTexts(artifacts: seq<Artifact>): seq<string> {
    if artifacts == [] then [] else PartTexts(artifacts[0].parts) + ArtifactTexts(artifacts[1..])
  }

  function StatusName(s: Status): string {
    match s
    case PENDING => "pending"
    case RUNNING => "running"
    case SUCCEEDED => "succeeded"
    case FAILED => "failed"
  }

  function Heading(s: Step): string
    reads s
  {
    "[" + s.id + "@" + s.target + "] " + StatusName(s.status)
  }

  function Report(s: Step, results: map<string, Task>): string
    reads s
  {
    Strip(Heading(s) + "\n" + if s.id in results then Lines(ArtifactTexts(results[s.id].artifacts)) else "")
  }

  /** What a report shows of its result, one text part after the other, in order. */
  lemma {:induction false} ArtifactTextsGrow(artifacts: seq<Artifact>, id: string, parts: seq<Part>, part: Part)
    ensures ArtifactTexts([]) == [] && ArtifactTexts(artifacts + [Artifact(id, [])]) == ArtifactTexts(artifacts)
    ensures ArtifactTexts(artifacts + [Artifact(id, parts + [part])])
         == ArtifactTexts(artifacts + [Artifact(id, parts)])
            + match part case TextPart(text) => [text] case OtherPart => []
  {
    PartTextsGrow(parts, part);
    if artifacts != [] {
      ArtifactTextsGrow(artifacts[1..], id, parts, part);
      assert (artifacts + [Artifact(id, [])])[1..] == artifacts[1..] + [Artifact(id, [])];
      assert (artifacts + [Artifact(id, parts)])[1..] == artifacts[1..] + [Artifact(id, parts)];
      assert (artifacts + [Artifact(id, parts + [part])])[1..] == artifacts[1..] + [Artifact(id, parts + [part])];
    } else {
      assert [Artifact(id, parts)][1..] == [] && [Artifact(id, parts + [part])][1..] == [] && [Artifact(id, [])][1..] == [];
      assert artifacts + [Artifact(id, parts)] == [Artifact(id, parts)];
      assert artifacts + [Artifact(id, parts + [part])] == [Artifact(id, parts + [part])];
      assert artifacts + [Artifact(id, [])] == [Artifact(id, [])];
    }
  }

  lemma {:induction false} PartTextsGrow(parts: seq<Part>, part: Part)
    ensures PartTexts(parts + [part]) == PartTexts(parts) + if part.TextPart? then [part.text] else []
  {
    if parts != [] {
      PartTextsGrow(parts[1..], part);
      assert (parts + [part])[1..] == parts[1..] + [part];
    } else {
      assert parts + [part] == [part] && [part][1..] == [];
    }
  }

  /** One text per line. */
  lemma {:induction false} LinesGrow(texts: seq<string>, text: string)
    ensures Lines([]) == "" && Lines([text]) == text
    ensures texts != [] ==> Lines(texts + [text]) == Lines(texts) + "\n" + text
  {
    if |texts| > 1 {
      LinesGrow(texts[1..], text);
      assert (texts + [text])[1..] == texts[1..] + [text];
    } else if |texts| == 1 {
      assert (texts + [text])[1..] == [text];
    }
  }

  lemma {:induction false} StripRightExactly(s: string)
    ensures StripRight(s) <= s && forall k | |StripRight(s)| <= k < |s| :: IsSpace(s[k])
    ensures StripRight(s) == "" || !IsSpace(StripRight(s)[|StripRight(s)| - 1])
    decreases |s|
  {
    if s != "" && IsSpace(s[|s| - 1]) {
      StripRightExactly(s[..|s| - 1]);
    }
  }

  /** A report is the step, its target and its status, and on the lines below the texts of its result, if it
      has one, without trailing white space. */
  lemma ReportSays(s: Step, results: map<string, Task>)
    ensures var texts := if s.id in results then ArtifactTexts(results[s.id].artifacts) else [];
      var status := match s.status
                    case PENDING => "pending" case RUNNING => "running"
                    case SUCCEEDED => "succeeded" case FAILED => "failed";
      var full, report := "[" + s.id + "@" + s.target + "] " + status + "\n" + Lines(texts), Report(s, results);
      && report <= full
      && (forall k | |report| <= k < |full| :: IsSpace(full[k]))
      && report != "" && !IsSpace(report[|report| - 1])
  {
    var text := Heading(s) + "\n" + if s.id in results then Lines(ArtifactTexts(results[s.id].artifacts)) else "";
    assert text[0] == '[';
    StripRightExactly(text);
    ReportKeepsHeading(s, results);
  }

  lemma {:induction false} StripRightKeeps(s: string, n: nat)
    requires 0 < n <= |s| && !IsSpace(s[n - 1])
    ensures s[..n] <= StripRight(s)
    decreases |s|
  {
    if IsSpace(s[|s| - 1]) {
      StripRightKeeps(s[..|s| - 1], n);
      assert s[..|s| - 1][..n] == s[..n];
    }
  }

  /** Stripping never touches the heading, so every report names its step, its target and its status. */
  lemma ReportKeepsHeading(s: Step, results: map<string, Task>)
    ensures Heading(s) <= Report(s, results)
  {
    var text := Heading(s) + "\n" + if s.id in results then Lines(ArtifactTexts(results[s.id].artifacts)) else "";
    var n := |Heading(s)|;
    assert text[..n] == Heading(s) && text[0] == '[';
    var name := StatusName(s.status);
    assert text[n - 1] == name[|name| - 1];
    StripRightKeeps(text, n);
  }

  /** `collect`: one part per step, in plan order, and completed exactly if every step succeeded. */
  method Collect(taskId: string, steps: seq<Step>, results: map<string, Task>) returns (task: Task)
    ensures task.id == taskId && task.state in {"completed", "failed"}
    ensures task.state == "completed" <==> forall i | 0 <= i < |steps| :: steps[i].status == SUCCEEDED
    ensures |task.artifacts| == 1 && task.artifacts[0].artifactId == "plan" && |task.artifacts[0].parts| == |steps|
    ensures forall i | 0 <= i < |steps| :: task.artifacts[0].parts[i] == TextPart(Report(steps[i], results))
  {
    hide Report;
    var parts := [];
    var completed := true;
    for i := 0 to |steps|
      invariant |parts| == i
      invariant forall k | 0 <= k < i :: parts[k] == TextPart(Report(steps[k], results))
      invariant completed <==> forall k | 0 <= k < i :: steps[k].status == SUCCEEDED
    {
      parts := parts + [TextPart(Report(steps[i], results))];
      completed := completed && steps[i].status == SUCCEEDED;
    }
    var state := if completed then "completed" else "failed";
    return Task(taskId, state, [Artifact("plan", parts)]);
  }

  /** Dispatching a plan and collecting its results: the report says completed exactly if every step
      is fine, that is, if for every step some attempt completes. */
  method RunAndCollect(dispatcher: Dispatcher, taskId: string, steps: seq<Step>)
    returns (r: Result<Task, PlanError>, ghost rank: map<string, nat>)
    modifies steps
    ensures r.Err? ==> old(Judges(Some(r.error), steps))
    ensures r.Ok? ==>
              && old(Judges(None, steps))
              && (r.value.state == "completed"
                  <==> forall i | 0 <= i < |steps| :: GetsCompleted(dispatcher.client, steps[i].id, dispatcher.maxAttempts))
  {
    hide Outcome, SettledStep, Report, GetsCompleted;
    var results;
    results, rank := dispatcher.Run(steps);
    if results.Err? {
      return Err(results.error), rank;
    }
    var task := Collect(taskId, steps, results.value);
    AllSucceedExactly(steps, rank, results.value, dispatcher.client, dispatcher.maxAttempts);
    return Ok(task), rank;
  }

  /** Every step has succeeded exactly if every step has a completing attempt. */
  lemma AllSucceedExactly(steps: seq<Step>, rank: map<string, nat>, results: map<string, Task>, client: Client, max: int)
    requires IsRank(GraphOf(steps), rank)
    requires forall i | 0 <= i < |steps| :: SettledStep(steps[i], GraphOf(steps), rank, results, client, max)
    ensures (forall i | 0 <= i < |steps| :: steps[i].status == SUCCEEDED)
       <==> forall i | 0 <= i < |steps| :: GetsCompleted(client, steps[i].id, max)
  {
    hide Fine, Expected, IsRank, Succeeds, GetsCompleted;
    var g := GraphOf(steps);
    GraphHasIds(steps);
    AllFineExactly(g, rank, client, max);
    forall i | 0 <= i < |steps|
      ensures steps[i].id in g && (steps[i].status == SUCCEEDED <==> Fine(g, rank, client, max, steps[i].id))
      ensures Succeeds(client, steps[i].id, max) <==> GetsCompleted(client, steps[i].id, max)
    {
      var settled := SettledStep(steps[i], g, rank, results, client, max);
      SucceedsExactly(client, steps[i].id, max);
    }
    forall id | id in g ensures exists i | 0 <= i < |steps| :: steps[i].id == id {
    }
  }

  lemma {:induction false} FineIfAllSucceed(g: Graph, rank: map<string, nat>, client: Client, max: int, id: string)
    requires IsRank(g, rank) && id in g && forall v | v in g :: Succeeds(client, v, max)
    ensures Fine(g, rank, client, max, id)
    decreases if id in rank then rank[id] else 0
  {
    forall d | Edge(g, id, d) && d in g ensures Fine(g, rank, client, max, d) {
      FineIfAllSucceed(g, rank, client, max, d);
    }
  }

  lemma AllFineExactly(g: Graph, rank: map<string, nat>, client: Client, max: int)
    requires IsRank(g, rank)
    ensures (forall id | id in g :: Fine(g, rank, client, max, id)) <==> forall id | id in g :: Succeeds(client, id, max)
  {
    if forall id | id in g :: Succeeds(client, id, max) {
      forall id | id in g ensures Fine(g, rank, client, max, id) {
        FineIfAllSucceed(g, rank, client, max, id);
      }
    }
  }
}
