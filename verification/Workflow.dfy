/** The workflow recorder and replayer of src/mcp_server.rs: tool calls are dispatched, recorded
    while recording is on, and a replay dispatches recorded calls again.  The tools that act on
    the desktop are foreign: they take some time and succeed or fail.  Millisecond counters are
    unbounded and delay multipliers are exact. */
module Workflow {
  import opened Common

  // ---------------------------------------------------------------- JSON values

  /** A number that is not an unsigned integer, as an exact quotient. */
  datatype Ratio = Ratio(num: int, den: Positive)

  type Positive = n: int | n > 0 witness 1

  /** A value, by what this code reads of it: an object is the fields that are looked up,
      null where a field is absent. */
  datatype Json =
    | Null
    | UInt(n: nat)
    | Float(q: Ratio)
    | Str(s: string)
    | Arr(items: seq<Json>)
    | Workflow(steps: Json, delayMultiplier: Json)
    | WorkflowStep(toolName: Json, arguments: Json, delayMs: Json, timestampMs: Json)
    | Other(text: string)

  function StrOr(v: Json, default: string): string { if v.Str? then v.s else default }

  function UIntOr(v: Json, default: nat): nat { if v.UInt? then v.n else default }

  function RatioOr(v: Json, default: Ratio): Ratio {
    match v
    case UInt(n) => Ratio(n, 1)
    case Float(q) => q
    case _ => default
  }

  // ---------------------------------------------------------------- calls and recorded steps

  const START := "start_recording"
  const STOP := "stop_recording"
  const REPLAY := "replay_workflow"

  datatype Call = Call(tool: string, arguments: Json)

  datatype Step = Step(call: Call, timestamp: nat)

  predicate IsMeta(tool: string) { tool == START || tool == STOP || tool == REPLAY }

  /** A request that does not name its tool with a string names the empty tool. */
  function RequestCall(name: Json, arguments: Json): Call { Call(StrOr(name, ""), arguments) }

  function StepCall(step: Json): Call {
    if step.WorkflowStep? then RequestCall(step.toolName, step.arguments) else Call("", Null)
  }

  function StepDelay(step: Json): nat {
    if step.WorkflowStep? then UIntOr(step.delayMs, 0) else 0
  }

  function StepJson(step: Step, previous: nat): Json {
    WorkflowStep(Str(step.call.tool), step.call.arguments,
                 UInt(if step.timestamp < previous then 0 else step.timestamp - previous), UInt(step.timestamp))
  }

  function LastTimestamp(steps: seq<Step>): nat {
    if steps == [] then 0 else steps[|steps| - 1].timestamp
  }

  function StepsJson(steps: seq<Step>): seq<Json> {
    if steps == [] then []
    else
      var before := steps[..|steps| - 1];
      StepsJson(before) + [StepJson(steps[|steps| - 1], LastTimestamp(before))]
  }

  datatype Recording = Recording(steps: seq<Json>, count: nat)

  /** What `stop_recording` answers. */
  function Recorded(steps: seq<Step>): Recording { Recording(StepsJson(steps), |steps|) }

  function Calls(steps: seq<Step>): seq<Call> {
    if steps == [] then [] else Calls(steps[..|steps| - 1]) + [steps[|steps| - 1].call]
  }

  /** What is read of a request, a step and a multiplier: a tool name is a string, a delay an unsigned
      integer and a multiplier a number, and otherwise they are empty, 0 and 1. */
  lemma ReadsJson(name: string, other: Json, arguments: Json, n: nat, q: Ratio, timestamp: Json)
    requires !other.Str? && !other.UInt? && !other.Float?
    ensures RequestCall(Str(name), arguments) == Call(name, arguments)
    ensures RequestCall(other, arguments) == Call("", arguments)
    ensures StepDelay(WorkflowStep(other, arguments, UInt(n), timestamp)) == n
    ensures StepDelay(WorkflowStep(other, arguments, Float(q), timestamp)) == 0
    ensures StepDelay(WorkflowStep(other, arguments, other, timestamp)) == 0
    ensures Multiplier(Workflow(other, UInt(n))) == Ratio(n, 1)
    ensures Multiplier(Workflow(other, Float(q))) == q
    ensures Multiplier(Workflow(other, other)) == Ratio(1, 1)
    ensures !other.Workflow? ==> Multiplier(other) == Ratio(1, 1)
    ensures StepCall(WorkflowStep(Str(name), arguments, other, timestamp)) == Call(name, arguments)
    ensures !other.WorkflowStep? ==> StepCall(other) == Call("", Null) && StepDelay(other) == 0
  {
  }

  /** The meta tools by name. */
  lemma MetaTools(tool: string)
    ensures IsMeta(tool) <==> tool in {"start_recording", "stop_recording", "replay_workflow"}
  {
  }

  /** The recorded step `i` as it is answered: its tool, arguments, time since the step before, and time. */
  lemma {:induction false} RecordedStep(steps: seq<Step>, i: nat)
    requires i < |steps|
    ensures |StepsJson(steps)| == |steps|
    ensures var t, before := steps[i].timestamp, if i == 0 then 0 else steps[i - 1].timestamp;
      StepsJson(steps)[i] == WorkflowStep(Str(steps[i].call.tool), steps[i].call.arguments,
                                          UInt(if t < before then 0 else t - before), UInt(t))
    decreases |steps|
  {
    StepsJsonLength(steps[..|steps| - 1]);
    if i < |steps| - 1 { RecordedStep(steps[..|steps| - 1], i); }
  }

  // ---------------------------------------------------------------- the meaning of a call

  /** The primitive calls a list of workflow steps stands for: meta tools are skipped. */
  function FlattenSteps(steps: seq<Json>): seq<Call> {
    if steps == [] then []
    else
      var c := StepCall(steps[|steps| - 1]);
      FlattenSteps(steps[..|steps| - 1]) + if IsMeta(c.tool) then [] else [c]
  }

  function StepsField(arguments: Json): Json { if arguments.Workflow? then arguments.steps else Null }

  function WorkflowOf(arguments: Json): seq<Json> {
    if StepsField(arguments).Arr? then StepsField(arguments).items else []
  }

  function Flatten(c: Call): seq<Call> {
    if c.tool == REPLAY then FlattenSteps(WorkflowOf(c.arguments))
    else if IsMeta(c.tool) then []
    else [c]
  }

  function FlattenAll(calls: seq<Call>): seq<Call> {
    if calls == [] then [] else FlattenAll(calls[..|calls| - 1]) + Flatten(calls[|calls| - 1])
  }

  /** The product of a delay and a multiplier, cut to whole milliseconds. */
  function Scaled(delay: nat, multiplier: Ratio): nat
    requires multiplier.num > 0
  {
    delay * multiplier.num / multiplier.den
  }

  /** How long a replay pauses before step number `i`. */
  function Pause(i: nat, step: Json, multiplier: Ratio): nat {
    var delay := StepDelay(step);
    if i > 0 && delay > 0 && multiplier.num > 0 then Scaled(delay, multiplier) else 0
  }

  /** The pauses of the steps that are not skipped, in order. */
  function Pauses(steps: seq<Json>, multiplier: Ratio): seq<nat> {
    if steps == [] then []
    else
      var last := |steps| - 1;
      Pauses(steps[..last], multiplier)
        + if IsMeta(StepCall(steps[last]).tool) then [] else [Pause(last, steps[last], multiplier)]
  }

  function Sum(s: seq<nat>): nat {
    if s == [] then 0 else Sum(s[..|s| - 1]) + s[|s| - 1]
  }

  function Multiplier(arguments: Json): Ratio {
    if arguments.Workflow? then RatioOr(arguments.delayMultiplier, ONE) else ONE
  }

  const ONE := Ratio(1, 1)

  /** Total time a call spends in replay pauses. */
  function PauseTime(c: Call): nat {
    if c.tool == REPLAY then Sum(Pauses(WorkflowOf(c.arguments), Multiplier(c.arguments))) else 0
  }

  /** The abstract recorder: whether it records, and which calls it holds. */
  datatype Log = Log(recording: bool, calls: seq<Call>)

  function Apply(log: Log, c: Call): Log {
    if c.tool == START then Log(true, [])
    else if c.tool == STOP then Log(false, [])
    else if log.recording then log.(calls := log.calls + Flatten(c))
    else log
  }

  function ApplyAll(log: Log, calls: seq<Call>): Log {
    if calls == [] then log else Apply(ApplyAll(log, calls[..|calls| - 1]), calls[|calls| - 1])
  }

  /** The numbers of the steps that are replayed, in order: all but the meta tools. */
  ghost predicate Replayable(steps: seq<Json>, at: seq<nat>) {
    && (forall j, k :: 0 <= j < k < |at| ==> at[j] < at[k])
    && (forall k :: 0 <= k < |at| ==> at[k] < |steps|)
    && (forall i: nat :: i < |steps| ==> (i in at <==> !IsMeta(StepCall(steps[i]).tool)))
  }

  ghost predicate ReplayedAt(steps: seq<Json>, at: seq<nat>, multiplier: Ratio) {
    && |FlattenSteps(steps)| == |Pauses(steps, multiplier)| == |at|
    && forall k :: 0 <= k < |at| ==>
         && at[k] < |steps| && FlattenSteps(steps)[k] == StepCall(steps[at[k]])
         && Pauses(steps, multiplier)[k] == Pause(at[k], steps[at[k]], multiplier)
  }

  ghost predicate ReportedAt(steps: seq<Json>, at: seq<nat>, outcomes: seq<bool>) {
    && |Results(steps, outcomes)| == |at| == |outcomes|
    && forall k :: 0 <= k < |at| ==>
         at[k] < |steps| && Results(steps, outcomes)[k] == StepResult(at[k], StepCall(steps[at[k]]).tool, outcomes[k])
  }

  lemma ReplayableMore(before: seq<Json>, at: seq<nat>, step: Json)
    requires Replayable(before, at)
    ensures Replayable(before + [step], if IsMeta(StepCall(step).tool) then at else at + [|before|])
  {
    var n, steps := |before|, before + [step];
    assert n !in at;
    forall i: nat | i < n
      ensures i in at + [n] <==> i in at
      ensures steps[i] == before[i]
    {
    }
  }

  lemma ReplayedMore(before: seq<Json>, at: seq<nat>, step: Json, multiplier: Ratio)
    requires ReplayedAt(before, at, multiplier)
    ensures ReplayedAt(before + [step], if IsMeta(StepCall(step).tool) then at else at + [|before|], multiplier)
  {
    assert (before + [step])[..|before|] == before;
  }

  lemma ReportedMore(before: seq<Json>, at: seq<nat>, step: Json, outcomes: seq<bool>, ok: bool)
    requires ReportedAt(before, at, outcomes)
    ensures if IsMeta(StepCall(step).tool) then ReportedAt(before + [step], at, outcomes)
            else ReportedAt(before + [step], at + [|before|], outcomes + [ok])
  {
    assert (before + [step])[..|before|] == before && (outcomes + [ok])[..|outcomes|] == outcomes;
  }

  ghost function Numbers(steps: seq<Json>): seq<nat> {
    if steps == [] then []
    else
      var last := |steps| - 1;
      if IsMeta(StepCall(steps[last]).tool) then Numbers(steps[..last]) else Numbers(steps[..last]) + [last]
  }

  lemma {:induction false} NumbersReplayable(steps: seq<Json>)
    ensures Replayable(steps, Numbers(steps))
  {
    if steps != [] {
      var before, step := steps[..|steps| - 1], steps[|steps| - 1];
      NumbersReplayable(before);
      ReplayableMore(before, Numbers(before), step);
      assert steps == before + [step];
    }
  }

  lemma {:induction false} NumbersReplayed(steps: seq<Json>, multiplier: Ratio)
    ensures ReplayedAt(steps, Numbers(steps), multiplier)
  {
    if steps != [] {
      var before, step := steps[..|steps| - 1], steps[|steps| - 1];
      assert steps == before + [step];
      NumbersReplayed(before, multiplier);
      var at := if IsMeta(StepCall(step).tool) then Numbers(before) else Numbers(before) + [|before|];
      assert ReplayedAt(steps, at, multiplier) by { ReplayedMore(before, Numbers(before), step, multiplier); }
    }
  }

  lemma {:induction false} NumbersReported(steps: seq<Json>, outcomes: seq<bool>)
    requires |outcomes| == |Numbers(steps)|
    ensures ReportedAt(steps, Numbers(steps), outcomes)
  {
    if steps != [] {
      var before, step := steps[..|steps| - 1], steps[|steps| - 1];
      assert steps == before + [step];
      if IsMeta(StepCall(step).tool) {
        NumbersReported(before, outcomes);
        ReportedMore(before, Numbers(before), step, outcomes, true);
      } else {
        var fewer, ok := outcomes[..|outcomes| - 1], outcomes[|outcomes| - 1];
        NumbersReported(before, fewer);
        ReportedMore(before, Numbers(before), step, fewer, ok);
        assert outcomes == fewer + [ok];
      }
    }
  }

  /** A replay calls, pauses before and reports each step that is not a meta tool, in order, under its
      own number and with its own outcome; the k-th of them is step `at[k]`. */
  lemma ReplayedSteps(steps: seq<Json>, multiplier: Ratio, outcomes: seq<bool>) returns (at: seq<nat>)
    ensures Replayable(steps, at) && ReplayedAt(steps, at, multiplier)
    ensures |outcomes| == |at| ==> ReportedAt(steps, at, outcomes)
  {
    at := Numbers(steps);
    NumbersReplayable(steps);
    NumbersReplayed(steps, multiplier);
    if |outcomes| == |at| { NumbersReported(steps, outcomes); }
  }

  // ---------------------------------------------------------------- the recorder

  datatype StepResult = StepResult(step: nat, tool: string, success: bool)

  datatype Content = Text | Stopped(recorded: Recording) | Replayed(results: seq<StepResult>)

  type Answer = Result<Content, string>

  /** What a replay reports, given the outcomes of the calls it made: each step that is not
      skipped, under its own number, with its own outcome. */
  function Results(steps: seq<Json>, outcomes: seq<bool>): seq<StepResult> {
    if steps == [] then []
    else
      var last := |steps| - 1;
      var c := StepCall(steps[last]);
      if IsMeta(c.tool) || outcomes == [] then Results(steps[..last], outcomes)
      else Results(steps[..last], outcomes[..|outcomes| - 1]) + [StepResult(last, c.tool, outcomes[|outcomes| - 1])]
  }

  ghost predicate Chronological(steps: seq<Step>) {
    forall i, j :: 0 <= i <= j < |steps| ==> steps[i].timestamp <= steps[j].timestamp
  }

  ghost predicate NoMeta(steps: seq<Step>) {
    forall i :: 0 <= i < |steps| ==> !IsMeta(steps[i].call.tool)
  }

  /** From step `from` on, consecutive timestamps are at least the given pauses apart. */
  ghost predicate Spaced(steps: seq<Step>, from: nat, pauses: seq<nat>) {
    && |steps| == from + |pauses|
    && forall j :: 1 <= j < |pauses| ==> steps[from + j].timestamp >= steps[from + j - 1].timestamp + pauses[j]
  }

  /** What dispatching `calls` has done: from the steps `before` to the steps `after`, with the
      given pauses. */
  ghost predicate Replays(before: seq<Step>, after: seq<Step>, recording: bool, calls: seq<Call>, pauses: seq<nat>,
                          pauseTime: nat)
  {
    && before <= after
    && Calls(after) == Calls(before) + (if recording then calls else [])
    && pauseTime == Sum(pauses)
    && (recording ==> Spaced(after, |before|, pauses))
  }

  /** The results so far are those of the steps so far, one outcome for each call. */
  ghost predicate Reports(steps: seq<Json>, outcomes: seq<bool>, results: seq<StepResult>) {
    results == Results(steps, outcomes) && |outcomes| == |FlattenSteps(steps)|
  }

  lemma {:induction false} ReplaysOneMore(before: seq<Step>, mid: seq<Step>, after: seq<Step>, recording: bool,
                                          calls: seq<Call>, c: Call, pauses: seq<nat>, pause: nat, pauseTime: nat)
    requires Replays(before, mid, recording, calls, pauses, pauseTime)
    requires mid <= after && Calls(after) == Calls(mid) + (if recording then [c] else [])
    requires recording ==> |after| == |mid| + 1 && LastTimestamp(after) >= LastTimestamp(mid) + pause
    ensures Replays(before, after, recording, calls + [c], pauses + [pause], pauseTime + pause)
  {
    SumAppend(pauses, pause);
    if recording {
      OneMoreSpaced(mid, after, |before|, pauses, pause);
    }
  }

  /** The same for one more workflow step, which may be skipped. */
  lemma {:induction false} ReplaysNext(before: seq<Step>, mid: seq<Step>, after: seq<Step>, recording: bool,
                                       workflow: seq<Json>, i: nat, multiplier: Ratio, spent: nat, pauseTime: nat)
    requires i < |workflow|
    requires Replays(before, mid, recording, FlattenSteps(workflow[..i]), Pauses(workflow[..i], multiplier), spent)
    requires IsMeta(StepCall(workflow[i]).tool) ==> after == mid && pauseTime == spent
    requires !IsMeta(StepCall(workflow[i]).tool) ==>
      && pauseTime == spent + Pause(i, workflow[i], multiplier)
      && mid <= after && Calls(after) == Calls(mid) + (if recording then [StepCall(workflow[i])] else [])
      && (recording ==> && |after| == |mid| + 1
                        && LastTimestamp(after) >= LastTimestamp(mid) + Pause(i, workflow[i], multiplier))
    ensures Replays(before, after, recording, FlattenSteps(workflow[..i + 1]), Pauses(workflow[..i + 1], multiplier),
                    pauseTime)
  {
    OneMoreStep(workflow, i, multiplier);
    var calls, pauses := FlattenSteps(workflow[..i]), Pauses(workflow[..i], multiplier);
    if IsMeta(StepCall(workflow[i]).tool) {
      assert calls + [] == calls && pauses + [] == pauses;
    } else {
      ReplaysOneMore(before, mid, after, recording, calls, StepCall(workflow[i]), pauses,
                     Pause(i, workflow[i], multiplier), spent);
    }
  }

  /** What one turn adds to the results. */
  ghost predicate TurnReports(i: nat, step: Json, before: seq<bool>, after: seq<bool>, more: seq<StepResult>) {
    if IsMeta(StepCall(step).tool) then more == [] && after == before
    else exists ok :: after == before + [ok] && more == [StepResult(i, StepCall(step).tool, ok)]
  }

  lemma TurnSuffix(i: nat, step: Json, before: seq<bool>, after: seq<bool>, more: seq<StepResult>, known: nat)
    requires TurnReports(i, step, before, after, more) && known <= |before|
    ensures before <= after && TurnReports(i, step, before[known..], after[known..], more)
  {
    if !IsMeta(StepCall(step).tool) {
      var ok :| after == before + [ok] && more == [StepResult(i, StepCall(step).tool, ok)];
      assert after[known..] == before[known..] + [ok];
    }
  }

  lemma ReportsNext(workflow: seq<Json>, i: nat, before: seq<bool>, after: seq<bool>, results: seq<StepResult>,
                    more: seq<StepResult>)
    requires i < |workflow| && Reports(workflow[..i], before, results)
    requires TurnReports(i, workflow[i], before, after, more)
    ensures Reports(workflow[..i + 1], after, results + more)
  {
    assert workflow[..i + 1][..i] == workflow[..i];
    assert results + [] == results;
  }

  class Recorder {
    var recording: bool
    var steps: seq<Step>
    var startTime: Option<nat>
    var now: nat          // the clock, in milliseconds
    ghost var paused: nat // time spent in replay pauses
    ghost var outcomes: seq<bool> // whether each call of a primitive tool succeeded

    ghost predicate Valid()
      reads this
    {
      && (recording <==> startTime.Some?)
      && (!recording ==> steps == [])
      && (recording ==> startTime.value <= now && LastTimestamp(steps) <= now - startTime.value)
      && Chronological(steps)
      && NoMeta(steps)
    }

    ghost function View(): Log
      reads this
    {
      Log(recording, Calls(steps))
    }

    constructor (clock: nat)
      ensures Valid() && View() == Log(false, []) && paused == 0 && outcomes == []
    {
      recording, steps, startTime, now, paused, outcomes := false, [], None, clock, 0, [];
    }

    /** A tool that acts on the desktop, or an unknown name: time passes and it succeeds or fails. */
    method Primitive() returns (r: Answer)
      modifies `now, `outcomes
      ensures now >= old(now) && outcomes == old(outcomes) + [r.Ok?]
    {
      var d: nat :| d >= 0;
      var ok: bool := *;
      now := now + d;
      r := if ok then Ok(Text) else Err("error");
      outcomes := outcomes + [ok];
    }

    method Sleep(ms: nat)
      modifies `now, `paused
      ensures now >= old(now) + ms && paused == old(paused) + ms
    {
      var late: nat :| late >= 0;
      now := now + ms + late;
      paused := paused + ms;
    }

    method StartRecording() returns (r: Answer)
      requires Valid()
      modifies `recording, `steps, `startTime
      ensures Valid() && View() == Log(true, []) && r == Ok(Text)
    {
      recording := true;
      steps := [];
      startTime := Some(now);
      return Ok(Text);
    }

    method StopRecording() returns (r: Answer)
      requires Valid()
      modifies `recording, `steps, `startTime
      ensures Valid() && View() == Log(false, [])
      ensures r == Ok(Stopped(Recorded(old(steps))))
    {
      recording := false;
      var stepsJson: seq<Json> := [];
      var previous := 0;
      for i := 0 to |steps|
        invariant stepsJson == StepsJson(steps[..i]) && previous == LastTimestamp(steps[..i])
      {
        assert steps[..i + 1][..i] == steps[..i];
        stepsJson := stepsJson + [StepJson(steps[i], previous)];
        previous := steps[i].timestamp;
      }
      assert steps[..|steps|] == steps;
      var count := |stepsJson|;
      StepsJsonLength(steps);
      steps := [];
      startTime := None;
      return Ok(Stopped(Recording(stepsJson, count)));
    }

    /** One call `c`.  A call other than start and stop extends the recording by its flattening. */
    method HandleToolsCall(name: Json, arguments: Json, ghost c: Call) returns (r: Answer)
      requires Valid() && c == RequestCall(name, arguments)
      modifies this
      ensures Valid() && View() == Apply(old(View()), c)
      ensures now >= old(now) && paused == old(paused) + PauseTime(c)
      ensures c.tool == STOP ==> r == Ok(Stopped(Recorded(old(steps))))
      ensures c.tool != START && c.tool != STOP ==> startTime == old(startTime)
      ensures old(outcomes) <= outcomes && (!IsMeta(c.tool) ==> outcomes == old(outcomes) + [r.Ok?])
      ensures c.tool == REPLAY ==> (r.Ok? <==> StepsField(arguments).Arr?)
      ensures c.tool == REPLAY && r.Ok? ==>
                r.value.Replayed? && Reports(WorkflowOf(arguments), outcomes[|old(outcomes)|..], r.value.results)
      ensures !IsMeta(c.tool) && recording ==>
                && |steps| == |old(steps)| + 1
                && LastTimestamp(steps) == now - startTime.value >= old(now) - startTime.value
      ensures c.tool != START && c.tool != STOP ==> old(steps) <= steps
      ensures c.tool == REPLAY && recording ==>
                Spaced(steps, |old(steps)|, Pauses(WorkflowOf(c.arguments), Multiplier(c.arguments)))
      decreases if c.tool == REPLAY then 1 else 0, 1
    {
      var toolName := StrOr(name, "");
      if toolName == START {
        r := StartRecording();
      } else if toolName == STOP {
        r := StopRecording();
      } else if toolName == REPLAY {
        r := ReplayWorkflow(arguments);
      } else {
        r := Primitive();
      }
      if !IsMeta(toolName) {
        if recording {
          var elapsed := now - startTime.value;
          steps := steps + [Step(Call(toolName, arguments), elapsed)];
        }
      }
    }

    /** One step of a replay: pause, dispatch, note the outcome. */
    method ReplayStep(i: nat, step: Json, multiplier: Ratio) returns (results: seq<StepResult>)
      requires Valid()
      modifies this
      ensures Valid() && recording == old(recording) && startTime == old(startTime) && now >= old(now)
      ensures IsMeta(StepCall(step).tool) ==>
                View() == old(View()) && steps == old(steps) && paused == old(paused)
      ensures !IsMeta(StepCall(step).tool) ==>
                && View() == Apply(old(View()), StepCall(step))
                && paused == old(paused) + Pause(i, step, multiplier)
                && old(steps) <= steps
                && (recording ==> && |steps| == |old(steps)| + 1
                                  && LastTimestamp(steps) >= LastTimestamp(old(steps)) + Pause(i, step, multiplier))
      ensures TurnReports(i, step, old(outcomes), outcomes, results)
      decreases 0, 2
    {
      var c := StepCall(step);
      var delay := StepDelay(step);
      if IsMeta(c.tool) {
        return [];
      }
      if i > 0 && delay > 0 && multiplier.num > 0 {
        Sleep(Scaled(delay, multiplier));
      }
      var response := HandleToolsCall(Str(c.tool), c.arguments, c);
      results := [StepResult(i, c.tool, response.Ok?)];
    }

    /** One turn of the replay loop, which began at `origin`, `start` and `known`. */
    method ReplayNext(workflow: seq<Json>, i: nat, multiplier: Ratio, results0: seq<StepResult>,
                      ghost origin: seq<Step>, ghost start: nat, ghost known: nat)
      returns (results: seq<StepResult>)
      requires Valid() && i < |workflow| && paused >= start && known <= |outcomes|
      requires Replays(origin, steps, recording, FlattenSteps(workflow[..i]), Pauses(workflow[..i], multiplier),
                       paused - start)
      requires Reports(workflow[..i], outcomes[known..], results0)
      modifies this
      ensures Valid() && recording == old(recording) && startTime == old(startTime)
      ensures now >= old(now) && paused >= old(paused) && old(outcomes) <= outcomes
      ensures Replays(origin, steps, recording, FlattenSteps(workflow[..i + 1]), Pauses(workflow[..i + 1], multiplier),
                      paused - start)
      ensures Reports(workflow[..i + 1], outcomes[known..], results)
      decreases 0, 3
    {
      ghost var before, spent, all := steps, paused - start, outcomes;
      var more := ReplayStep(i, workflow[i], multiplier);
      ReplaysNext(origin, before, steps, recording, workflow, i, multiplier, spent, paused - start);
      TurnSuffix(i, workflow[i], all, outcomes, more, known);
      ReportsNext(workflow, i, all[known..], outcomes[known..], results0, more);
      results := results0 + more;
    }

    /** Meta tools among the steps are skipped, so the recursion goes one level deep. */
    method ReplayWorkflow(arguments: Json) returns (r: Answer)
      requires Valid()
      modifies this
      ensures Valid() && View() == Apply(old(View()), Call(REPLAY, arguments))
      ensures now >= old(now) && paused == old(paused) + PauseTime(Call(REPLAY, arguments))
      ensures startTime == old(startTime) && old(steps) <= steps
      ensures recording ==> Spaced(steps, |old(steps)|, Pauses(WorkflowOf(arguments), Multiplier(arguments)))
      ensures r.Ok? <==> StepsField(arguments).Arr?
      ensures old(outcomes) <= outcomes
      ensures r.Ok? ==>
                r.value.Replayed? && Reports(WorkflowOf(arguments), outcomes[|old(outcomes)|..], r.value.results)
      decreases 1, 0
    {
      ReplayMeaning(View(), arguments);
      if !StepsField(arguments).Arr? {
        NothingToReplay(View(), arguments);
        return Err("steps array is required");
      }
      var results := ReplayAll(WorkflowOf(arguments), Multiplier(arguments));
      return Ok(Replayed(results));
    }

    method ReplayAll(workflow: seq<Json>, multiplier: Ratio) returns (results: seq<StepResult>)
      requires Valid()
      modifies this
      ensures Valid() && recording == old(recording) && startTime == old(startTime)
      ensures now >= old(now) && paused >= old(paused) && old(outcomes) <= outcomes
      ensures Replays(old(steps), steps, recording, FlattenSteps(workflow), Pauses(workflow, multiplier),
                      paused - old(paused))
      ensures Reports(workflow, outcomes[|old(outcomes)|..], results)
      decreases 0, 4
    {
      results := [];
      assert workflow[..0] == [] && Calls(steps) + [] == Calls(steps);
      for i := 0 to |workflow|
        invariant Valid() && recording == old(recording) && startTime == old(startTime)
        invariant now >= old(now) && paused >= old(paused) && old(outcomes) <= outcomes
        invariant Replays(old(steps), steps, recording, FlattenSteps(workflow[..i]), Pauses(workflow[..i], multiplier),
                          paused - old(paused))
        invariant Reports(workflow[..i], outcomes[|old(outcomes)|..], results)
      {
        results := ReplayNext(workflow, i, multiplier, results, old(steps), old(paused), |old(outcomes)|);
      }
      assert workflow[..|workflow|] == workflow;
    }
  }

  /** What a replay records, and how long it pauses. */
  lemma ReplayMeaning(log: Log, arguments: Json)
    ensures Apply(log, Call(REPLAY, arguments)) ==
      if log.recording then log.(calls := log.calls + FlattenSteps(WorkflowOf(arguments))) else log
    ensures PauseTime(Call(REPLAY, arguments)) == Sum(Pauses(WorkflowOf(arguments), Multiplier(arguments)))
  {
  }

  lemma NothingToReplay(log: Log, arguments: Json)
    requires !StepsField(arguments).Arr?
    ensures Apply(log, Call(REPLAY, arguments)) == log && PauseTime(Call(REPLAY, arguments)) == 0
    ensures Pauses(WorkflowOf(arguments), Multiplier(arguments)) == []
  {
    ReplayMeaning(log, arguments);
    assert log.calls + [] == log.calls;
  }

  lemma {:induction false} StepsJsonLength(steps: seq<Step>)
    ensures |StepsJson(steps)| == |steps|
  {
    if steps != [] { StepsJsonLength(steps[..|steps| - 1]); }
  }

  lemma {:induction false} SumAppend(s: seq<nat>, x: nat)
    ensures Sum(s + [x]) == Sum(s) + x
  {
    assert (s + [x])[..|s|] == s;
  }

  lemma OneMoreSpaced(before: seq<Step>, after: seq<Step>, from: nat, pauses: seq<nat>, pause: nat)
    requires Spaced(before, from, pauses)
    requires before <= after && |after| == |before| + 1
    requires LastTimestamp(after) >= LastTimestamp(before) + pause
    ensures Spaced(after, from, pauses + [pause])
  {
    forall j | 1 <= j < |pauses| + 1
      ensures after[from + j].timestamp >= after[from + j - 1].timestamp + (pauses + [pause])[j]
    {
      if j < |pauses| { assert before[from + j].timestamp >= before[from + j - 1].timestamp + pauses[j]; }
    }
  }

  /** One more workflow step adds its call and its pause, unless it is skipped. */
  lemma {:induction false} OneMoreStep(steps: seq<Json>, i: nat, multiplier: Ratio)
    requires i < |steps|
    ensures var skipped := IsMeta(StepCall(steps[i]).tool);
      && FlattenSteps(steps[..i + 1]) == FlattenSteps(steps[..i]) + (if skipped then [] else [StepCall(steps[i])])
      && Pauses(steps[..i + 1], multiplier) == Pauses(steps[..i], multiplier)
           + (if skipped then [] else [Pause(i, steps[i], multiplier)])
  {
    assert steps[..i + 1][..i] == steps[..i];
  }

  // ---------------------------------------------------------------- recording a list of calls

  ghost predicate NoSwitch(calls: seq<Call>) {
    forall i :: 0 <= i < |calls| ==> calls[i].tool != START && calls[i].tool != STOP
  }

  /** While recording, any list of calls, replays included, is recorded as its flattening. */
  lemma {:induction false} RecordsFlattening(log: Log, calls: seq<Call>)
    requires log.recording && NoSwitch(calls)
    ensures ApplyAll(log, calls) == log.(calls := log.calls + FlattenAll(calls))
  {
    if calls != [] { RecordsFlattening(log, calls[..|calls| - 1]); }
  }

  /** The call that replays a recording at a given speed. */
  function ReplayOf(recorded: Recording, multiplier: Json): Call {
    Call(REPLAY, Workflow(Arr(recorded.steps), multiplier))
  }

  lemma StepJsonCall(step: Step, previous: nat)
    ensures StepCall(StepJson(step, previous)) == step.call
  {
  }

  lemma {:induction false} FlattenRecorded(steps: seq<Step>)
    requires NoMeta(steps)
    ensures FlattenSteps(StepsJson(steps)) == Calls(steps)
  {
    if steps != [] {
      var last := |steps| - 1;
      var before := steps[..last];
      FlattenRecorded(before);
      StepsJsonLength(before);
      var json := StepJson(steps[last], LastTimestamp(before));
      assert StepsJson(steps)[..last] == StepsJson(before) && StepsJson(steps)[last] == json;
      StepJsonCall(steps[last], LastTimestamp(before));
    }
  }

  /** Round trip: stopping, starting again and replaying the answer records the same calls. */
  lemma {:induction false} ReplayRecordsTheSame(log: Log, steps: seq<Step>, multiplier: Json)
    requires NoMeta(steps)
    ensures ApplyAll(log, [Call(STOP, Null), Call(START, Null), ReplayOf(Recorded(steps), multiplier)])
         == Log(true, Calls(steps))
  {
    var stop, start, replay := Call(STOP, Null), Call(START, Null), ReplayOf(Recorded(steps), multiplier);
    assert [stop, start, replay][..2] == [stop, start] && [stop, start][..1] == [stop] && [stop][..0] == [];
    FlattenRecorded(steps);
  }

  // ---------------------------------------------------------------- delays

  /** The recorded delays prefix-sum to the timestamps. */
  lemma {:induction false} DelaysSumToTimestamps(steps: seq<Step>)
    requires Chronological(steps)
    ensures Sum(Delays(StepsJson(steps))) == LastTimestamp(steps)
  {
    if steps != [] {
      var last := |steps| - 1;
      DelaysSumToTimestamps(steps[..last]);
      StepsJsonLength(steps[..last]);
      assert StepsJson(steps)[..last] == StepsJson(steps[..last]);
      SumAppend(Delays(StepsJson(steps[..last])), StepDelay(StepsJson(steps)[last]));
      if last > 0 { assert steps[last - 1].timestamp <= steps[last].timestamp; }
    }
  }

  function Delays(steps: seq<Json>): seq<nat> {
    if steps == [] then [] else Delays(steps[..|steps| - 1]) + [StepDelay(steps[|steps| - 1])]
  }

  /** The time between step `j` and the one before it. */
  function Gap(steps: seq<Step>, j: nat): int
    requires j < |steps|
  {
    if j == 0 then 0 else steps[j].timestamp - steps[j - 1].timestamp
  }

  /** A pause is a gap times a multiplier, cut to whole milliseconds, and nothing for a multiplier that
      is not positive. */
  ghost predicate CutTo(pause: int, gap: int, multiplier: Ratio) {
    if multiplier.num > 0 then
      pause * multiplier.den <= gap * multiplier.num < (pause + 1) * multiplier.den
    else pause == 0
  }

  lemma Quotient(a: nat, b: nat)
    requires b > 0
    ensures a / b * b <= a < (a / b + 1) * b
  {
  }

  lemma ProductPositive(a: nat, b: nat)
    ensures a * b >= 0 && (a == 0 ==> a * b == 0)
  {
  }

  /** How long a replay pauses before a step, whatever the multiplier: not before the first step, nor
      for a step without a delay. */
  lemma PauseMeaning(i: nat, step: Json, multiplier: Ratio)
    ensures i == 0 || !step.WorkflowStep? || !step.delayMs.UInt? ==> Pause(i, step, multiplier) == 0
    ensures i > 0 && step.WorkflowStep? && step.delayMs.UInt? ==>
              CutTo(Pause(i, step, multiplier), step.delayMs.n, multiplier)
  {
    if i > 0 && step.WorkflowStep? && step.delayMs.UInt? && multiplier.num > 0 {
      var delay := step.delayMs.n;
      ProductPositive(delay, multiplier.num);
      Quotient(delay * multiplier.num, multiplier.den);
      if delay > 0 { assert Pause(i, step, multiplier) == delay * multiplier.num / multiplier.den; }
    }
  }

  /** The pause before step `j` is that of its recorded form. */
  lemma {:induction false} PausesAre(steps: seq<Step>, multiplier: Ratio)
    requires NoMeta(steps)
    ensures |StepsJson(steps)| == |steps| == |Pauses(StepsJson(steps), multiplier)|
    ensures forall j :: 0 <= j < |steps| ==>
              Pauses(StepsJson(steps), multiplier)[j] == Pause(j, StepsJson(steps)[j], multiplier)
  {
    if steps != [] {
      var last := |steps| - 1;
      PausesAre(steps[..last], multiplier);
      var json := StepJson(steps[last], LastTimestamp(steps[..last]));
      assert StepsJson(steps)[..last] == StepsJson(steps[..last]) && StepsJson(steps)[last] == json;
      StepJsonCall(steps[last], LastTimestamp(steps[..last]));
    }
  }

  lemma {:induction false} RecordedPause(steps: seq<Step>, j: nat, multiplier: Ratio)
    requires Chronological(steps) && j < |steps| == |StepsJson(steps)|
    ensures CutTo(Pause(j, StepsJson(steps)[j], multiplier), Gap(steps, j), multiplier)
    ensures j == 0 ==> Pause(j, StepsJson(steps)[j], multiplier) == 0
  {
    RecordedStep(steps, j);
    PauseMeaning(j, StepsJson(steps)[j], multiplier);
    if j > 0 { assert steps[j - 1].timestamp <= steps[j].timestamp; }
  }

  /** The pauses of a replay of what was recorded: each gap, at the speed of the multiplier. */
  lemma {:induction false} ScaledPauses(steps: seq<Step>, multiplier: Ratio)
    requires NoMeta(steps) && Chronological(steps)
    ensures |Pauses(StepsJson(steps), multiplier)| == |steps|
    ensures steps != [] ==> Pauses(StepsJson(steps), multiplier)[0] == 0
    ensures forall j :: 0 <= j < |steps| ==> CutTo(Pauses(StepsJson(steps), multiplier)[j], Gap(steps, j), multiplier)
  {
    PausesAre(steps, multiplier);
    forall j | 0 <= j < |steps|
      ensures CutTo(Pauses(StepsJson(steps), multiplier)[j], Gap(steps, j), multiplier)
      ensures j == 0 ==> Pauses(StepsJson(steps), multiplier)[j] == 0
    {
      RecordedPause(steps, j, multiplier);
    }
  }

  /** At multiplier 1 the pauses are the gaps. */
  lemma {:induction false} UnitPauses(steps: seq<Step>)
    requires NoMeta(steps) && Chronological(steps)
    ensures |Pauses(StepsJson(steps), ONE)| == |steps|
    ensures forall j :: 0 <= j < |steps| ==> Pauses(StepsJson(steps), ONE)[j] == Gap(steps, j)
  {
    ScaledPauses(steps, ONE);
    forall j | 0 <= j < |steps|
      ensures Pauses(StepsJson(steps), ONE)[j] == Gap(steps, j)
    {
      assert CutTo(Pauses(StepsJson(steps), ONE)[j], Gap(steps, j), ONE);
    }
  }

  /** Cut pauses add up to less than one millisecond each below the scaled sum. */
  ghost predicate CutSum(total: int, span: int, n: int, multiplier: Ratio) {
    if multiplier.num > 0 then
      total * multiplier.den <= span * multiplier.num <= (total + n) * multiplier.den
    else total == 0
  }

  lemma AddCut(total: int, span: int, n: int, pause: int, gap: int, multiplier: Ratio)
    requires CutSum(total, span, n, multiplier) && CutTo(pause, gap, multiplier)
    ensures CutSum(total + pause, span + gap, n + 1, multiplier)
  {
    if multiplier.num > 0 {
      Spread(total, pause, multiplier.den);
      Spread(span, gap, multiplier.num);
      Spread(total + n, pause + 1, multiplier.den);
      assert total + n + (pause + 1) == total + pause + (n + 1);
    }
  }

  lemma Spread(a: int, b: int, w: int)
    ensures (a + b) * w == a * w + b * w
  {
  }

  lemma {:induction false} SumOfCuts(pauses: seq<nat>, steps: seq<Step>, multiplier: Ratio)
    requires |pauses| == |steps| > 0
    requires forall j :: 0 <= j < |steps| ==> CutTo(pauses[j], Gap(steps, j), multiplier)
    requires pauses[0] == 0
    ensures CutSum(Sum(pauses), steps[|steps| - 1].timestamp - steps[0].timestamp, |steps| - 1, multiplier)
    decreases |steps|
  {
    var last := |steps| - 1;
    if last > 0 {
      forall j | 0 <= j < last
        ensures CutTo(pauses[..last][j], Gap(steps[..last], j), multiplier)
      {
        assert Gap(steps[..last], j) == Gap(steps, j);
      }
      SumOfCuts(pauses[..last], steps[..last], multiplier);
      AddCut(Sum(pauses[..last]), steps[last - 1].timestamp - steps[0].timestamp, last - 1, pauses[last],
             Gap(steps, last), multiplier);
    } else {
      assert pauses[..0] == [] && Sum(pauses) == 0;
    }
  }

  /** A replay pauses for the time between the first and last step, times the multiplier, less than a
      millisecond short for each step after the first. */
  lemma {:induction false} ReplayPausesScaled(steps: seq<Step>, multiplier: Ratio)
    requires NoMeta(steps) && Chronological(steps) && steps != []
    ensures CutSum(Sum(Pauses(StepsJson(steps), multiplier)), steps[|steps| - 1].timestamp - steps[0].timestamp,
                   |steps| - 1, multiplier)
  {
    ScaledPauses(steps, multiplier);
    SumOfCuts(Pauses(StepsJson(steps), multiplier), steps, multiplier);
  }

  lemma {:induction false} SumOfGaps(pauses: seq<nat>, steps: seq<Step>)
    requires |pauses| == |steps| > 0
    requires forall j :: 0 <= j < |steps| ==> pauses[j] == Gap(steps, j)
    ensures Sum(pauses) == steps[|steps| - 1].timestamp - steps[0].timestamp
    decreases |steps|
  {
    var last := |steps| - 1;
    if last > 0 {
      assert forall j :: 0 <= j < last ==> Gap(steps[..last], j) == Gap(steps, j);
      SumOfGaps(pauses[..last], steps[..last]);
    } else {
      assert pauses[..0] == [] && Gap(steps, 0) == 0;
    }
  }

  /** At multiplier 1 a replay pauses for exactly the time between the first and last step. */
  lemma {:induction false} ReplayPausesExactly(steps: seq<Step>)
    requires NoMeta(steps) && Chronological(steps) && steps != []
    ensures Sum(Pauses(StepsJson(steps), ONE)) == steps[|steps| - 1].timestamp - steps[0].timestamp
  {
    UnitPauses(steps);
    SumOfGaps(Pauses(StepsJson(steps), ONE), steps);
  }

  /** In a recording of a replay no gap is shorter than the original one times the multiplier, by a whole
      millisecond. */
  lemma {:induction false} ReplayIsNotFaster(original: seq<Step>, replayed: seq<Step>, from: nat, j: nat,
                                             multiplier: Ratio)
    requires NoMeta(original) && Chronological(original) && 1 <= j < |original|
    requires Spaced(replayed, from, Pauses(StepsJson(original), multiplier))
    ensures |replayed| == from + |original|
    ensures var gap := replayed[from + j].timestamp - replayed[from + j - 1].timestamp;
            var recorded := original[j].timestamp - original[j - 1].timestamp;
      && gap >= 0
      && (multiplier.num > 0 ==> recorded * multiplier.num < (gap + 1) * multiplier.den)
      && (multiplier == ONE ==> gap >= recorded)
  {
    ScaledPauses(original, multiplier);
    var pause := Pauses(StepsJson(original), multiplier)[j];
    var gap := replayed[from + j].timestamp - replayed[from + j - 1].timestamp;
    CutBound(pause, Gap(original, j), gap, multiplier);
  }

  lemma CutBound(pause: nat, recorded: nat, gap: int, multiplier: Ratio)
    requires CutTo(pause, recorded, multiplier) && gap >= pause
    ensures multiplier.num > 0 ==> recorded * multiplier.num < (gap + 1) * multiplier.den
    ensures multiplier == ONE ==> gap >= recorded
  {
    if multiplier.num > 0 { MulMono(pause + 1, gap + 1, multiplier.den); }
  }

  lemma MulMono(a: nat, b: nat, w: nat)
    requires a <= b
    ensures a * w <= b * w
  {
  }

  // ---------------------------------------------------------------- both together

  method Switch(recorder: Recorder, tool: string) returns (r: Answer)
    requires recorder.Valid() && tool in {START, STOP}
    modifies recorder
    ensures recorder.Valid() && recorder.View() == Log(tool == START, [])
    ensures tool == STOP ==> r == Ok(Stopped(Recorded(old(recorder.steps))))
  {
    r := recorder.HandleToolsCall(Str(tool), Null, Call(tool, Null));
  }

  /** Start recording, make some calls, stop. */
  method RecordAll(recorder: Recorder, calls: seq<Call>) returns (recorded: Recording, ghost steps: seq<Step>)
    requires recorder.Valid() && NoSwitch(calls)
    modifies recorder
    ensures recorder.Valid() && recorded == Recorded(steps)
    ensures NoMeta(steps) && Chronological(steps) && Calls(steps) == FlattenAll(calls)
  {
    var _ := Switch(recorder, START);
    for i := 0 to |calls|
      invariant recorder.Valid() && recorder.View() == Log(true, FlattenAll(calls[..i]))
    {
      assert calls[..i + 1][..i] == calls[..i];
      var _ := recorder.HandleToolsCall(Str(calls[i].tool), calls[i].arguments, calls[i]);
    }
    assert calls[..|calls|] == calls;
    steps := recorder.steps;
    var stopped := Switch(recorder, STOP);
    recorded := stopped.value.recorded;
  }

  lemma {:induction false} NoCallsNoSteps(steps: seq<Step>)
    requires Calls(steps) == []
    ensures steps == []
  {
  }

  /** Replay a recording while recording. */
  method Replay(recorder: Recorder, recorded: Recording, multiplier: Json) returns (r: Answer)
    requires recorder.Valid() && recorder.recording
    modifies recorder
    ensures recorder.Valid() && recorder.recording && old(recorder.steps) <= recorder.steps
    ensures Calls(recorder.steps) == Calls(old(recorder.steps)) + FlattenSteps(recorded.steps)
    ensures Spaced(recorder.steps, |old(recorder.steps)|, Pauses(recorded.steps, RatioOr(multiplier, ONE)))
    ensures recorder.paused == old(recorder.paused) + Sum(Pauses(recorded.steps, RatioOr(multiplier, ONE)))
  {
    var replay := ReplayOf(recorded, multiplier);
    assert WorkflowOf(replay.arguments) == recorded.steps && Multiplier(replay.arguments) == RatioOr(multiplier, ONE);
    r := recorder.HandleToolsCall(Str(replay.tool), replay.arguments, replay);
  }

  /** Start recording and replay a recording at its own speed. */
  method ReplayAfresh(recorder: Recorder, recorded: Recording)
    requires recorder.Valid()
    modifies recorder
    ensures recorder.Valid() && recorder.recording
    ensures Calls(recorder.steps) == FlattenSteps(recorded.steps)
    ensures Spaced(recorder.steps, 0, Pauses(recorded.steps, ONE))
  {
    var _ := Switch(recorder, START);
    NoCallsNoSteps(recorder.steps);
    assert [] + FlattenSteps(recorded.steps) == FlattenSteps(recorded.steps);
    var _ := Replay(recorder, recorded, Float(ONE));
  }

  /** Record some calls, then record the replay of what was recorded: the tools and arguments
      come back, and no gap gets shorter. */
  method RecordAndReplay(recorder: Recorder, calls: seq<Call>)
    returns (first: Recording, ghost original: seq<Step>)
    requires recorder.Valid() && NoSwitch(calls)
    modifies recorder
    ensures recorder.Valid() && recorder.recording
    ensures NoMeta(original) && Chronological(original) && Calls(original) == FlattenAll(calls)
    ensures first == Recorded(original)
    ensures Calls(recorder.steps) == Calls(original)
    ensures Spaced(recorder.steps, 0, Pauses(StepsJson(original), ONE))
  {
    first, original := RecordAll(recorder, calls);
    FlattenRecorded(original);
    ReplayAfresh(recorder, first);
  }
}
