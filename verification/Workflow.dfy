/** Recording of workflows and the steps to replay (quickdesk-mcp/src/workflow.rs). Times and new
    ids are inputs; `saved` stands for the directory of workflow files. */
module Workflow {
  import opened Options
  import opened Json
  import opened Sequences

  datatype Call = Call(tool: string, args: Json)

  datatype Step = Step(number: nat, call: Call, delay: int, success: bool)

  datatype Recording = Recording(id: string, name: string, deviceId: string, steps: seq<Step>, lastTime: int)

  datatype Workflow = Workflow(id: string, name: string, deviceId: string, description: string, steps: seq<Step>)

  datatype Result<T> = Ok(value: T) | Err(error: Error)

  datatype Error = AlreadyRecording | NotRecording | NoSteps | CannotSave | NotFound

  // ---- Overrides ----

  /** Arguments with the values of the keys that they have replaced by those of `overrides`. */
  function Overridden(args: Json, overrides: map<string, Json>): (r: Json) {
    if args.Object? then
      Object(map key | key in args.fields :: if key in overrides then overrides[key] else args.fields[key])
    else args
  }

  /** The loop of `build_replay_steps` over the overrides, in any order. */
  method ApplyOverrides(args: Json, overrides: map<string, Json>) returns (r: Json)
    ensures r == Overridden(args, overrides)
  {
    r := args;
    if args.Object? {
      var fields := args.fields;
      var keys := overrides.Keys;
      while keys != {}
        invariant keys <= overrides.Keys && fields.Keys == args.fields.Keys
        invariant forall key <- fields ::
          fields[key] == if key in overrides && key !in keys then overrides[key] else args.fields[key]
      {
        ghost var some := ElementOf(keys);
        var key :| key in keys;
        if key in fields {
          fields := fields[key := overrides[key]];
        }
        keys := keys - {key};
      }
      assert fields == Overridden(args, overrides).fields;
      r := Object(fields);
    }
  }

  /** Each key that the arguments have gets the value of the overrides if these have the key, and keeps
      its own otherwise; arguments that are not an object stay as they are. */
  lemma OverriddenMeans(args: Json, overrides: map<string, Json>, key: string)
    ensures !args.Object? ==> Overridden(args, overrides) == args
    ensures args.Object? ==>
              && Overridden(args, overrides).Object?
              && (key in Overridden(args, overrides).fields <==> key in args.fields)
              && (key in args.fields && key in overrides ==> Overridden(args, overrides).fields[key] == overrides[key])
              && (key in args.fields && key !in overrides ==> Overridden(args, overrides).fields[key] == args.fields[key])
  {
  }

  /** Overriding adds and drops no key, with nothing it changes nothing, and overriding twice is
      overriding once, later values first. */
  lemma OverridesCompose(args: Json, first: map<string, Json>, second: map<string, Json>)
    ensures args.Object? ==> Overridden(args, first).Object? && Overridden(args, first).fields.Keys == args.fields.Keys
    ensures Overridden(args, map[]) == args
    ensures Overridden(Overridden(args, first), second) == Overridden(args, first + second)
  {
    if args.Object? {
      assert Overridden(args, map[]).fields == args.fields;
      assert Overridden(Overridden(args, first), second).fields == Overridden(args, first + second).fields;
    }
  }

  /** The calls to replay: those of the steps, in order, with the overrides applied. */
  function ReplaySteps(wf: Workflow, overrides: map<string, Json>): (r: seq<Call>)
    ensures |r| == |wf.steps|
  {
    seq(|wf.steps|, i requires 0 <= i < |wf.steps| =>
      Call(wf.steps[i].call.tool, Overridden(wf.steps[i].call.args, overrides)))
  }

  /** Each call to replay is that of the step at its place, its tool unchanged. */
  lemma ReplayStepIs(wf: Workflow, overrides: map<string, Json>, i: nat)
    requires i < |wf.steps|
    ensures ReplaySteps(wf, overrides)[i].tool == wf.steps[i].call.tool
    ensures !wf.steps[i].call.args.Object? ==> ReplaySteps(wf, overrides)[i].args == wf.steps[i].call.args
    ensures wf.steps[i].call.args.Object? ==>
              var before, after := wf.steps[i].call.args, ReplaySteps(wf, overrides)[i].args;
              && after.Object? && after.fields.Keys == before.fields.Keys
              && forall key <- before.fields ::
                   after.fields[key] == if key in overrides then overrides[key] else before.fields[key]
  {
  }

  function Calls(steps: seq<Step>): (r: seq<Call>)
    ensures |r| == |steps|
  {
    seq(|steps|, i requires 0 <= i < |steps| => steps[i].call)
  }

  // ---- The store ----

  datatype State = State(active: map<string, Recording>, saved: map<string, Workflow>)

  datatype Op =
    | Start(deviceId: string, name: string, id: string, now: int)
    | Record(deviceId: string, call: Call, success: bool, now: int)
    | Stop(deviceId: string, description: string, saves: bool)

  function Finished(rec: Recording, description: string): (wf: Workflow) {
    Workflow(rec.id, rec.name, rec.deviceId, description, rec.steps)
  }

  function Extended(rec: Recording, call: Call, success: bool, now: int): (r: Recording) {
    rec.(steps := rec.steps + [Step(|rec.steps| + 1, call, now - rec.lastTime, success)], lastTime := now)
  }

  function After(s: State, op: Op): (t: State) {
    match op
    case Start(d, name, id, now) =>
      if d in s.active then s else s.(active := s.active[d := Recording(id, name, d, [], now)])
    case Record(d, call, success, now) =>
      if d in s.active then s.(active := s.active[d := Extended(s.active[d], call, success, now)]) else s
    case Stop(d, description, saves) =>
      if d !in s.active then s
      else
        var rec, rest := s.active[d], s.(active := s.active - {d});
        if rec.steps != [] && saves then rest.(saved := s.saved[rec.id := Finished(rec, description)]) else rest
  }

  class WorkflowStore {
    var active: map<string, Recording>
    var saved: map<string, Workflow>

    ghost function Value(): (s: State)
      reads this
    {
      State(active, saved)
    }

    constructor ()
      ensures Value() == State(map[], map[])
    {
      active, saved := map[], map[];
    }

    method StartRecording(name: string, deviceId: string, id: string, now: int) returns (r: Result<string>)
      modifies this
      ensures Value() == After(old(Value()), Start(deviceId, name, id, now))
      ensures r == if deviceId in old(active) then Err(AlreadyRecording) else Ok(id)
    {
      if deviceId in active {
        return Err(AlreadyRecording);
      }
      active := active[deviceId := Recording(id, name, deviceId, [], now)];
      return Ok(id);
    }

    method RecordStep(deviceId: string, call: Call, success: bool, now: int)
      modifies this
      ensures Value() == After(old(Value()), Record(deviceId, call, success, now))
    {
      if deviceId in active {
        var state := active[deviceId];
        var step := Step(|state.steps| + 1, call, now - state.lastTime, success);
        state := state.(lastTime := now, steps := state.steps + [step]);
        active := active[deviceId := state];
      }
    }

    /** The recording is gone even when it was empty or could not be saved. */
    method StopRecording(deviceId: string, description: string, saves: bool) returns (r: Result<Workflow>)
      modifies this
      ensures Value() == After(old(Value()), Stop(deviceId, description, saves))
      ensures r == if deviceId !in old(active) then Err(NotRecording)
                   else if old(active)[deviceId].steps == [] then Err(NoSteps)
                   else if !saves then Err(CannotSave)
                   else Ok(Finished(old(active)[deviceId], description))
    {
      if deviceId !in active {
        return Err(NotRecording);
      }
      var state := active[deviceId];
      active := active - {deviceId};
      if state.steps == [] {
        return Err(NoSteps);
      }
      var wf := Workflow(state.id, state.name, state.deviceId, description, state.steps);
      if !saves {
        return Err(CannotSave);
      }
      saved := saved[wf.id := wf];
      return Ok(wf);
    }

    method BuildReplaySteps(id: string, overrides: map<string, Json>) returns (r: Result<seq<Call>>)
      ensures r == if id in saved then Ok(ReplaySteps(saved[id], overrides)) else Err(NotFound)
    {
      hide Overridden;
      if id !in saved {
        return Err(NotFound);
      }
      var wf := saved[id];
      var steps := [];
      for i := 0 to |wf.steps|
        invariant steps == ReplaySteps(wf, overrides)[..i]
      {
        var args := ApplyOverrides(wf.steps[i].call.args, overrides);
        steps := steps + [Call(wf.steps[i].call.tool, args)];
      }
      assert steps == ReplaySteps(wf, overrides);
      r := Ok(steps);
    }
  }

  /** Stopping takes away the recording of the device and no other, and saves it exactly when it has
      steps and saving works; nothing else that was saved changes. */
  lemma StopExactly(s: State, deviceId: string, description: string, saves: bool)
    requires deviceId in s.active
    ensures var t, rec := After(s, Stop(deviceId, description, saves)), s.active[deviceId];
            && t.active == s.active - {deviceId}
            && (rec.steps == [] || !saves ==> t.saved == s.saved)
            && (rec.steps != [] && saves ==>
                  && rec.id in t.saved && t.saved[rec.id].steps == rec.steps
                  && t.saved - {rec.id} == s.saved - {rec.id})
  {
  }

  // ---- Any sequence of operations ----

  function Run(ops: seq<Op>): (s: State)
    decreases |ops|
  {
    if ops == [] then State(map[], map[]) else After(Run(ops[..|ops| - 1]), ops[|ops| - 1])
  }

  /** The calls recorded on a device since its recording was started, or None without one. */
  function Captured(ops: seq<Op>, deviceId: string): (r: Option<seq<Call>>)
    decreases |ops|
  {
    if ops == [] then None
    else
      var before, op := Captured(ops[..|ops| - 1], deviceId), ops[|ops| - 1];
      if op.deviceId != deviceId then before
      else match op
        case Start(_, _, _, _) => if before.None? then Some([]) else before
        case Record(_, call, _, _) => if before.None? then None else Some(before.value + [call])
        case Stop(_, _, _) => None
  }

  ghost predicate Numbered(steps: seq<Step>) {
    forall i :: 0 <= i < |steps| ==> steps[i].number == i + 1
  }

  /** Recordings of different devices interleave freely: the one of a device holds its calls in
      order, numbered from one. */
  lemma {:induction false} RecordingIsCaptured(ops: seq<Op>, deviceId: string)
    ensures deviceId in Run(ops).active <==> Captured(ops, deviceId).Some?
    ensures deviceId in Run(ops).active ==>
              var rec := Run(ops).active[deviceId];
              Calls(rec.steps) == Captured(ops, deviceId).value && Numbered(rec.steps) && rec.deviceId == deviceId
    decreases |ops|
  {
    if ops != [] {
      var before, op := ops[..|ops| - 1], ops[|ops| - 1];
      RecordingIsCaptured(before, deviceId);
      if op.Record? && op.deviceId == deviceId && deviceId in Run(before).active {
        ExtendedCalls(Run(before).active[deviceId], op.call, op.success, op.now);
      }
      hide Extended, Numbered, Finished;
      if op.Start? {
        assert Calls([]) == [] && Numbered([]) by { NothingNumbered(); }
      }
    }
  }

  lemma NothingNumbered()
    ensures Numbered([])
  {
  }

  lemma ExtendedCalls(rec: Recording, call: Call, success: bool, now: int)
    requires Numbered(rec.steps)
    ensures var r := Extended(rec, call, success, now);
            && Calls(r.steps) == Calls(rec.steps) + [call] && Numbered(r.steps) && r.deviceId == rec.deviceId
            && TotalDelay(r.steps) - r.lastTime == TotalDelay(rec.steps) - rec.lastTime
            && r.lastTime == now && |r.steps| > 0 && r.steps[|r.steps| - 1].success == success
  {
    assert Extended(rec, call, success, now).steps[..|rec.steps|] == rec.steps;
  }

  /** How long the steps took in all. */
  function TotalDelay(steps: seq<Step>): (d: int) {
    if steps == [] then 0 else TotalDelay(steps[..|steps| - 1]) + steps[|steps| - 1].delay
  }

  /** When the recording of a device was started, if it is being recorded, and when it was last added
      to. */
  function Times(ops: seq<Op>, deviceId: string): (r: Option<(int, int)>)
    decreases |ops|
  {
    if ops == [] then None
    else
      var before, op := Times(ops[..|ops| - 1], deviceId), ops[|ops| - 1];
      if op.deviceId != deviceId then before
      else match op
        case Start(_, _, _, now) => if before.None? then Some((now, now)) else before
        case Record(_, _, _, now) => if before.None? then None else Some((before.value.0, now))
        case Stop(_, _, _) => None
  }

  /** The delays of a recording add up to the time from its start to its last step. */
  lemma {:induction false} DelaysAddUp(ops: seq<Op>, deviceId: string)
    ensures deviceId in Run(ops).active <==> Times(ops, deviceId).Some?
    ensures deviceId in Run(ops).active ==>
              var rec, times := Run(ops).active[deviceId], Times(ops, deviceId).value;
              rec.lastTime == times.1 && TotalDelay(rec.steps) == times.1 - times.0
    decreases |ops|
  {
    if ops != [] {
      var before, op := ops[..|ops| - 1], ops[|ops| - 1];
      DelaysAddUp(before, deviceId);
      RecordingIsCaptured(before, deviceId);
      if op.Record? && op.deviceId == deviceId && deviceId in Run(before).active {
        ExtendedCalls(Run(before).active[deviceId], op.call, op.success, op.now);
      }
      hide Extended, Numbered, Finished, Calls, Captured;
    }
  }

  /** Replaying a saved recording without overrides repeats the recorded calls exactly; with them,
      each call has its tool and its keys still. */
  lemma ReplayRepeatsRecording(ops: seq<Op>, deviceId: string, description: string)
    requires Captured(ops, deviceId).Some? && Captured(ops, deviceId).value != []
    ensures deviceId in Run(ops).active
    ensures var id := Run(ops).active[deviceId].id;
            var t := After(Run(ops), Stop(deviceId, description, true));
            && id in t.saved && deviceId !in t.active
            && ReplaySteps(t.saved[id], map[]) == Captured(ops, deviceId).value
            && t.saved[id].id == id && t.saved[id].name == Run(ops).active[deviceId].name
            && t.saved[id].deviceId == deviceId && t.saved[id].description == description
  {
    RecordingIsCaptured(ops, deviceId);
    var rec := Run(ops).active[deviceId];
    var t := After(Run(ops), Stop(deviceId, description, true));
    var wf := t.saved[rec.id];
    assert |Calls(rec.steps)| > 0;
    hide Overridden;
    forall i | 0 <= i < |wf.steps|
      ensures ReplaySteps(wf, map[])[i] == Calls(rec.steps)[i]
    {
      OverridesCompose(wf.steps[i].call.args, map[], map[]);
    }
  }
}

/** `replay_workflow` (quickdesk-mcp/src/server.rs). */
module Replay {
  import opened Options
  import opened Json
  import opened Trust
  import W = Workflow

  type Call = W.Call

  /** What one step of a replay meets: the emergency flag, what the gate reads, and the response to
      the request if it is sent. */
  datatype StepInput = StepInput(emergency: bool, gate: GateInput, response: Response)

  datatype StepError = EmergencyActive | Gated(refusal: Refusal) | Remote(error: string)

  /** A step's entry in the report; a step that was not sent has no response. */
  datatype StepResult = StepResult(number: nat, tool: string, success: bool, response: Option<Response>, error: Option<StepError>)

  datatype Report = Report(
    total: nat, completed: nat, failedStep: Option<nat>, error: Option<StepError>, stepResults: seq<StepResult>)

  /** Whether a step is sent: no emergency and the gate passed. */
  predicate Admitted(c: Call, env: StepInput, lower: string -> string) {
    !env.emergency && Gate(env.gate, c.tool, c.args, lower).Passed?
  }

  predicate Succeeds(c: Call, env: StepInput, lower: string -> string) {
    Admitted(c, env, lower) && env.response.Ok?
  }

  function ErrorOf(c: Call, env: StepInput, lower: string -> string): (e: StepError)
    requires !Succeeds(c, env, lower)
  {
    if env.emergency then EmergencyActive
    else
      var g := Gate(env.gate, c.tool, c.args, lower);
      if g.Refused? then Gated(g.refusal) else Remote(env.response.error)
  }

  function ResultOf(k: nat, c: Call, env: StepInput, lower: string -> string): (r: StepResult) {
    StepResult(k + 1, c.tool, Succeeds(c, env, lower),
      if Admitted(c, env, lower) then Some(env.response) else None,
      if Succeeds(c, env, lower) then None else Some(ErrorOf(c, env, lower)))
  }

  ghost predicate Sound(c: Call, env: StepInput, lower: string -> string) {
    && Admitted(c, env, lower) && !env.emergency && !env.gate.emergency && env.response.Ok?
    && Gate(env.gate, c.tool, c.args, lower).Passed?
  }

  /** What becomes of one step, case by case. */
  lemma StepFacts(k: nat, c: Call, env: StepInput, lower: string -> string)
    ensures var g := Gate(env.gate, c.tool, c.args, lower);
            && (Admitted(c, env, lower) <==> !env.emergency && g.Passed?)
            && (g.Passed? ==> !env.gate.emergency)
            && (Succeeds(c, env, lower) <==> !env.emergency && g.Passed? && env.response.Ok?)
            && (!Succeeds(c, env, lower) ==>
                  ErrorOf(c, env, lower) ==
                  if env.emergency then EmergencyActive
                  else if g.Refused? then Gated(g.refusal) else Remote(env.response.error))
            && ResultOf(k, c, env, lower) ==
               if env.emergency then StepResult(k + 1, c.tool, false, None, Some(EmergencyActive))
               else if g.Refused? then StepResult(k + 1, c.tool, false, None, Some(Gated(g.refusal)))
               else if env.response.Err? then StepResult(k + 1, c.tool, false, Some(env.response), Some(Remote(env.response.error)))
               else StepResult(k + 1, c.tool, true, Some(env.response), None)
  {
  }

  /** The loop of `replay_workflow` over the steps to replay; `sent` lists the requests handed to
      the client, in order. */
  method ReplayLoop(steps: seq<Call>, env: nat -> StepInput, lower: string -> string)
    returns (r: Report, sent: seq<Call>)
    // What was sent is a start of the steps, in order, and each passed the gate with no emergency on.
    ensures sent <= steps && forall i :: 0 <= i < |sent| ==> Admitted(steps[i], env(i), lower)
    ensures forall i :: 0 <= i < |sent| ==>
              !env(i).emergency && !env(i).gate.emergency && Gate(env(i).gate, steps[i].tool, steps[i].args, lower).Passed?
    // The completed steps are those before the first that does not succeed.
    ensures r.total == |steps| && r.completed <= |steps|
    ensures forall i :: 0 <= i < r.completed ==> Succeeds(steps[i], env(i), lower)
    ensures r.completed < |steps| ==> !Succeeds(steps[r.completed], env(r.completed), lower)
    // A failed step is the next one, sent only if it was admitted.
    ensures r.failedStep == if r.completed < |steps| then Some(r.completed + 1) else None
    ensures r.error == if r.completed < |steps| then Some(ErrorOf(steps[r.completed], env(r.completed), lower)) else None
    ensures |sent| == r.completed + if r.completed < |steps| && Admitted(steps[r.completed], env(r.completed), lower) then 1 else 0
    // There is one result for each completed step and one for a failed one.
    ensures |r.stepResults| == r.completed + if r.failedStep.Some? then 1 else 0
    ensures forall i :: 0 <= i < |r.stepResults| ==> r.stepResults[i] == ResultOf(i, steps[i], env(i), lower)
    ensures forall i :: 0 <= i < |r.stepResults| ==>
              && r.stepResults[i].number == i + 1 && r.stepResults[i].tool == steps[i].tool
              && (r.stepResults[i].success <==> i < r.completed)
              && (i < r.completed ==> env(i).response.Ok? && r.stepResults[i].response == Some(env(i).response))
    // The error of a failed step: the emergency, the refusal of the gate, or the error of the response.
    ensures r.completed < |steps| ==>
              var k, c := r.completed, steps[r.completed];
              && r.error == r.stepResults[k].error
              && r.error == Some(
                   if env(k).emergency then EmergencyActive
                   else match Gate(env(k).gate, c.tool, c.args, lower)
                     case Refused(refusal, _) => Gated(refusal)
                     case Passed => if env(k).response.Err? then Remote(env(k).response.error) else EmergencyActive)
              && (|sent| == k + 1 <==> !env(k).emergency && Gate(env(k).gate, c.tool, c.args, lower).Passed?)
  {
    hide Gate, Admitted, Succeeds, ErrorOf, ResultOf;
    var stepResults: seq<StepResult> := [];
    sent := [];
    var i := 0;
    while i < |steps|
      invariant 0 <= i <= |steps| && sent == steps[..i] && |stepResults| == i
      invariant forall k :: 0 <= k < i ==> Succeeds(steps[k], env(k), lower) && Sound(steps[k], env(k), lower)
      invariant forall k :: 0 <= k < i ==> stepResults[k] == ResultOf(k, steps[k], env(k), lower)
      invariant forall k :: 0 <= k < i ==> stepResults[k] == StepResult(k + 1, steps[k].tool, true, Some(env(k).response), None)
    {
      var call, e := steps[i], env(i);
      StepFacts(i, call, e, lower);
      if e.emergency {
        stepResults := stepResults + [StepResult(i + 1, call.tool, false, None, Some(EmergencyActive))];
        return Report(|steps|, i, Some(i + 1), Some(EmergencyActive), stepResults), sent;
      }
      var checked := CheckTrustAndConfirm(e.gate, call.tool, call.args, lower);
      if checked.Refused? {
        var error := Gated(checked.refusal);
        stepResults := stepResults + [StepResult(i + 1, call.tool, false, None, Some(error))];
        return Report(|steps|, i, Some(i + 1), Some(error), stepResults), sent;
      }
      sent := sent + [call];
      match e.response {
        case Ok(_) =>
          stepResults := stepResults + [StepResult(i + 1, call.tool, true, Some(e.response), None)];
        case Err(text) =>
          stepResults := stepResults + [StepResult(i + 1, call.tool, false, Some(e.response), Some(Remote(text)))];
          return Report(|steps|, i, Some(i + 1), Some(Remote(text)), stepResults), sent;
      }
      i := i + 1;
    }
    r := Report(|steps|, |steps|, None, None, stepResults);
  }

  /** `replay_workflow`: a workflow that is not there sends nothing. */
  method ReplayWorkflow(store: W.WorkflowStore, id: string, overrides: map<string, Json>, env: nat -> StepInput, lower: string -> string)
    returns (r: W.Result<Report>, sent: seq<Call>)
    ensures id !in store.saved ==> r == W.Err(W.NotFound) && sent == []
    ensures id in store.saved ==>
              var steps := W.ReplaySteps(store.saved[id], overrides);
              && r.Ok? && sent <= steps && r.value.total == |steps|
              && (forall i :: 0 <= i < |sent| ==> Admitted(steps[i], env(i), lower))
              && (r.value.failedStep.None? <==> forall i :: 0 <= i < |steps| ==> Succeeds(steps[i], env(i), lower))
              && (r.value.failedStep.None? ==> sent == steps)
              && |r.value.stepResults| == r.value.completed + if r.value.failedStep.Some? then 1 else 0
  {
    hide Gate, Admitted, Succeeds;
    var steps := store.BuildReplaySteps(id, overrides);
    if steps.Err? {
      return W.Err(steps.error), [];
    }
    var report;
    report, sent := ReplayLoop(steps.value, env, lower);
    r := W.Ok(report);
  }
}
