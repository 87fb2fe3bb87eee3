/** `SkillHandler` (QuickDesk/src/api/SkillHandler.cpp) as an instance of the pending table: the
    slots hold responses, each looked up by the id it carries, and nothing clears the table. */
module SkillRequests {
  import opened Options
  import opened PendingTable

  datatype Response = Response(id: int, body: string)

  /** The calls there are: `sendAndWait`, and `onSkillResponse` resolving the id in the response. */
  ghost predicate SkillMoves(moves: seq<Move<Response>>) {
    forall i :: 0 <= i < |moves| && moves[i].step.BeginWrite? ==>
      moves[i].step.job.Resolve? && moves[i].step.job.id == moves[i].step.job.value.id
  }

  ghost predicate JobsMatch(s: State<Response>) {
    forall r :: r in s.writers ==> s.writers[r].job.Resolve? && s.writers[r].job.id == s.writers[r].job.value.id
  }

  lemma JobsMatchStep(s: State<Response>, a: Actor, step: Step<Response>)
    requires Enabled(s, a, step) && JobsMatch(s)
    requires step.BeginWrite? ==> step.job.Resolve? && step.job.id == step.job.value.id
    ensures JobsMatch(Apply(s, a, step))
  {
    hide Id;
  }

  lemma {:induction false} JobsMatchRun(s: State<Response>, moves: seq<Move<Response>>)
    requires Runs(s, moves) && SkillMoves(moves) && JobsMatch(s)
    ensures JobsMatch(Final(s, moves))
    decreases |moves|
  {
    hide Enabled, Apply, JobsMatch;
    if moves != [] {
      JobsMatchStep(s, moves[0].a, moves[0].step);
      JobsMatchRun(Apply(s, moves[0].a, moves[0].step), moves[1..]);
    }
  }

  /** In every interleaving of calls, responses and timeouts, a call that returns a response returns
      one that carries the call's own id. */
  lemma ResponseIsOwn(moves: seq<Move<Response>>, unused: Response, a: Actor)
    requires Runs(Start(unused), moves) && SkillMoves(moves)
    requires var s := Final(Start(unused), moves);
             WorkerAt(s, a, Returned) && s.workers[a].outcome.Some?
    ensures var s := Final(Start(unused), moves);
            s.workers[a].outcome.value.id == Id(s.workers[a].ticket)
  {
    hide Id;
    var s := Final(Start(unused), moves);
    JobsMatchRun(Start(unused), moves);
    StopValueRun(Start(unused), moves);
    assert Reachable(s);
    OutcomeIsLastWrite(s, a);
  }

  lemma {:induction false} StopValueRun(s: State<Response>, moves: seq<Move<Response>>)
    requires Runs(s, moves)
    ensures Final(s, moves).stopValue == s.stopValue
    decreases |moves|
  {
    hide Enabled, Apply;
    if moves != [] {
      StopValueStays(s, moves[0].a, moves[0].step);
      StopValueRun(Apply(s, moves[0].a, moves[0].step), moves[1..]);
    }
  }

  /** Until the request counter has wrapped around, no two calls ever return the same response, so
      concurrent calls cannot take each other's results. */
  lemma ResponsesNotSwapped(moves: seq<Move<Response>>, unused: Response, a: Actor, b: Actor)
    requires Runs(Start(unused), moves) && SkillMoves(moves) && a != b
    requires var s := Final(Start(unused), moves);
             && s.next <= 0x1_0000_0000
             && WorkerAt(s, a, Returned) && s.workers[a].outcome.Some?
             && WorkerAt(s, b, Returned) && s.workers[b].outcome.Some?
    ensures var s := Final(Start(unused), moves);
            s.workers[a].outcome != s.workers[b].outcome
  {
    hide Id;
    var s := Final(Start(unused), moves);
    ResponseIsOwn(moves, unused, a);
    ResponseIsOwn(moves, unused, b);
    StopValueRun(Start(unused), moves);
    assert Reachable(s);
    IdsCollideExactly(s, a, b);
  }

  /** A response that arrives for a call, and that nothing overwrites, is what the call returns. */
  lemma ResponseIsDelivered(s: State<Response>, r: Actor, response: Response, moves: seq<Move<Response>>)
    requires Reachable(s) && Enabled(s, r, WriteSlot) && s.writers[r].job == Resolve(response.id, response)
    requires var t := Apply(s, r, WriteSlot);
             && Runs(t, moves) && Untouched(t, moves, s.writers[r].pc.target)
             && WorkerAt(Final(t, moves), s.writers[r].pc.target, Returned)
    ensures var w := Final(Apply(s, r, WriteSlot), moves).workers[s.writers[r].pc.target];
            w.outcome == Some(response) && Id(s.workers[s.writers[r].pc.target].ticket) == response.id
  {
    ResolvedIsReturned(s, r, moves);
    WriteDelivers(s, r);
    var b := s.writers[r].pc.target;
    Effect(s, r, WriteSlot, b);
    hide Reachable, Runs, Final, Apply, Id;
  }
}
