/** `TrustHandler` (QuickDesk/src/api/TrustHandler.cpp) as an instance of the pending table: the
    slots hold verdicts and an emergency stop writes a refusal. */
module TrustConfirmation {
  import opened Options
  import opened PendingTable

  datatype Verdict = Verdict(approved: bool, reason: string)

  const EMERGENCY := Verdict(false, "emergency stop")

  datatype Reply = Error(message: string) | Reply(approved: bool, reason: string)

  /** What `handleRequestConfirmation` answers from the policy it read (None when it could not be
      read) and, for a call that went through the table, from its outcome. */
  function Answer(toolName: string, confirmMode: Option<string>, outcome: Option<Verdict>): (r: Reply) {
    if toolName == "" then Error("requestConfirmation: tool_name is required")
    else if confirmMode == Some("auto_approve") then Reply(true, "auto_approved_by_policy")
    else
      match outcome
      case None => Reply(false, "timeout")
      case Some(v) => Reply(v.approved, v.reason)
  }

  /** In every interleaving, an approval comes from the auto-approve policy or from an approving
      resolve of this very id that was the last write to the slot. */
  lemma ApprovalIsGenuine(s: State<Verdict>, a: Actor, toolName: string, confirmMode: Option<string>, reason: string)
    requires Reachable(s) && s.stopValue == EMERGENCY && WorkerAt(s, a, Returned)
    requires Answer(toolName, confirmMode, s.workers[a].outcome) == Reply(true, reason)
    ensures confirmMode != Some("auto_approve") ==>
              var w := s.workers[a];
              && w.writes != []
              && var last := w.writes[|w.writes| - 1];
              && last.who in s.writers
              && s.writers[last.who].job == Resolve(Id(w.ticket), Verdict(true, reason))
  {
    hide Reachable, Id;
    if confirmMode != Some("auto_approve") {
      OutcomeIsLastWrite(s, a);
    }
  }

  /** In every interleaving, a confirmation in the table at any moment at which an emergency stop
      holds it is refused for that reason, even if it had been approved but not yet collected. */
  lemma EmergencyRefuses(s: State<Verdict>, stopper: Actor, moves: seq<Move<Verdict>>, a: Actor,
                         toolName: string, confirmMode: Option<string>)
    requires Reachable(s) && s.stopValue == EMERGENCY
    requires Stopping(s, stopper) && a in s.workers && Listed(s, a)
    requires Runs(s, moves) && WorkerAt(Final(s, moves), a, Returned)
    requires toolName != "" && confirmMode != Some("auto_approve")
    ensures Answer(toolName, confirmMode, Final(s, moves).workers[a].outcome) == Reply(false, "emergency stop")
  {
    hide Reachable, Runs, Final;
    StopWins(s, stopper, moves, a);
  }

  /** A call has no outcome exactly when nothing was ever written to its slot. */
  lemma TimeoutMeansUnanswered(s: State<Verdict>, a: Actor)
    requires Reachable(s) && WorkerAt(s, a, Returned)
    ensures s.workers[a].outcome.None? <==> s.workers[a].writes == []
  {
    InvReachable(s);
    hide Reachable, Id;
    assert WorkerOk(s, a);
  }

  /** An answer of the user that nothing overwrites is the reply: approved or not, with its reason. */
  lemma DecisionIsDelivered(s: State<Verdict>, r: Actor, id: int, approved: bool, reason: string,
                            moves: seq<Move<Verdict>>, toolName: string, confirmMode: Option<string>)
    requires Reachable(s) && Enabled(s, r, WriteSlot) && s.writers[r].job == Resolve(id, Verdict(approved, reason))
    requires var t := Apply(s, r, WriteSlot);
             && Runs(t, moves) && Untouched(t, moves, s.writers[r].pc.target)
             && WorkerAt(Final(t, moves), s.writers[r].pc.target, Returned)
    requires toolName != "" && confirmMode != Some("auto_approve")
    ensures var f := Final(Apply(s, r, WriteSlot), moves);
            Answer(toolName, confirmMode, f.workers[s.writers[r].pc.target].outcome) == Reply(approved, reason)
  {
    ResolvedIsReturned(s, r, moves);
    hide Reachable, Runs, Final, Apply, Enabled;
  }

  /** The replies that need no answer: a tool name is required, the auto-approve policy approves
      whatever happens in the table, and a call to whose slot nothing was written is refused for its
      timeout. */
  lemma RepliesWithoutAnswer(s: State<Verdict>, a: Actor, toolName: string, confirmMode: Option<string>)
    requires Reachable(s) && WorkerAt(s, a, Returned)
    ensures var reply := Answer(toolName, confirmMode, s.workers[a].outcome);
            && (reply.Error? <==> toolName == "")
            && (toolName != "" && confirmMode == Some("auto_approve") ==> reply == Reply(true, "auto_approved_by_policy"))
            && (toolName != "" && confirmMode != Some("auto_approve") && s.workers[a].writes == [] ==>
                  reply == Reply(false, "timeout"))
  {
    TimeoutMeansUnanswered(s, a);
    hide Reachable;
  }
}
