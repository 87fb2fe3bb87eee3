/** Risk assessment (quickdesk-mcp/src/trust.rs) and the gate that every dispatched tool passes
    (quickdesk-mcp/src/server.rs). `lower` is the lower-casing of strings. */
module Trust {
  import opened Options
  import opened Json

  datatype RiskLevel = Safe | Low | Medium | High | Critical

  datatype DangerousPattern = DangerousPattern(tool: string, argKey: string, patterns: seq<string>)

  datatype Policy = Policy(
    confirmMedium: bool, blockCritical: bool,
    autoApprove: seq<string>, blocked: seq<string>, dangerous: seq<DangerousPattern>)

  function RequiresConfirmation(level: RiskLevel, policy: Policy): (r: bool) {
    match level
    case Safe | Low => false
    case Medium => policy.confirmMedium
    case High | Critical => true
  }

  function IsBlocked(level: RiskLevel, policy: Policy): (r: bool) {
    level == Critical && policy.blockCritical
  }

  function BaseRisk(tool: string): (level: RiskLevel) {
    match tool
    case "screenshot" | "getUiState" | "getScreenText" | "findElement" | "getHostInfo" | "getStatus"
       | "getPerformanceStats" | "get_system_info" | "list_processes" | "list_directory"
       | "get_file_info" | "read_file" | "skill_list_tools" | "getClipboard" | "wait_for_event" => Safe
    case "clickText" | "typeText" | "pressKey" | "scrollScreen" | "mouseClick" | "mouseDrag"
       | "setClipboard" | "write_file" | "create_directory" | "move_file" => Medium
    case "run_command" | "sendAction" | "skill_exec" | "startFileUpload" => High
    case _ => Low
  }

  // ---- Dangerous arguments ----

  predicate Substring(s: string, part: string) {
    exists i :: 0 <= i <= |s| && StartsAt(s, part, i)
  }

  predicate StartsAt(s: string, part: string, i: int)
    requires 0 <= i <= |s|
  {
    part <= s[i..]
  }

  /** The argument of a key, when the arguments are an object and it is a string. */
  function Argument(args: Json, key: string): (r: Option<string>) {
    if args.Object? && key in args.fields && args.fields[key].String? then Some(args.fields[key].text) else None
  }

  predicate PatternHits(d: DangerousPattern, tool: string, args: Json, lower: string -> string) {
    && d.tool == tool && Argument(args, d.argKey).Some?
    && exists p <- d.patterns :: Substring(lower(Argument(args, d.argKey).value), lower(p))
  }

  predicate Dangerous(policy: Policy, tool: string, args: Json, lower: string -> string) {
    exists d <- policy.dangerous :: PatternHits(d, tool, args, lower)
  }

  /** The level a tool call has under a policy. */
  function RiskOf(policy: Policy, tool: string, args: Json, lower: string -> string): (level: RiskLevel) {
    if tool in policy.autoApprove then Safe
    else if tool in policy.blocked then Critical
    else if Dangerous(policy, tool, args, lower) then High
    else BaseRisk(tool)
  }

  datatype Reason = AutoApproved | BlockedByPolicy | Matches(argKey: string, pattern: string) | BaseRiskFor(tool: string)

  datatype Recommendation = Proceed | Confirm | Block

  datatype RiskAssessment = RiskAssessment(
    toolName: string, level: RiskLevel, reasons: seq<Reason>, recommendation: Recommendation)

  /** The reasons that an entry gives, in the order of its patterns. */
  function EntryReasons(d: DangerousPattern, n: nat, tool: string, args: Json, lower: string -> string): (r: seq<Reason>)
    requires n <= |d.patterns|
    decreases n
  {
    if n == 0 || d.tool != tool || Argument(args, d.argKey).None? then []
    else
      EntryReasons(d, n - 1, tool, args, lower) +
      if Substring(lower(Argument(args, d.argKey).value), lower(d.patterns[n - 1]))
      then [Matches(d.argKey, d.patterns[n - 1])] else []
  }

  /** The reasons that the first `n` entries give, in order. */
  function DangerReasons(ds: seq<DangerousPattern>, n: nat, tool: string, args: Json, lower: string -> string): (r: seq<Reason>)
    requires n <= |ds|
    decreases n
  {
    if n == 0 then []
    else DangerReasons(ds, n - 1, tool, args, lower) + EntryReasons(ds[n - 1], |ds[n - 1].patterns|, tool, args, lower)
  }

  lemma {:induction false} EntryReasonsExactly(d: DangerousPattern, n: nat, tool: string, args: Json, lower: string -> string)
    requires n <= |d.patterns|
    ensures EntryReasons(d, n, tool, args, lower) != [] <==>
            && d.tool == tool && Argument(args, d.argKey).Some?
            && exists k :: 0 <= k < n && Substring(lower(Argument(args, d.argKey).value), lower(d.patterns[k]))
    decreases n
  {
    hide Substring;
    if n > 0 {
      EntryReasonsExactly(d, n - 1, tool, args, lower);
    }
  }

  /** There are reasons exactly when some entry matches. */
  lemma {:induction false} DangerReasonsExactly(ds: seq<DangerousPattern>, n: nat, tool: string, args: Json, lower: string -> string)
    requires n <= |ds|
    ensures DangerReasons(ds, n, tool, args, lower) != [] <==> exists k :: 0 <= k < n && PatternHits(ds[k], tool, args, lower)
    decreases n
  {
    if n > 0 {
      var d := ds[n - 1];
      DangerReasonsExactly(ds, n - 1, tool, args, lower);
      EntryReasonsExactly(d, |d.patterns|, tool, args, lower);
      assert EntryReasons(d, |d.patterns|, tool, args, lower) != [] <==> PatternHits(d, tool, args, lower) by {
        hide Substring, EntryReasons;
      }
      hide PatternHits, EntryReasons;
    }
  }

  /** `assess_risk`: the nested loops find High exactly when some pattern matches. */
  method AssessRisk(policy: Policy, tool: string, args: Json, lower: string -> string) returns (a: RiskAssessment)
    ensures a.toolName == tool && a.level == RiskOf(policy, tool, args, lower)
    ensures a.reasons ==
            if tool in policy.autoApprove then [AutoApproved]
            else if tool in policy.blocked then [BlockedByPolicy]
            else if Dangerous(policy, tool, args, lower) then DangerReasons(policy.dangerous, |policy.dangerous|, tool, args, lower)
            else [BaseRiskFor(tool)]
    ensures a.recommendation ==
            if tool in policy.autoApprove then Proceed
            else if tool in policy.blocked then Block
            else if RequiresConfirmation(a.level, policy) then Confirm
            else Proceed
  {
    hide BaseRisk, PatternHits, EntryReasons;
    if tool in policy.autoApprove {
      return RiskAssessment(tool, Safe, [AutoApproved], Proceed);
    }
    if tool in policy.blocked {
      return RiskAssessment(tool, Critical, [BlockedByPolicy], Block);
    }
    var level := BaseRisk(tool);
    var reasons: seq<Reason> := [];
    for i := 0 to |policy.dangerous|
      invariant reasons == DangerReasons(policy.dangerous, i, tool, args, lower)
      invariant level == if reasons != [] then High else BaseRisk(tool)
    {
      level, reasons := MatchEntry(policy.dangerous[i], tool, args, lower, level, reasons);
    }
    DangerReasonsExactly(policy.dangerous, |policy.dangerous|, tool, args, lower);
    BaseRiskExactly(tool);
    if reasons == [] {
      reasons := [BaseRiskFor(tool)];
    }
    a := RiskAssessment(tool, level, reasons,
      if IsBlocked(level, policy) then Block else if RequiresConfirmation(level, policy) then Confirm else Proceed);
  }

  /** The inner loop, over the patterns of one entry. */
  method MatchEntry(d: DangerousPattern, tool: string, args: Json, lower: string -> string, before: RiskLevel, given: seq<Reason>)
    returns (level: RiskLevel, reasons: seq<Reason>)
    ensures reasons == given + EntryReasons(d, |d.patterns|, tool, args, lower)
    ensures level == if reasons == given then before else High
  {
    hide Substring;
    level, reasons := before, given;
    var arg := Argument(args, d.argKey);
    if d.tool == tool && arg.Some? {
      var text := lower(arg.value);
      for j := 0 to |d.patterns|
        invariant reasons == given + EntryReasons(d, j, tool, args, lower)
        invariant level == if reasons == given then before else High
      {
        if Substring(text, lower(d.patterns[j])) {
          level := High;
          reasons := reasons + [Matches(d.argKey, d.patterns[j])];
        }
      }
    }
  }

  // ---- The gate ----

  datatype Response = Ok(value: Json) | Err(error: string)

  /** What one pass of the gate reads: the emergency flag, the policy at each of its three reads,
      and the answer to a confirmation if one is asked for. Others may change the policy between. */
  datatype GateInput = GateInput(
    emergency: bool, assessed: Policy, blocking: Policy, confirming: Policy, answer: Response)

  datatype Refusal = EmergencyStop | PolicyBlocked | Rejected(reason: string) | ConfirmationFailed(error: string)

  /** The audit entry of a refusal: the level, the action, the outcome and who decided. */
  datatype Audit = Audit(level: RiskLevel, action: string, outcome: string, decision: string)

  datatype GateResult = Passed | Refused(refusal: Refusal, audit: Audit)

  function Approval(answer: Json): (r: bool) {
    && answer.Object? && "approved" in answer.fields
    && answer.fields["approved"].Bool? && answer.fields["approved"].flag
  }

  function RejectionReason(answer: Json): (r: string) {
    if Argument(answer, "reason").Some? then Argument(answer, "reason").value else "rejected"
  }

  /** `check_trust_and_confirm`. */
  method CheckTrustAndConfirm(env: GateInput, tool: string, args: Json, lower: string -> string)
    returns (r: GateResult)
    ensures r == Gate(env, tool, args, lower)
  {
    hide BaseRisk, Dangerous, Approval, DangerReasons;
    if env.emergency {
      return Refused(EmergencyStop, Audit(High, "blocked", "emergency_stop_active", ""));
    }
    var risk := AssessRisk(env.assessed, tool, args, lower);
    if IsBlocked(risk.level, env.blocking) {
      return Refused(PolicyBlocked, Audit(risk.level, "blocked", "policy_blocked", ""));
    }
    if RequiresConfirmation(risk.level, env.confirming) {
      match env.answer
      case Ok(resp) =>
        if !Approval(resp) {
          var reason := RejectionReason(resp);
          return Refused(Rejected(reason), Audit(risk.level, "rejected", reason, "user"));
        }
      case Err(e) =>
        return Refused(ConfirmationFailed(e), Audit(risk.level, "error", e, ""));
    }
    return Passed;
  }

  function Gate(env: GateInput, tool: string, args: Json, lower: string -> string): (r: GateResult) {
    var level := RiskOf(env.assessed, tool, args, lower);
    if env.emergency then Refused(EmergencyStop, Audit(High, "blocked", "emergency_stop_active", ""))
    else if IsBlocked(level, env.blocking) then Refused(PolicyBlocked, Audit(level, "blocked", "policy_blocked", ""))
    else if RequiresConfirmation(level, env.confirming) && env.answer.Err? then
      Refused(ConfirmationFailed(env.answer.error), Audit(level, "error", env.answer.error, ""))
    else if RequiresConfirmation(level, env.confirming) && !Approval(env.answer.value) then
      Refused(Rejected(RejectionReason(env.answer.value)), Audit(level, "rejected", RejectionReason(env.answer.value), "user"))
    else Passed
  }

  /** The answer is an object whose field "approved" is true. */
  ghost predicate SaysApproved(answer: Response) {
    exists fields :: answer == Ok(Object(fields)) && "approved" in fields && fields["approved"] == Bool(true)
  }

  /** The base risk of a tool that is asked about: high, or medium while those are confirmed. */
  ghost predicate RiskyTool(tool: string, confirmMedium: bool) {
    tool in HIGH_TOOLS || (tool in MEDIUM_TOOLS && confirmMedium)
  }

  /** The level of a call: auto-approval first, then the blocked tools, then dangerous arguments, then
      the base risk. */
  lemma RiskExactly(p: Policy, tool: string, args: Json, lower: string -> string)
    ensures var level, free := RiskOf(p, tool, args, lower), tool !in p.autoApprove && tool !in p.blocked;
            && (level == Critical <==> tool !in p.autoApprove && tool in p.blocked)
            && (level == High <==> free && (Dangerous(p, tool, args, lower) || tool in HIGH_TOOLS))
            && (level == Medium <==> free && !Dangerous(p, tool, args, lower) && tool in MEDIUM_TOOLS)
            && (tool in p.autoApprove ==> level == Safe)
  {
    hide Dangerous, BaseRisk;
    BaseRiskExactly(tool);
  }

  /** Whatever policies the gate meets at its reads, it lets a call pass exactly when no emergency is
      on, the policy read second does not block the level assessed under the first, and the answer says
      approved if the policy read third wants the level confirmed. */
  lemma GateExactly(env: GateInput, tool: string, args: Json, lower: string -> string)
    ensures var level := RiskOf(env.assessed, tool, args, lower);
            Gate(env, tool, args, lower).Passed? <==>
              && !env.emergency
              && !(level == Critical && env.blocking.blockCritical)
              && (level == High || level == Critical || (level == Medium && env.confirming.confirmMedium) ==>
                    SaysApproved(env.answer))
  {
    hide RiskOf, Approval, SaysApproved;
    ApprovalExactly(env.answer);
  }

  /** Under one policy throughout, the gate lets a call pass exactly when no emergency is on and the
      tool is auto-approved; or it is not blocked while blocking is on, and either the answer says
      approved or nothing calls for one: the tool is not blocked, has no dangerous arguments and is not
      a risky one. */
  lemma GatePassesExactly(env: GateInput, tool: string, args: Json, lower: string -> string)
    requires env.assessed == env.blocking == env.confirming
    ensures var p := env.assessed;
            Gate(env, tool, args, lower).Passed? <==>
              && !env.emergency
              && (|| tool in p.autoApprove
                  || (&& !(tool in p.blocked && p.blockCritical)
                      && (|| SaysApproved(env.answer)
                          || (&& tool !in p.blocked && !Dangerous(p, tool, args, lower)
                              && !RiskyTool(tool, p.confirmMedium)))))
  {
    hide Dangerous, Approval, BaseRisk, SaysApproved;
    BaseRiskExactly(tool);
    ApprovalExactly(env.answer);
  }

  lemma ApprovalExactly(answer: Response)
    ensures SaysApproved(answer) <==> answer.Ok? && Approval(answer.value)
  {
    if answer.Ok? && answer.value.Object? {
      assert answer == Ok(Object(answer.value.fields));
    }
  }

  /** Whatever policies the gate meets at its reads, a call whose arguments were found dangerous, or
      whose tool was blocked or is of high base risk, at the assessment passes only with an answer
      that says approved. */
  lemma DangerNeedsApproval(env: GateInput, tool: string, args: Json, lower: string -> string)
    requires tool !in env.assessed.autoApprove
    requires tool in env.assessed.blocked || Dangerous(env.assessed, tool, args, lower) || tool in HIGH_TOOLS
    ensures Gate(env, tool, args, lower).Passed? ==> SaysApproved(env.answer)
  {
    hide Dangerous, Approval, BaseRisk, SaysApproved;
    BaseRiskExactly(tool);
    ApprovalExactly(env.answer);
  }

  /** A call that is not let through says why, and the audit entry agrees: the emergency first, then
      the policy, then the answer. An answer without a reason text counts as "rejected". */
  lemma RefusalSays(env: GateInput, tool: string, args: Json, lower: string -> string)
    requires Gate(env, tool, args, lower).Refused?
    ensures var r, level := Gate(env, tool, args, lower), RiskOf(env.assessed, tool, args, lower);
            if env.emergency then
              r == Refused(EmergencyStop, Audit(High, "blocked", "emergency_stop_active", ""))
            else if level == Critical && env.blocking.blockCritical then
              r == Refused(PolicyBlocked, Audit(Critical, "blocked", "policy_blocked", ""))
            else
              && !SaysApproved(env.answer)
              && (level == High || level == Critical || (level == Medium && env.confirming.confirmMedium))
              && (match env.answer
                  case Err(e) => r == Refused(ConfirmationFailed(e), Audit(level, "error", e, ""))
                  case Ok(v) => r.refusal.Rejected? && r.audit == Audit(level, "rejected", r.refusal.reason, "user"))
              && (forall fields, text ::
                    env.answer == Ok(Object(fields)) && "reason" in fields && fields["reason"] == String(text) ==>
                      r.refusal == Rejected(text))
              && (forall fields :: env.answer == Ok(Object(fields)) && "reason" !in fields ==>
                      r.refusal == Rejected("rejected"))
  {
    hide RiskOf, SaysApproved, Approval;
    ApprovalExactly(env.answer);
  }

  // ---- Base risks ----

  const SAFE_TOOLS: seq<string> := [
    "screenshot", "getUiState", "getScreenText", "findElement", "getHostInfo", "getStatus", "getPerformanceStats",
    "get_system_info", "list_processes", "list_directory", "get_file_info", "read_file", "skill_list_tools",
    "getClipboard", "wait_for_event"]

  const MEDIUM_TOOLS: seq<string> := [
    "clickText", "typeText", "pressKey", "scrollScreen", "mouseClick", "mouseDrag", "setClipboard", "write_file",
    "create_directory", "move_file"]

  const HIGH_TOOLS: seq<string> := ["run_command", "sendAction", "skill_exec", "startFileUpload"]

  lemma BaseRiskExactly(tool: string)
    ensures BaseRisk(tool) == Safe <==> tool in SAFE_TOOLS
    ensures BaseRisk(tool) == Medium <==> tool in MEDIUM_TOOLS
    ensures BaseRisk(tool) == High <==> tool in HIGH_TOOLS
    ensures BaseRisk(tool) != Critical
  {
  }

  // ---- What makes arguments dangerous ----

  lemma SubstringMeans(s: string, part: string)
    ensures Substring(s, part) <==> exists before, after :: s == before + part + after
  {
    if Substring(s, part) {
      var i :| 0 <= i <= |s| && StartsAt(s, part, i);
      assert s == s[..i] + part + s[i + |part|..];
    }
    forall before, after | s == before + part + after
      ensures Substring(s, part)
    {
      assert s[|before|..] == part + after;
      assert StartsAt(s, part, |before|);
    }
  }

  /** The string argument `text` that an entry looks at contains one of its patterns, lower-cased. */
  ghost predicate MatchedBy(d: DangerousPattern, p: string, tool: string, args: Json, lower: string -> string) {
    && d.tool == tool && p in d.patterns && args.Object? && d.argKey in args.fields && args.fields[d.argKey].String?
    && exists before, after :: lower(args.fields[d.argKey].text) == before + lower(p) + after
  }

  /** Arguments are dangerous exactly when some entry for the tool has a pattern that its string
      argument contains. */
  lemma DangerousExactly(policy: Policy, tool: string, args: Json, lower: string -> string)
    ensures Dangerous(policy, tool, args, lower) <==>
            exists d, p :: d in policy.dangerous && MatchedBy(d, p, tool, args, lower)
  {
    forall d: DangerousPattern, p: string | p in d.patterns && Argument(args, d.argKey).Some?
      ensures MatchedBy(d, p, tool, args, lower) <==>
              d.tool == tool && Substring(lower(Argument(args, d.argKey).value), lower(p))
    {
      SubstringMeans(lower(Argument(args, d.argKey).value), lower(p));
    }
    hide Substring;
    if Dangerous(policy, tool, args, lower) {
      var d :| d in policy.dangerous && PatternHits(d, tool, args, lower);
      var p :| p in d.patterns && Substring(lower(Argument(args, d.argKey).value), lower(p));
      assert MatchedBy(d, p, tool, args, lower);
    }
    if d, p :| d in policy.dangerous && MatchedBy(d, p, tool, args, lower) {
      assert PatternHits(d, tool, args, lower);
    }
  }

  lemma {:induction false} EntryReasonsAre(d: DangerousPattern, n: nat, tool: string, args: Json, lower: string -> string, r: Reason)
    requires n <= |d.patterns|
    ensures r in EntryReasons(d, n, tool, args, lower) <==>
            r.Matches? && r.argKey == d.argKey && r.pattern in d.patterns[..n] && MatchedBy(d, r.pattern, tool, args, lower)
    decreases n
  {
    if n > 0 {
      EntryReasonsAre(d, n - 1, tool, args, lower, r);
      assert d.patterns[..n] == d.patterns[..n - 1] + [d.patterns[n - 1]];
      if Argument(args, d.argKey).Some? {
        SubstringMeans(lower(Argument(args, d.argKey).value), lower(d.patterns[n - 1]));
      }
      hide Substring;
    }
  }

  /** The reasons listed are the matching patterns, all of them and nothing else. */
  lemma {:induction false} ReasonsAreMatches(ds: seq<DangerousPattern>, n: nat, tool: string, args: Json, lower: string -> string, r: Reason)
    requires n <= |ds|
    ensures r in DangerReasons(ds, n, tool, args, lower) <==>
            r.Matches? && exists k :: 0 <= k < n && ds[k].argKey == r.argKey && MatchedBy(ds[k], r.pattern, tool, args, lower)
    decreases n
  {
    hide EntryReasons, MatchedBy;
    if n > 0 {
      var d := ds[n - 1];
      ReasonsAreMatches(ds, n - 1, tool, args, lower, r);
      EntryReasonsAre(d, |d.patterns|, tool, args, lower, r);
      assert d.patterns[..|d.patterns|] == d.patterns;
      if r.Matches? {
        MatchedPattern(d, r.pattern, tool, args, lower);
      }
    }
  }

  lemma MatchedPattern(d: DangerousPattern, p: string, tool: string, args: Json, lower: string -> string)
    ensures MatchedBy(d, p, tool, args, lower) ==> d.tool == tool && p in d.patterns
  {
  }

  // ---- The default policy ----

  const DEFAULT_POLICY := Policy(
    true, true,
    ["screenshot", "getUiState", "get_system_info", "list_processes", "list_directory", "get_file_info", "read_file",
     "getScreenText", "getHostInfo", "getStatus"],
    [],
    [DangerousPattern("run_command", "command",
       ["rm -rf", "del /s /q", "format ", "mkfs", "dd if=", "shutdown", "reboot", "reg delete", "net user"]),
     DangerousPattern("write_file", "path", ["/etc/", "C:\\Windows\\System32", ".bashrc", ".profile", "hosts"])])

  /** Under the default policy the user is asked about exactly the tools of medium and high base risk,
      whatever their arguments: the patterns only raise the level that is shown. */
  lemma DefaultPolicyAsks(env: GateInput, tool: string, args: Json, lower: string -> string)
    requires env.assessed == env.blocking == env.confirming == DEFAULT_POLICY
    ensures Gate(env, tool, args, lower).Passed? <==>
              !env.emergency && (SaysApproved(env.answer) || !(tool in MEDIUM_TOOLS || tool in HIGH_TOOLS))
  {
    GatePassesExactly(env, tool, args, lower);
    DefaultDanger(tool, args, lower);
    BaseRiskExactly(tool);
    hide Gate, Dangerous, SaysApproved, BaseRisk;
    DefaultAutoApproved(tool);
  }

  lemma DefaultDanger(tool: string, args: Json, lower: string -> string)
    ensures Dangerous(DEFAULT_POLICY, tool, args, lower) ==> tool == "run_command" || tool == "write_file"
  {
    hide Substring;
  }

  lemma DefaultAutoApproved(tool: string)
    ensures tool in DEFAULT_POLICY.autoApprove ==> tool in SAFE_TOOLS
  {
  }

  function Severity(level: RiskLevel): (n: nat) {
    match level case Safe => 0 case Low => 1 case Medium => 2 case High => 3 case Critical => 4
  }

  /** More blocked tools, more patterns and fewer auto-approvals never lower a level. */
  lemma StricterNeverLower(p: Policy, q: Policy, tool: string, args: Json, lower: string -> string)
    requires forall t :: t in q.autoApprove ==> t in p.autoApprove
    requires forall t :: t in p.blocked ==> t in q.blocked
    requires forall d :: d in p.dangerous ==> d in q.dangerous
    ensures Severity(RiskOf(p, tool, args, lower)) <= Severity(RiskOf(q, tool, args, lower))
  {
    hide PatternHits, BaseRisk;
    BaseRiskExactly(tool);
    if Dangerous(p, tool, args, lower) {
      var d :| d in p.dangerous && PatternHits(d, tool, args, lower);
      assert d in q.dangerous;
    }
  }
}
