/** Text on the screen and the search for it (QuickDesk/src/api/UiStateService.cpp). `fold` is the
    case folding of one character; blocks carry besides their text only a place, as one value. */
module ScreenText {
  import opened Options

  datatype Block = Block(text: string, place: int)

  /** What `runOcr` and the window title give at one poll. */
  datatype Look = Failed(error: string) | Screen(blocks: seq<Block>, title: string)

  datatype Search = Search(text: string, exact: bool, ignoreCase: bool)

  function FoldIf(s: string, ignoreCase: bool, fold: char -> char): (r: string)
    ensures |r| == |s|
  {
    if ignoreCase then seq(|s|, i requires 0 <= i < |s| => fold(s[i])) else s
  }

  predicate Contains(s: string, part: string, ignoreCase: bool, fold: char -> char) {
    exists i :: 0 <= i <= |s| && PartAt(FoldIf(s, ignoreCase, fold), FoldIf(part, ignoreCase, fold), i)
  }

  predicate PartAt(s: string, part: string, i: int)
    requires 0 <= i <= |s|
  {
    part <= s[i..]
  }

  /** `part` stands in `s` at place `i`, character by character, in any case if the case is ignored. */
  ghost predicate StandsAt(s: string, part: string, i: nat, ignoreCase: bool, fold: char -> char) {
    && i + |part| <= |s|
    && forall j: nat :: j < |part| ==> if ignoreCase then fold(s[i + j]) == fold(part[j]) else s[i + j] == part[j]
  }

  /** A text contains another that stands in it somewhere. */
  lemma ContainsExactly(s: string, part: string, ignoreCase: bool, fold: char -> char)
    ensures Contains(s, part, ignoreCase, fold) <==> exists i: nat :: StandsAt(s, part, i, ignoreCase, fold)
  {
    var t, p := FoldIf(s, ignoreCase, fold), FoldIf(part, ignoreCase, fold);
    forall i: nat | i <= |s|
      ensures PartAt(t, p, i) <==> StandsAt(s, part, i, ignoreCase, fold)
    {
      PartAtExactly(s, part, i, ignoreCase, fold);
    }
    if i: nat :| StandsAt(s, part, i, ignoreCase, fold) {
      assert PartAt(t, p, i);
    }
    hide FoldIf, PartAt, StandsAt;
  }

  lemma PartAtExactly(s: string, part: string, i: nat, ignoreCase: bool, fold: char -> char)
    requires i <= |s|
    ensures PartAt(FoldIf(s, ignoreCase, fold), FoldIf(part, ignoreCase, fold), i) <==> StandsAt(s, part, i, ignoreCase, fold)
  {
    var t, p := FoldIf(s, ignoreCase, fold), FoldIf(part, ignoreCase, fold);
    assert p <= t[i..] <==> i + |p| <= |t| && t[i..i + |p|] == p by {
      if i + |p| <= |t| {
        assert t[i..][..|p|] == t[i..i + |p|];
      }
    }
    if i + |p| <= |t| {
      SameCharacters(t, p, i);
      forall j: nat | j < |p|
        ensures t[i + j] == p[j] <==> if ignoreCase then fold(s[i + j]) == fold(part[j]) else s[i + j] == part[j]
      {
      }
    }
  }

  lemma SameCharacters(t: string, p: string, i: nat)
    requires i + |p| <= |t|
    ensures t[i..i + |p|] == p <==> forall j: nat :: j < |p| ==> t[i + j] == p[j]
  {
    if t[i..i + |p|] == p {
      forall j: nat | j < |p|
        ensures t[i + j] == p[j]
      {
        assert t[i..i + |p|][j] == p[j];
      }
    }
  }

  predicate Equal(s: string, t: string, ignoreCase: bool, fold: char -> char) {
    FoldIf(s, ignoreCase, fold) == FoldIf(t, ignoreCase, fold)
  }

  predicate Hits(b: Block, s: Search, fold: char -> char) {
    if s.exact then Equal(b.text, s.text, s.ignoreCase, fold) else Contains(b.text, s.text, s.ignoreCase, fold)
  }

  /** A block is hit when the text stands in it; for an exact search, when it stands there from one end
      to the other. */
  lemma HitsExactly(b: Block, s: Search, fold: char -> char)
    ensures s.exact ==> (Hits(b, s, fold) <==> |b.text| == |s.text| && StandsAt(b.text, s.text, 0, s.ignoreCase, fold))
    ensures s.exact && !s.ignoreCase ==> (Hits(b, s, fold) <==> b.text == s.text)
    ensures !s.exact ==> (Hits(b, s, fold) <==> exists i: nat :: StandsAt(b.text, s.text, i, s.ignoreCase, fold))
  {
    ContainsExactly(b.text, s.text, s.ignoreCase, fold);
    hide Contains;
    if s.exact {
      var t, p := FoldIf(b.text, s.ignoreCase, fold), FoldIf(s.text, s.ignoreCase, fold);
      if |t| == |p| {
        PartAtExactly(b.text, s.text, 0, s.ignoreCase, fold);
        assert PartAt(t, p, 0) <==> t == p;
      }
    }
  }

  function FirstHit(blocks: seq<Block>, s: Search, fold: char -> char): (r: Option<nat>)
    ensures r.Some? ==> r.value < |blocks| && Hits(blocks[r.value], s, fold)
    ensures forall j :: 0 <= j < (if r.Some? then r.value else |blocks|) ==> !Hits(blocks[j], s, fold)
    decreases |blocks|
  {
    if blocks == [] then None
    else if Hits(blocks[0], s, fold) then Some(0)
    else
      var rest := FirstHit(blocks[1..], s, fold);
      if rest.None? then None else Some(rest.value + 1)
  }

  /** The block that stands for none. */
  const NO_BLOCK := Block("", 0)

  function FindInBlocks(blocks: seq<Block>, s: Search, fold: char -> char): (b: Block) {
    var i := FirstHit(blocks, s, fold);
    if i.None? then NO_BLOCK else blocks[i.value]
  }

  lemma FoundBlockIsFirst(blocks: seq<Block>, s: Search, fold: char -> char, i: nat)
    requires i <= |blocks| && forall j :: 0 <= j < i ==> !Hits(blocks[j], s, fold)
    ensures i == |blocks| ==> FindInBlocks(blocks, s, fold) == Block("", 0)
    ensures i < |blocks| && Hits(blocks[i], s, fold) ==> FindInBlocks(blocks, s, fold) == blocks[i]
  {
    hide Hits, FirstHit;
  }

  /** What `waitForText` takes for found: the first hit, if it has any text. */
  predicate Found(blocks: seq<Block>, s: Search, fold: char -> char) {
    FindInBlocks(blocks, s, fold).text != ""
  }

  /** A text that is not empty is found exactly when some block has it. The empty text, which every
      block contains, is found exactly when the first block has any text and part of a block is
      enough. */
  lemma FoundExactly(blocks: seq<Block>, s: Search, fold: char -> char)
    ensures s.text != "" ==>
              (Found(blocks, s, fold) <==> exists i :: 0 <= i < |blocks| && Hits(blocks[i], s, fold))
    ensures s.text == "" ==>
              (Found(blocks, s, fold) <==> !s.exact && blocks != [] && blocks[0].text != "")
  {
    hide Contains, Equal, FirstHit;
    var i := FirstHit(blocks, s, fold);
    if i.Some? {
      HitLength(blocks[i.value], s, fold);
    }
    if blocks != [] {
      HitLength(blocks[0], s, fold);
    }
  }

  lemma HitLength(b: Block, s: Search, fold: char -> char)
    ensures Hits(b, s, fold) ==> |b.text| >= |s.text| && (s.exact ==> |b.text| == |s.text|)
    ensures s.text == "" && !s.exact ==> Hits(b, s, fold)
  {
    if s.text == "" && !s.exact {
      assert PartAt(FoldIf(b.text, s.ignoreCase, fold), FoldIf(s.text, s.ignoreCase, fold), 0);
    }
  }

  // ---- Polling times ----

  const POLL: int := 200

  function Min(a: int, b: int): (r: int) { if a <= b then a else b }

  function Max(a: int, b: int): (r: int) { if a >= b then a else b }

  /** How long has been slept before poll `n`. */
  function PollTime(n: nat, timeoutMs: int): (t: int) {
    Min(POLL * n, Max(timeoutMs, 0))
  }

  /** `ceil(timeoutMs / 200) + 1` for a timeout that is not negative, and one poll for one that is. */
  function VerifyPolls(timeoutMs: int): (n: nat) {
    if timeoutMs <= 0 then 1 else (timeoutMs + POLL - 1) / POLL + 1
  }

  /** `floor(timeoutMs / 200) + 1` for a timeout that is not negative, and no poll for one that is. */
  function WaitPolls(timeoutMs: int): (n: nat) {
    if timeoutMs < 0 then 0 else timeoutMs / POLL + 1
  }

  /** The last poll of a verification comes when all the time has been slept. That of a wait for
      text does so exactly for a multiple of 200; otherwise nothing looks at the screen after the
      last sleep. */
  lemma LastLook(timeoutMs: nat)
    ensures PollTime(VerifyPolls(timeoutMs) - 1, timeoutMs) == timeoutMs
    ensures PollTime(WaitPolls(timeoutMs) - 1, timeoutMs) == timeoutMs - timeoutMs % POLL
    ensures WaitPolls(timeoutMs) == VerifyPolls(timeoutMs) <==> timeoutMs % POLL == 0
    ensures 200 * (VerifyPolls(timeoutMs) - 2) < timeoutMs <= 200 * (VerifyPolls(timeoutMs) - 1) || timeoutMs == 0
    ensures 200 * (WaitPolls(timeoutMs) - 1) <= timeoutMs < 200 * WaitPolls(timeoutMs)
  {
    var q, r := timeoutMs / POLL, timeoutMs % POLL;
    assert timeoutMs == POLL * q + r;
    assert (timeoutMs + POLL - 1) / POLL == if r == 0 then q else q + 1;
  }

  const INT_MAX: int := 0x7fff_ffff

  /** The counter of elapsed time, 200 per sleep, stays within 32 bits to the end of both loops
      exactly for timeouts of at most 2147483600 ms. */
  lemma ElapsedFits(timeoutMs: int)
    requires timeoutMs <= INT_MAX
    ensures POLL * (VerifyPolls(timeoutMs) - 1) <= INT_MAX <==> timeoutMs <= 2_147_483_600
  {
  }
}

/** `VerificationService` (QuickDesk/src/api/VerificationService.cpp). */
module Verification {
  import opened ScreenText

  datatype Condition = Condition(kind: string, value: string)

  /** The result of one condition; the wording of its reason is left out. */
  datatype ConditionResult = ConditionResult(condition: Condition, passed: bool, actual: string)

  datatype Summary = None | OcrError(error: string) | AllPassed(count: nat) | Failing(results: seq<ConditionResult>)

  datatype VerificationResult = VerificationResult(
    allPassed: bool, timedOut: bool, results: seq<ConditionResult>, summary: Summary)

  /** Whether a condition holds of a screen. */
  predicate Holds(c: Condition, blocks: seq<Block>, title: string, fold: char -> char) {
    match c.kind
    case "text_present" => exists b <- blocks :: Contains(b.text, c.value, true, fold)
    case "text_absent" => forall b <- blocks :: !Contains(b.text, c.value, true, fold)
    case "text_present_exact" => exists b <- blocks :: b.text == c.value
    case "window_title_contains" => Contains(title, c.value, true, fold)
    case "window_title_equals" => title == c.value
    case _ => false
  }

  /** `evaluate`: a condition of unknown kind fails. */
  function Evaluate(c: Condition, blocks: seq<Block>, title: string, fold: char -> char): (r: ConditionResult)
    ensures r.condition == c
    ensures r.passed <==> Holds(c, blocks, title, fold)
    ensures c.kind == "text_present_exact" ==> r.actual == if r.passed then c.value else ""
  {
    hide Contains;
    if c.kind == "text_present" then
      var i := FirstHit(blocks, Search(c.value, false, true), fold);
      if i.Some? then ConditionResult(c, true, blocks[i.value].text) else ConditionResult(c, false, "")
    else if c.kind == "text_absent" then
      var i := FirstHit(blocks, Search(c.value, false, true), fold);
      if i.Some? then ConditionResult(c, false, blocks[i.value].text) else ConditionResult(c, true, "")
    else if c.kind == "text_present_exact" then
      var i := FirstHit(blocks, Search(c.value, true, false), fold);
      if i.Some? then ConditionResult(c, true, blocks[i.value].text) else ConditionResult(c, false, "")
    else if c.kind == "window_title_contains" then
      ConditionResult(c, Contains(title, c.value, true, fold), title)
    else if c.kind == "window_title_equals" then ConditionResult(c, title == c.value, title)
    else ConditionResult(c, false, "")
  }

  /** When each kind of condition passes, in terms of where its value stands on the screen. */
  lemma KindsMean(value: string, blocks: seq<Block>, title: string, fold: char -> char)
    ensures Evaluate(Condition("text_present", value), blocks, title, fold).passed <==>
            exists k, i: nat :: 0 <= k < |blocks| && StandsAt(blocks[k].text, value, i, true, fold)
    ensures Evaluate(Condition("text_absent", value), blocks, title, fold).passed <==>
            !exists k, i: nat :: 0 <= k < |blocks| && StandsAt(blocks[k].text, value, i, true, fold)
    ensures Evaluate(Condition("text_present_exact", value), blocks, title, fold).passed <==>
            exists k :: 0 <= k < |blocks| && blocks[k].text == value
    ensures Evaluate(Condition("window_title_contains", value), blocks, title, fold).passed <==>
            exists i: nat :: StandsAt(title, value, i, true, fold)
    ensures Evaluate(Condition("window_title_equals", value), blocks, title, fold).passed <==> title == value
  {
    hide Contains, StandsAt, Evaluate;
    ContainsExactly(title, value, true, fold);
    forall k | 0 <= k < |blocks|
      ensures Contains(blocks[k].text, value, true, fold) <==> exists i: nat :: StandsAt(blocks[k].text, value, i, true, fold)
    {
      ContainsExactly(blocks[k].text, value, true, fold);
    }
    assert forall b <- blocks :: exists k :: 0 <= k < |blocks| && blocks[k] == b;
  }

  /** Nothing else is a kind of condition. */
  lemma OtherKindsFail(c: Condition, blocks: seq<Block>, title: string, fold: char -> char)
    requires c.kind !in ["text_present", "text_absent", "text_present_exact", "window_title_contains", "window_title_equals"]
    ensures !Evaluate(c, blocks, title, fold).passed
  {
  }

  /** The text reported for a condition on texts is that of the first block that matches. */
  lemma ActualIsFirstMatch(c: Condition, blocks: seq<Block>, title: string, fold: char -> char, i: nat)
    requires i < |blocks|
    requires c.kind == "text_present" || c.kind == "text_absent"
    requires Contains(blocks[i].text, c.value, true, fold)
    requires forall j :: 0 <= j < i ==> !Contains(blocks[j].text, c.value, true, fold)
    ensures Evaluate(c, blocks, title, fold).actual == blocks[i].text
  {
    hide Contains;
    var first := FirstHit(blocks, Search(c.value, false, true), fold);
    assert Hits(blocks[i], Search(c.value, false, true), fold);
  }

  predicate AllHold(conditions: seq<Condition>, look: Look, fold: char -> char) {
    look.Screen? && forall c <- conditions :: Holds(c, look.blocks, look.title, fold)
  }

  /** The results of all conditions on one screen. */
  function Results(conditions: seq<Condition>, look: Look, fold: char -> char): (r: seq<ConditionResult>)
    requires look.Screen?
    ensures |r| == |conditions|
    ensures forall i :: 0 <= i < |r| ==>
              r[i].condition == conditions[i] && (r[i].passed <==> Holds(conditions[i], look.blocks, look.title, fold))
  {
    seq(|conditions|, i requires 0 <= i < |conditions| => Evaluate(conditions[i], look.blocks, look.title, fold))
  }

  function Failures(results: seq<ConditionResult>): (r: seq<ConditionResult>)
    ensures forall x :: x in r <==> x in results && !x.passed
  {
    if results == [] then [] else (if results[0].passed then [] else [results[0]]) + Failures(results[1..])
  }

  /** One pass over the conditions. */
  method EvaluateAll(conditions: seq<Condition>, look: Look, fold: char -> char)
    returns (results: seq<ConditionResult>, allPass: bool)
    requires look.Screen?
    ensures results == Results(conditions, look, fold)
    ensures allPass <==> AllHold(conditions, look, fold)
  {
    hide Holds, Evaluate;
    results, allPass := [], true;
    for i := 0 to |conditions|
      invariant results == Results(conditions, look, fold)[..i]
      invariant allPass <==> forall j :: 0 <= j < i ==> Holds(conditions[j], look.blocks, look.title, fold)
    {
      var r := Evaluate(conditions[i], look.blocks, look.title, fold);
      if !r.passed {
        allPass := false;
      }
      results := results + [r];
    }
  }

  /** How many polls the loop makes: it goes on exactly while there is time, it can see the screen
      and some condition does not hold. */
  ghost predicate StopsAfter(conditions: seq<Condition>, timeoutMs: int, look: nat -> Look, fold: char -> char, polls: nat) {
    && 1 <= polls <= VerifyPolls(timeoutMs)
    && (forall n: nat :: n < polls - 1 ==> look(n).Screen? && !AllHold(conditions, look(n), fold))
    && (polls < VerifyPolls(timeoutMs) ==> look(polls - 1).Failed? || AllHold(conditions, look(polls - 1), fold))
  }

  /** `verifyActionResult`. `look(n)` is what poll `n` meets; `polls` counts the polls and `slept`
      the time slept. */
  method VerifyActionResult(conditions: seq<Condition>, timeoutMs: int, look: nat -> Look, fold: char -> char)
    returns (vr: VerificationResult, polls: nat, slept: nat)
    ensures StopsAfter(conditions, timeoutMs, look, fold, polls) && slept == PollTime(polls - 1, timeoutMs)
    // What it reports is about the last screen alone, but for an error, which keeps the results before.
    ensures vr.allPassed <==> AllHold(conditions, look(polls - 1), fold)
    ensures !vr.timedOut
    ensures look(polls - 1).Screen? ==> vr.results == Results(conditions, look(polls - 1), fold)
    ensures look(polls - 1).Failed? ==>
              vr.results == if polls == 1 then [] else Results(conditions, look(polls - 2), fold)
    ensures vr.summary == if look(polls - 1).Failed? then OcrError(look(polls - 1).error)
                          else if vr.allPassed then AllPassed(|conditions|)
                          else Failing(Failures(vr.results))
  {
    hide Holds, Evaluate, Failures, Results, AllHold;
    var elapsed := 0;
    vr := VerificationResult(false, false, [], Summary.None);
    polls, slept := 0, 0;
    while true
      invariant elapsed == POLL * polls && slept == PollTime(polls, timeoutMs)
      invariant polls > 0 ==> elapsed - POLL < timeoutMs
      invariant forall n :: 0 <= n < polls ==> look(n).Screen? && !AllHold(conditions, look(n), fold)
      invariant !vr.allPassed && !vr.timedOut
      invariant vr.results == if polls == 0 then [] else Results(conditions, look(polls - 1), fold)
      decreases timeoutMs - elapsed
    {
      var ocr := look(polls);
      polls := polls + 1;
      assert polls <= VerifyPolls(timeoutMs);
      if ocr.Failed? {
        assert !AllHold(conditions, ocr, fold) by { NoScreen(conditions, ocr, fold); }
        vr := VerificationResult(vr.allPassed, vr.timedOut, vr.results, OcrError(ocr.error));
        return;
      }
      var results, allPass := EvaluateAll(conditions, ocr, fold);
      vr := VerificationResult(vr.allPassed, vr.timedOut, results, vr.summary);
      if allPass {
        vr := VerificationResult(true, vr.timedOut, vr.results, AllPassed(|conditions|));
        return;
      }
      if elapsed >= timeoutMs {
        vr := VerificationResult(vr.allPassed, false, vr.results, Failing(Failures(vr.results)));
        return;
      }
      var wait := Min(POLL, timeoutMs - elapsed);
      slept := slept + wait;
      elapsed := elapsed + POLL;
    }
  }

  lemma NoScreen(conditions: seq<Condition>, look: Look, fold: char -> char)
    ensures look.Failed? ==> !AllHold(conditions, look, fold)
  {
  }

  /** What the loop reports, in terms of the screens alone: success exactly when at some poll within
      the time all conditions hold on that one screen, every screen before it having been seen. */
  lemma PassesExactly(conditions: seq<Condition>, timeoutMs: int, look: nat -> Look, fold: char -> char, polls: nat)
    requires StopsAfter(conditions, timeoutMs, look, fold, polls)
    ensures AllHold(conditions, look(polls - 1), fold) <==>
            exists n: nat :: n < VerifyPolls(timeoutMs) && AllHold(conditions, look(n), fold)
                     && forall m: nat :: m < n ==> look(m).Screen?
  {
    hide Holds, VerifyPolls;
    NoScreen(conditions, look(polls - 1), fold);
    if AllHold(conditions, look(polls - 1), fold) {
      assert forall m: nat :: m < polls - 1 ==> look(m).Screen?;
    }
  }
}

/** `UiStateService::waitForText` (QuickDesk/src/api/UiStateService.cpp). */
module TextWait {
  import opened ScreenText

  datatype Outcome = Appeared(block: Block) | OcrError(error: string) | DidNotAppear

  predicate Sees(look: Look, s: Search, fold: char -> char) {
    look.Screen? && Found(look.blocks, s, fold)
  }

  method WaitForText(s: Search, timeoutMs: int, look: nat -> Look, fold: char -> char)
    returns (r: Outcome, polls: nat, slept: nat)
    ensures polls <= WaitPolls(timeoutMs) && slept <= Max(timeoutMs, 0)
    // It goes on exactly while it can see the screen and the text is not there.
    ensures forall n :: 0 <= n < (if r.DidNotAppear? then polls else polls - 1) ==>
              look(n).Screen? && !Sees(look(n), s, fold)
    ensures r.Appeared? ==> polls > 0 && Sees(look(polls - 1), s, fold)
                            && r.block == FindInBlocks(look(polls - 1).blocks, s, fold)
    ensures r.OcrError? ==> polls > 0 && look(polls - 1) == Failed(r.error)
    ensures !r.DidNotAppear? ==> slept == PollTime(polls - 1, timeoutMs)
    // Giving up takes all polls and all the time.
    ensures r.DidNotAppear? ==> polls == WaitPolls(timeoutMs) && slept == Max(timeoutMs, 0)
  {
    hide FindInBlocks;
    var elapsed := 0;
    polls, slept := 0, 0;
    while elapsed <= timeoutMs
      invariant elapsed == POLL * polls && slept == PollTime(polls, timeoutMs)
      invariant polls > 0 ==> elapsed - POLL < timeoutMs
      invariant forall n :: 0 <= n < polls ==> look(n).Screen? && !Sees(look(n), s, fold)
      decreases timeoutMs - elapsed
    {
      var result := look(polls);
      polls := polls + 1;
      assert polls <= WaitPolls(timeoutMs);
      if result.Failed? {
        return OcrError(result.error), polls, slept;
      }
      var blk := FindInBlocks(result.blocks, s, fold);
      if blk.text != "" {
        return Appeared(blk), polls, slept;
      }
      if elapsed >= timeoutMs {
        break;
      }
      slept := slept + Min(POLL, timeoutMs - elapsed);
      elapsed := elapsed + POLL;
    }
    r := DidNotAppear;
  }
}
