/**
 Checking a draft, rewriting it while checks fail, keeping the best one seen, and saying why a person should look.
 What the critic, the scanner and the rewriting model answer is arbitrary.
 */
module Repair {
  import opened Common
  import opened Decimal
  import opened Weaving

  const MAX_REFINE_ATTEMPTS := 3
  const REFINE_THRESHOLD: real := 0.8
  const REVIEW_THRESHOLD: real := 0.9

  const SCANNER_DOWN := "PRESIDIO_UNAVAILABLE"

  // ---------- The checks on one draft ----------

  // What the critic's reply may hold for its confidence.
  datatype Reported = Absent | NotANumber | NotFinite | Finite(value: real)

  // The nearest number from 0 to 1; nothing when there is no finite number to be near to.
  function ClampConfidence(reported: Reported): (c: Option<real>)
    ensures c.Some? <==> reported.Finite?
    ensures c.Some? ==> 0.0 <= c.value <= 1.0
    ensures c.Some? ==>
      forall x: real | 0.0 <= x <= 1.0 :: Distance(c.value, reported.value) <= Distance(x, reported.value)
  {
    if !reported.Finite? then None
    else Some(if reported.value < 0.0 then 0.0 else if reported.value > 1.0 then 1.0 else reported.value)
  }

  function Distance(a: real, b: real): real {
    if a < b then b - a else a - b
  }

  datatype Verdict = Verdict(confidence: Option<real>, groundingOk: bool, piiClean: bool, toneMatch: bool,
                             completeness: bool, issues: seq<string>)

  // A draft's text, with what each check found in it.
  datatype Candidate = Candidate(draft: string, verdict: Option<Verdict>, piiFindings: seq<string>,
                                 specifics: seq<string>, unaddressed: seq<string>, criticError: Option<string>)

  function Confidence(c: Candidate): Option<real> {
    if c.verdict.None? then None else c.verdict.value.confidence
  }

  function Leaks(findings: seq<string>): (leaks: seq<string>)
    ensures forall f :: f in leaks <==> f in findings && f != SCANNER_DOWN
  {
    if findings == [] then []
    else (if findings[0] == SCANNER_DOWN then [] else [findings[0]]) + Leaks(findings[1..])
  }

  // Clean, leaking, or unknown: a scanner that cannot be reached is not a clean bill.
  function PiiVerdict(findings: seq<string>): (r: Option<bool>)
    ensures r == Some(true) <==> findings == []
    ensures r == Some(false) <==> exists f | f in findings :: f != SCANNER_DOWN
  {
    var leaks := Leaks(findings);
    assert leaks != [] ==> leaks[0] in leaks;
    assert findings != [] ==> findings[0] in findings;
    if leaks != [] then Some(false) else if SCANNER_DOWN in findings then None else Some(true)
  }

  // A failed check, as what the rewrite is asked to do about it.
  datatype Fix = RemoveLeak(kind: string) | CorrectFigure(figure: string) | AnswerRequest(item: string)
    | DropUnsupported

  function Each(texts: seq<string>, fix: string -> Fix): (r: seq<Fix>)
    ensures |r| == |texts|
  {
    if texts == [] then [] else [fix(texts[0])] + Each(texts[1..], fix)
  }

  // What a rewrite can be asked to mend, so not a scanner that does not answer.
  function Failures(c: Candidate): seq<Fix> {
    Each(Leaks(c.piiFindings), kind => RemoveLeak(kind)) + Each(c.specifics, figure => CorrectFigure(figure))
    + Each(c.unaddressed, item => AnswerRequest(item))
    + if c.verdict.Some? && !c.verdict.value.groundingOk then [DropUnsupported] else []
  }

  predicate NeedsRepair(c: Candidate) {
    Failures(c) != [] || (if Confidence(c).Some? then Confidence(c).value else 0.0) < REFINE_THRESHOLD
  }

  function Score(c: Candidate): real {
    if Confidence(c).Some? then Confidence(c).value else -1.0
  }

  // What is kept is what fails the least; among equals, what the critic trusts more.
  predicate RanksBelow(a: Candidate, b: Candidate) {
    |Failures(a)| > |Failures(b)| || (|Failures(a)| == |Failures(b)| && Score(a) < Score(b))
  }

  // ---------- What counts as a failed check ----------

  lemma {:induction false} LeaksAreTheOthers(findings: seq<string>)
    ensures |Leaks(findings)| == |findings| - multiset(findings)["PRESIDIO_UNAVAILABLE"]
  {
    if findings != [] {
      LeaksAreTheOthers(findings[1..]);
      assert findings == [findings[0]] + findings[1..];
    }
  }

  // Each leak, each figure, each request left out and a verdict of no support is one failed check.
  lemma FailuresAreCounted(c: Candidate)
    ensures |Failures(c)| == |c.piiFindings| - multiset(c.piiFindings)["PRESIDIO_UNAVAILABLE"]
                             + |c.specifics| + |c.unaddressed|
                             + if c.verdict.Some? && !c.verdict.value.groundingOk then 1 else 0
  {
    LeaksAreTheOthers(c.piiFindings);
  }

  // A rewrite is asked for when a check failed, or when the critic is not sure enough, having said so or not.
  lemma NeedsRepairExactly(c: Candidate)
    ensures NeedsRepair(c) <==>
      || (exists f :: f in c.piiFindings && f != "PRESIDIO_UNAVAILABLE") || c.specifics != [] || c.unaddressed != []
      || c.verdict.None? || !c.verdict.value.groundingOk
      || c.verdict.value.confidence.None? || c.verdict.value.confidence.value < 0.8
  {
    assert Leaks(c.piiFindings) != [] ==> Leaks(c.piiFindings)[0] in Leaks(c.piiFindings);
    assert |Failures(c)| == |Leaks(c.piiFindings)| + |c.specifics| + |c.unaddressed|
                            + if c.verdict.Some? && !c.verdict.value.groundingOk then 1 else 0;
  }

  // More failed checks rank lower whatever the confidence; with as many, the lower confidence does, and none at all
  // below any.
  lemma RanksBelowExactly(a: Candidate, b: Candidate)
    requires a.verdict.Some? && b.verdict.Some?
    requires a.verdict.value.confidence.Some? ==> a.verdict.value.confidence.value >= 0.0
    requires b.verdict.value.confidence.Some? ==> b.verdict.value.confidence.value >= 0.0
    ensures |Failures(a)| > |Failures(b)| ==> RanksBelow(a, b) && !RanksBelow(b, a)
    ensures |Failures(a)| == |Failures(b)| ==>
      (RanksBelow(a, b) <==> match b.verdict.value.confidence
                             case None => false
                             case Some(x) => a.verdict.value.confidence.None?
                                             || a.verdict.value.confidence.value < x)
  {
  }

  // ---------- The repair loop ----------

  // A round's rewrite failed, or its draft was assessed.
  datatype Round = RewriteFailed(code: string) | Assessed(candidate: Candidate)

  datatype Repaired = Repaired(best: Candidate, attempts: nat, stoppedBy: Option<string>)

  // The first draft and those of the first n rounds.
  function Seen(first: Candidate, rounds: seq<Round>, n: nat): (seen: seq<Candidate>)
    requires n <= |rounds| && forall k :: 0 <= k < n ==> rounds[k].Assessed?
    ensures |seen| == n + 1 && seen[0] == first && forall k :: 0 <= k < n ==> seen[k + 1] == rounds[k].candidate
  {
    if n == 0 then [first] else Seen(first, rounds, n - 1) + [rounds[n - 1].candidate]
  }

  // None before it ranks higher, and every later one ranks lower.
  ghost predicate IsLatestBest(seen: seq<Candidate>, i: nat) {
    && i < |seen|
    && (forall j :: 0 <= j < |seen| ==> !RanksBelow(seen[i], seen[j]))
    && (forall j :: i < j < |seen| ==> RanksBelow(seen[j], seen[i]))
  }

  predicate WantsRewrite(c: Candidate) {
    c.verdict.Some? && NeedsRepair(c)
  }

  /**
   Of all the drafts assessed the latest of the highest rank is kept. Each rewrite followed a judged draft that needed
   one; the loop ends on a draft that does not ask for another, on a failed rewrite, or after three.
   */
  ghost predicate IsRepairOf(first: Candidate, rounds: seq<Round>, r: Repaired) {
    && r.attempts <= MAX_REFINE_ATTEMPTS <= |rounds|
    && (forall k :: 0 <= k < r.attempts ==> rounds[k].Assessed?)
    && var seen := Seen(first, rounds, r.attempts);
    && (exists i: nat {:trigger IsLatestBest(seen, i)} :: IsLatestBest(seen, i) && seen[i] == r.best)
    && (forall k :: 0 <= k < r.attempts ==> WantsRewrite(seen[k]))
    && (if r.stoppedBy.None? then !WantsRewrite(seen[r.attempts]) || r.attempts == MAX_REFINE_ATTEMPTS
        else && WantsRewrite(seen[r.attempts]) && r.attempts < MAX_REFINE_ATTEMPTS
             && rounds[r.attempts] == RewriteFailed(r.stoppedBy.value))
  }

  lemma OneMoreSeen(seen: seq<Candidate>, i: nat, c: Candidate)
    requires IsLatestBest(seen, i)
    ensures IsLatestBest(seen + [c], if RanksBelow(c, seen[i]) then i else |seen|)
  {
    forall j | 0 <= j < |seen| && !RanksBelow(c, seen[i]) ensures !RanksBelow(c, seen[j]) {
      RankIsAnOrder(c, seen[i], seen[j]);
    }
  }

  lemma RankIsAnOrder(a: Candidate, b: Candidate, c: Candidate)
    requires !RanksBelow(a, b) && !RanksBelow(b, c)
    ensures !RanksBelow(a, c)
  {
  }

  // After some rounds: each was asked for, and the at-th draft seen is the one to keep.
  ghost predicate IsSoFar(first: Candidate, rounds: seq<Round>, seen: seq<Candidate>, at: nat) {
    && 0 < |seen| <= MAX_REFINE_ATTEMPTS + 1 && |seen| <= |rounds| + 1
    && (forall k :: 0 <= k < |seen| - 1 ==> rounds[k].Assessed?)
    && seen == Seen(first, rounds, |seen| - 1)
    && (forall k :: 0 <= k < |seen| - 1 ==> WantsRewrite(seen[k]))
    && IsLatestBest(seen, at)
  }

  lemma OneMoreRound(first: Candidate, rounds: seq<Round>, seen: seq<Candidate>, at: nat)
    requires IsSoFar(first, rounds, seen, at) && WantsRewrite(seen[|seen| - 1])
    requires |seen| <= MAX_REFINE_ATTEMPTS && |seen| <= |rounds| && rounds[|seen| - 1].Assessed?
    ensures var c := rounds[|seen| - 1].candidate;
            IsSoFar(first, rounds, seen + [c], if RanksBelow(c, seen[at]) then at else |seen|)
  {
    var c := rounds[|seen| - 1].candidate;
    OneMoreSeen(seen, at, c);
    assert Seen(first, rounds, |seen|) == seen + [c];
    AllButLastWant(seen, c);
  }

  lemma AllButLastWant(seen: seq<Candidate>, c: Candidate)
    requires forall k :: 0 <= k < |seen| ==> WantsRewrite(seen[k])
    ensures forall k :: 0 <= k < |seen + [c]| - 1 ==> WantsRewrite((seen + [c])[k])
  {
  }

  lemma EndsWith(first: Candidate, rounds: seq<Round>, seen: seq<Candidate>, at: nat, stoppedBy: Option<string>)
    requires IsSoFar(first, rounds, seen, at) && MAX_REFINE_ATTEMPTS <= |rounds|
    requires if stoppedBy.None? then !WantsRewrite(seen[|seen| - 1]) || |seen| == MAX_REFINE_ATTEMPTS + 1
             else && WantsRewrite(seen[|seen| - 1]) && |seen| <= MAX_REFINE_ATTEMPTS
                  && rounds[|seen| - 1] == RewriteFailed(stoppedBy.value)
    ensures IsRepairOf(first, rounds, Repaired(seen[at], |seen| - 1, stoppedBy))
  {
    var all := Seen(first, rounds, |seen| - 1);
    assert all == seen && IsLatestBest(all, at) && all[at] == seen[at];
  }

  method RepairDraft(first: Candidate, rounds: seq<Round>) returns (r: Repaired)
    requires |rounds| >= MAX_REFINE_ATTEMPTS
    ensures IsRepairOf(first, rounds, r)
  {
    var best, current := first, first;
    var attempts := 0;
    ghost var at: nat, seen := 0, [first];
    while WantsRewrite(current) && attempts < MAX_REFINE_ATTEMPTS
      invariant IsSoFar(first, rounds, seen, at) && |seen| == attempts + 1
      invariant current == seen[attempts] && best == seen[at]
    {
      match rounds[attempts]
      case RewriteFailed(code) =>
        EndsWith(first, rounds, seen, at, Some(code));
        return Repaired(best, attempts, Some(code));
      case Assessed(candidate) =>
        OneMoreRound(first, rounds, seen, at);
        at := if RanksBelow(candidate, seen[at]) then at else |seen|;
        seen := seen + [candidate];
        attempts := attempts + 1;
        current := candidate;
        best := if RanksBelow(current, best) then best else current;
    }
    EndsWith(first, rounds, seen, at, None);
    return Repaired(best, attempts, None);
  }

  // With no rewrite the first draft is the one kept; and one that asks for no rewrite gets none.
  lemma FirstStays(first: Candidate, rounds: seq<Round>, r: Repaired)
    requires IsRepairOf(first, rounds, r)
    ensures r.attempts == 0 ==> r.best == first
    ensures !WantsRewrite(first) ==> r == Repaired(first, 0, None)
  {
    var seen := Seen(first, rounds, r.attempts);
    var i: nat :| IsLatestBest(seen, i) && seen[i] == r.best;
    assert r.attempts > 0 ==> WantsRewrite(seen[0]);
  }

  // ---------- Why a person should look ----------

  datatype Code = PiiFound | PiiScanUnavailable | FiguresNotInSource | CriticUnavailable | GroundingFailed
    | DoesNotAddress | Incomplete | RefineRounds | RepairStopped | LowConfidence
    | PhishingLink | NotGrounded | NoReply | NoDraft | Unknown

  datatype Flag = Flag(code: Code, text: string, items: seq<string>)

  // How a confidence prints.
  type Show = Option<real> -> string

  function If(condition: bool, flag: Flag): seq<Flag> {
    if condition then [flag] else []
  }

  function ScanReasons(c: Candidate): seq<Flag> {
    var leaks := Leaks(c.piiFindings);
    If(leaks != [], Flag(PiiFound, "pii: " + Joined(leaks, ", "), leaks))
    + If(SCANNER_DOWN in c.piiFindings, Flag(PiiScanUnavailable, "pii: " + SCANNER_DOWN, []))
    + If(c.specifics != [],
         Flag(FiguresNotInSource, "figures not in source: " + Joined(c.specifics, ", "), c.specifics))
  }

  function UnjudgedReason(c: Candidate): seq<Flag> {
    if c.criticError.Some? then [Flag(CriticUnavailable, "critic unavailable: " + c.criticError.value, [])] else []
  }

  function RequestReason(c: Candidate): seq<Flag> {
    if c.unaddressed != [] then
      [Flag(DoesNotAddress, "does not address: " + Joined(c.unaddressed, "; "), c.unaddressed)]
    else
      If(c.verdict.Some? && !c.verdict.value.completeness, Flag(Incomplete, "does not address everything asked", []))
  }

  function CriticReasons(c: Candidate): seq<Flag> {
    UnjudgedReason(c)
    + If(c.verdict.Some? && !c.verdict.value.groundingOk, Flag(GroundingFailed, "grounding check failed", []))
    + RequestReason(c)
  }

  function RoundReasons(show: Show, c: Candidate, attempts: nat, stoppedBy: Option<string>): seq<Flag> {
    If(attempts > 0, Flag(RefineRounds, "needed " + (Digits(attempts) + " refine round(s)"), [Digits(attempts)]))
    + (if stoppedBy.Some? then [Flag(RepairStopped, "repair stopped: " + stoppedBy.value, [])] else [])
    + If(Confidence(c).None? || Confidence(c).value < REVIEW_THRESHOLD,
         Flag(LowConfidence, "confidence " + (show(Confidence(c)) + " below 0.9"), []))
  }

  function ReviewReasons(show: Show, c: Candidate, attempts: nat, stoppedBy: Option<string>): seq<Flag> {
    ScanReasons(c) + CriticReasons(c) + RoundReasons(show, c, attempts, stoppedBy)
  }

  // Every check passed on exactly this text, and the critic is sure enough.
  predicate PassedAllChecks(c: Candidate) {
    && PiiVerdict(c.piiFindings) == Some(true) && c.specifics == [] && c.unaddressed == []
    && c.criticError.None? && c.verdict.Some? && c.verdict.value.groundingOk && c.verdict.value.completeness
    && c.verdict.value.confidence.Some? && c.verdict.value.confidence.value >= REVIEW_THRESHOLD
  }

  lemma NoReasonExactly(show: Show, c: Candidate, attempts: nat, stoppedBy: Option<string>)
    ensures ReviewReasons(show, c, attempts, stoppedBy) == []
            <==> PassedAllChecks(c) && attempts == 0 && stoppedBy.None?
  {
    if c.piiFindings != [] {
      assert c.piiFindings[0] in c.piiFindings;
      assert c.piiFindings[0] != SCANNER_DOWN ==> c.piiFindings[0] in Leaks(c.piiFindings);
    }
  }

  predicate HasReason(reasons: seq<Flag>, code: Code) {
    exists flag | flag in reasons :: flag.code == code
  }

  lemma CodesOfAll(a: seq<Flag>, b: seq<Flag>, code: Code)
    ensures HasReason(a + b, code) <==> HasReason(a, code) || HasReason(b, code)
  {
    assert forall flag :: flag in a + b <==> flag in a || flag in b;
  }

  // What each reason is given for.
  predicate IsDue(c: Candidate, attempts: nat, stoppedBy: Option<string>, code: Code) {
    match code
    case PiiFound => exists f | f in c.piiFindings :: f != "PRESIDIO_UNAVAILABLE"
    case PiiScanUnavailable => "PRESIDIO_UNAVAILABLE" in c.piiFindings
    case FiguresNotInSource => c.specifics != []
    case CriticUnavailable => c.criticError.Some?
    case GroundingFailed => c.verdict.Some? && !c.verdict.value.groundingOk
    case DoesNotAddress => c.unaddressed != []
    case Incomplete => c.verdict.Some? && !c.verdict.value.completeness && c.unaddressed == []
    case RefineRounds => attempts > 0
    case RepairStopped => stoppedBy.Some?
    case LowConfidence =>
      c.verdict.None? || c.verdict.value.confidence.None? || c.verdict.value.confidence.value < 0.9
    case _ => false
  }

  // Each failed check is a reason by its own code, and no check that passed is.
  lemma EachCheckHasItsReason(show: Show, c: Candidate, attempts: nat, stoppedBy: Option<string>, code: Code)
    ensures HasReason(ReviewReasons(show, c, attempts, stoppedBy), code) <==> IsDue(c, attempts, stoppedBy, code)
  {
    CodesOfAll(ScanReasons(c), CriticReasons(c), code);
    CodesOfAll(ScanReasons(c) + CriticReasons(c), RoundReasons(show, c, attempts, stoppedBy), code);
    ScanCodes(c, code);
    CriticCodes(c, code);
    RoundCodes(show, c, attempts, stoppedBy, code);
  }

  lemma ScanCodes(c: Candidate, code: Code)
    ensures HasReason(ScanReasons(c), code) <==>
      (code.PiiFound? || code.PiiScanUnavailable? || code.FiguresNotInSource?) && IsDue(c, 0, None, code)
  {
    var leaks := Leaks(c.piiFindings);
    assert leaks != [] ==> leaks[0] in leaks;
    var a := Flag(PiiFound, "pii: " + Joined(leaks, ", "), leaks);
    var b := Flag(PiiScanUnavailable, "pii: " + SCANNER_DOWN, []);
    var d := Flag(FiguresNotInSource, "figures not in source: " + Joined(c.specifics, ", "), c.specifics);
    CodesOfAll(If(leaks != [], a), If(SCANNER_DOWN in c.piiFindings, b), code);
    CodesOfAll(If(leaks != [], a) + If(SCANNER_DOWN in c.piiFindings, b), If(c.specifics != [], d), code);
    IfCode(leaks != [], a, code);
    IfCode(SCANNER_DOWN in c.piiFindings, b, code);
    IfCode(c.specifics != [], d, code);
  }

  lemma IfCode(condition: bool, flag: Flag, code: Code)
    ensures HasReason(If(condition, flag), code) <==> condition && code == flag.code
  {
    assert condition ==> flag in If(condition, flag);
  }

  lemma CriticCodes(c: Candidate, code: Code)
    ensures HasReason(CriticReasons(c), code) <==>
      && (code.CriticUnavailable? || code.GroundingFailed? || code.DoesNotAddress? || code.Incomplete?)
      && IsDue(c, 0, None, code)
  {
    var isUngrounded := c.verdict.Some? && !c.verdict.value.groundingOk;
    var ungrounded := Flag(GroundingFailed, "grounding check failed", []);
    CodesOfAll(UnjudgedReason(c), If(isUngrounded, ungrounded), code);
    CodesOfAll(UnjudgedReason(c) + If(isUngrounded, ungrounded), RequestReason(c), code);
    IfCode(isUngrounded, ungrounded, code);
    UnjudgedCode(c, code);
    RequestCode(c, code);
  }

  lemma UnjudgedCode(c: Candidate, code: Code)
    ensures HasReason(UnjudgedReason(c), code) <==> code.CriticUnavailable? && c.criticError.Some?
  {
    assert c.criticError.Some? ==> UnjudgedReason(c)[0] in UnjudgedReason(c);
  }

  lemma RequestCode(c: Candidate, code: Code)
    ensures HasReason(RequestReason(c), code) <==> (code.DoesNotAddress? || code.Incomplete?) && IsDue(c, 0, None, code)
  {
    assert c.unaddressed != [] ==> RequestReason(c)[0] in RequestReason(c);
    IfCode(c.verdict.Some? && !c.verdict.value.completeness,
           Flag(Incomplete, "does not address everything asked", []), code);
  }

  lemma RoundCodes(show: Show, c: Candidate, attempts: nat, stoppedBy: Option<string>, code: Code)
    ensures HasReason(RoundReasons(show, c, attempts, stoppedBy), code) <==>
      (code.RefineRounds? || code.RepairStopped? || code.LowConfidence?) && IsDue(c, attempts, stoppedBy, code)
  {
  }

  // What leaves without a reason is the first draft as it was written, and it passed; a first draft that passes does.
  method ReviewDraft(show: Show, first: Candidate, rounds: seq<Round>) returns (r: Repaired, reasons: seq<Flag>)
    requires |rounds| >= MAX_REFINE_ATTEMPTS
    ensures IsRepairOf(first, rounds, r) && reasons == ReviewReasons(show, r.best, r.attempts, r.stoppedBy)
    ensures reasons == [] ==> r.best == first && PassedAllChecks(first)
    ensures PassedAllChecks(first) ==> r == Repaired(first, 0, None) && reasons == []
  {
    r := RepairDraft(first, rounds);
    reasons := ReviewReasons(show, r.best, r.attempts, r.stoppedBy);
    NoReasonExactly(show, r.best, r.attempts, r.stoppedBy);
    PassedNeedsNoRepair(first);
    FirstStays(first, rounds, r);
  }

  lemma PassedNeedsNoRepair(c: Candidate)
    ensures PassedAllChecks(c) ==> Failures(c) == [] && !NeedsRepair(c)
  {
  }
}
