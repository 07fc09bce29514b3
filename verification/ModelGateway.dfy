/**
 One prompt on its way to Gemini: retries under a shared deadline, the circuit breaker of each model, the
 fallback, and the gateway's record of what left. The network is a function from the number of a post to what
 came of it, so every contract holds for whatever Gemini does.
 */
module ModelGateway {
  import opened Collections
  import opened Common
  import opened Scanning

  const ATTEMPT_TIMEOUT: Time := 30 * SECOND
  const ATTEMPTS_PER_MODEL: nat := 3
  const BACKOFF_CAP: Time := 10 * SECOND

  type Model = string

  // A 200's body: the joined, trimmed text of its first candidate, and why that one finished as an f-string prints
  // it (STOP when it does not say); or of a shape that reading it fails on.
  datatype Body = NoCandidates | Candidate(finish: string, text: string) | Misshapen

  // Why a reply that could be read cannot pass as a whole one.
  datatype Problem = Truncated | Blocked | Stopped(finish: string) | Empty | Malformed(message: string)

  datatype Code = Unavailable | DeadlineExceeded | Rejected | Unreadable(problem: Problem)

  // NotJson: a 200 whose body is no JSON at all. Interrupted: cancellation, or any other exception.
  datatype Reply =
    | Answered(body: Body)
    | NotJson
    | RejectedInput
    | Refused
    | Retryable(retryAfter: Option<nat>)
    | TransportError
    | Interrupted

  // took: how long the post would run if nothing cut it short. jitter: the backoff drawn after it.
  datatype Attempt = Attempt(took: nat, reply: Reply, jitter: nat)

  // Raised is any exception but a model error.
  datatype Result<T> = Done(value: T) | Error(code: Code, isPosted: bool) | Raised {
    function Noting(wasPosted: bool): Result<T> {
      if Error? then Error(code, wasPosted || isPosted) else this
    }
  }

  // What the JSON parser says of a text: nothing, or its error's message.
  type Parser = string -> Option<string>

  // ---------- Reading a reply ----------

  datatype Reading = Whole(text: string) | Failed(problem: Problem) | Misread

  function ReplyText(body: Body): Reading {
    match body
    case NoCandidates => Failed(Blocked)
    case Misshapen => Misread
    case Candidate(finish, text) =>
      if finish == "MAX_TOKENS" then Failed(Truncated)
      else if finish != "STOP" then Failed(Stopped(finish))
      else if text == "" then Failed(Empty)
      else Whole(text)
  }

  // parser is given when JSON was asked for.
  function ParseReply(body: Body, parser: Option<Parser>): Reading {
    var reading := ReplyText(body);
    if reading.Whole? && parser.Some? && parser.value(reading.text).Some? then
      Failed(Malformed(parser.value(reading.text).value))
    else
      reading
  }

  // What is read, and what of a body makes it so: text only from a candidate that stopped by itself with some, and
  // that the parser takes where JSON was asked for.
  lemma ReadsExactly(body: Body, parser: Option<Parser>, text: string, message: string)
    ensures ParseReply(body, parser) == Whole(text) <==>
              body == Candidate("STOP", text) && text != "" && (parser.Some? ==> parser.value(text).None?)
    ensures ParseReply(body, parser) == Failed(Malformed(message)) <==>
              body.Candidate? && body.finish == "STOP" && body.text != ""
              && parser.Some? && parser.value(body.text) == Some(message)
    ensures ParseReply(body, parser) == Failed(Truncated) <==> body.Candidate? && body.finish == "MAX_TOKENS"
    ensures ParseReply(body, parser) == Failed(Stopped(text)) <==>
              body.Candidate? && body.finish == text && text != "STOP" && text != "MAX_TOKENS"
    ensures ParseReply(body, parser) == Failed(Empty) <==> body == Candidate("STOP", "")
    ensures ParseReply(body, parser) == Failed(Blocked) <==> body == NoCandidates
  {
  }

  function CodeText(problem: Problem): string {
    match problem
    case Truncated => "gemini_output_truncated"
    case Malformed(_) => "gemini_malformed_json"
    case _ => "gemini_no_candidate"
  }

  function Detail(problem: Problem): string {
    match problem
    case Truncated => "reply hit maxOutputTokens"
    case Blocked => "no candidate (blocked or empty)"
    case Stopped(finish) => "reply stopped: " + finish
    case Empty => "empty reply"
    case Malformed(message) => message
  }

  function ErrorText(problem: Problem): string {
    CodeText(problem) + ": " + Detail(problem)
  }

  const NOT_CONFIGURED := "not configured"

  // What keeps an unposted error off the record.
  predicate SaysNotConfigured(problem: Problem) {
    Holds(ErrorText(problem), NOT_CONFIGURED)
  }

  lemma LetterAt(text: string, i: int, j: nat)
    requires IsAt(text, NOT_CONFIGURED, i) && j < 14
    ensures text[i + j] == NOT_CONFIGURED[j]
  {
    assert text[i..i + 14][j] == text[i + j];
  }

  // Ends in a colon and a space, and lacks one of two letters of the words.
  predicate IsLeadIn(prefix: string) {
    && |prefix| >= 2 && prefix[|prefix| - 2] == ':' && prefix[|prefix| - 1] == ' '
    && ('f' !in prefix || 'u' !in prefix)
  }

  // Such a prefix has no part in an occurrence of the words.
  lemma NotInPrefix(prefix: string, text: string, i: int)
    requires IsLeadIn(prefix) && IsAt(prefix + text, NOT_CONFIGURED, i)
    ensures |prefix| <= i
  {
    var j := |prefix| - 1 - i;
    LetterAt(prefix + text, i, 7);
    LetterAt(prefix + text, i, 10);
    if 0 <= j < 10 {
      LetterAt(prefix + text, i, j);
      LetterAt(prefix + text, i, 2);
    }
  }

  lemma HoldsBehind(prefix: string, text: string)
    requires IsLeadIn(prefix)
    ensures Holds(prefix + text, NOT_CONFIGURED) <==> Holds(text, NOT_CONFIGURED)
  {
    var n, whole := |prefix|, prefix + text;
    forall i | n <= i ensures IsAt(whole, NOT_CONFIGURED, i) <==> IsAt(text, NOT_CONFIGURED, i - n) {
      assert i + 14 <= |whole| ==> whole[i..i + 14] == text[i - n..i - n + 14];
    }
    if Holds(text, NOT_CONFIGURED) {
      var i := WhereItHolds(text, NOT_CONFIGURED);
      HoldsAt(whole, NOT_CONFIGURED, n + i);
    }
    if Holds(whole, NOT_CONFIGURED) {
      var i := WhereItHolds(whole, NOT_CONFIGURED);
      NotInPrefix(prefix, text, i);
      HoldsAt(text, NOT_CONFIGURED, i - n);
    }
  }

  lemma NeedsAnF(text: string)
    requires 'f' !in text
    ensures !Holds(text, NOT_CONFIGURED)
  {
    if Holds(text, NOT_CONFIGURED) {
      var i := WhereItHolds(text, NOT_CONFIGURED);
      LetterAt(text, i, 7);
    }
  }

  lemma CodesLeadIn(problem: Problem)
    ensures IsLeadIn(CodeText(problem) + ": ")
  {
    match problem {
      case Truncated => assert 'f' !in CodeText(problem);
      case _ => assert 'u' !in CodeText(problem);
    }
  }

  lemma FixedDetailsLackAnF()
    ensures 'f' !in Detail(Truncated) && 'f' !in Detail(Blocked) && 'f' !in Detail(Empty)
  {
  }

  // Only the reason Gemini itself gives for stopping, or the parser's message, can bring the words in.
  lemma SaysNotConfiguredExactly(problem: Problem)
    ensures SaysNotConfigured(problem) <==> match problem
      case Stopped(finish) => Holds(finish, NOT_CONFIGURED)
      case Malformed(message) => Holds(message, NOT_CONFIGURED)
      case _ => false
  {
    CodesLeadIn(problem);
    FixedDetailsLackAnF();
    HoldsBehind(CodeText(problem) + ": ", Detail(problem));
    match problem {
      case Stopped(finish) => HoldsBehind("reply stopped: ", finish);
      case Malformed(message) =>
      case _ => NeedsAnF(Detail(problem));
    }
  }

  class CircuitBreaker {
    const threshold: nat := 3
    const cooldown: Time := 60 * SECOND
    var failures: nat
    var openedAt: Option<Time>
    // Each call's outcome, true for a success.
    ghost var history: seq<bool>

    // An open breaker has seen at least `threshold` failures in a row.
    ghost predicate Valid()
      reads this
    {
      && failures <= |history|
      && (forall i :: |history| - failures <= i < |history| ==> !history[i])
      && (failures < |history| ==> history[|history| - failures - 1])
      && (openedAt.Some? ==> failures >= threshold)
    }

    constructor ()
      ensures Valid() && history == []
    {
      failures, openedAt, history := 0, None, [];
    }

    predicate IsOpen(now: Time)
      reads this
    {
      openedAt.Some? && now - openedAt.value < cooldown
    }

    method RecordSuccess()
      requires Valid()
      modifies this
      ensures Valid() && history == old(history) + [true] && openedAt.None?
    {
      failures, openedAt, history := 0, None, history + [true];
    }

    method RecordFailure(now: Time)
      requires Valid()
      modifies this
      ensures Valid() && history == old(history) + [false]
      ensures openedAt == if failures >= 3 then Some(now) else old(openedAt)
    {
      failures, history := failures + 1, history + [false];
      if failures >= threshold {
        openedAt := Some(now);
      }
    }
  }

  function Times(n: nat, model: Model): seq<Model> {
    seq(n, _ => model)
  }

  // The posts of one prompt: each model in order, as often as it was tried.
  function PostsOf(models: seq<Model>, tries: seq<nat>): seq<Model>
    requires |tries| <= |models|
  {
    if tries == [] then []
    else PostsOf(models, tries[..|tries| - 1]) + Times(tries[|tries| - 1], models[|tries| - 1])
  }

  lemma OneMoreTurn(before: seq<Model>, models: seq<Model>, tries: seq<nat>, n: nat)
    requires |tries| < |models|
    ensures before + PostsOf(models, tries + [n]) == before + PostsOf(models, tries) + Times(n, models[|tries|])
  {
    assert (tries + [n])[..|tries|] == tries;
    Associates(before, PostsOf(models, tries), Times(n, models[|tries|]));
  }

  function Delay(jitter: nat, retryAfter: Option<nat>): nat {
    if retryAfter.Some? then retryAfter.value * SECOND else if jitter > BACKOFF_CAP then BACKOFF_CAP else jitter
  }

  function RetryAfter(reply: Reply): Option<nat> {
    if reply.Retryable? then reply.retryAfter else None
  }

  // What the client hears of an attempt that is cut off at its timeout, whatever the phase it was in.
  function Heard(attempt: Attempt, timeout: Time): Reply {
    if attempt.took > timeout then TransportError else attempt.reply
  }

  // Between two tries: the seconds the reply asks for, if it does, and ten at most; else the backoff drawn.
  predicate HasRested(reply: Reply, jitter: nat, sent: Time, now: Time) {
    if reply.Retryable? && reply.retryAfter.Some? then
      reply.retryAfter.value <= 10 && sent + reply.retryAfter.value * 1_000_000 <= now
    else
      sent + (if jitter > 10_000_000 then 10_000_000 else jitter) <= now
  }

  // Every post from a place on but the first came when the wait after the one before it was over.
  ghost predicate AllRested(network: nat -> Attempt, heard: seq<Reply>, sentAt: seq<Time>, from: nat) {
    && |heard| == |sentAt|
    && forall k {:trigger heard[k]} :: from <= k < |heard| - 1 ==>
         HasRested(heard[k], network(k).jitter, sentAt[k], sentAt[k + 1])
  }

  lemma OneMoreRested(network: nat -> Attempt, heard: seq<Reply>, sentAt: seq<Time>, from: nat, now: Time)
    requires AllRested(network, heard, sentAt, from) && from <= |heard|
    requires from < |heard| ==>
               HasRested(heard[|heard| - 1], network(|heard| - 1).jitter, sentAt[|sentAt| - 1], now)
    ensures forall reply :: AllRested(network, heard + [reply], sentAt + [now], from)
  {
  }

  // The same model is worth another try.
  predicate IsTransient(reply: Reply) {
    reply.Retryable? || reply.TransportError?
  }

  // The models after this one are not asked.
  predicate IsFinal(reply: Reply) {
    !IsTransient(reply) && !reply.Refused?
  }

  // What a model's last reply makes of the call to it.
  predicate EndsCall(last: Reply, r: Result<Body>) {
    match last
    case Answered(body) => r == Done(body)
    case NotJson => r == Raised
    case Interrupted => r == Raised
    case RejectedInput => r == Error(Rejected, true)
    case Refused => r == Error(Unavailable, true)
    case _ => r == Error(Unavailable, true) || r == Error(DeadlineExceeded, true)
  }

  // A reply that is not worth a retry.
  function Heeded(reply: Reply): (r: Result<Body>)
    requires !IsTransient(reply)
    ensures EndsCall(reply, r)
  {
    match reply
    case Answered(body) => Done(body)
    case RejectedInput => Error(Rejected, true)
    case Refused => Error(Unavailable, true)
    case _ => Raised
  }

  // A try either leaves it to the next one, or ends the call; a reply worth a retry ends it as unavailable.
  predicate IsTry(last: Reply, r: Option<Result<Body>>) {
    if r.None? then IsTransient(last)
    else EndsCall(last, r.value) && r.value != Error(DeadlineExceeded, true)
  }

  // An error from reading a reply does not say that the prompt was posted.
  function ResultOf(reading: Reading): Result<string> {
    match reading
    case Whole(text) => Done(text)
    case Failed(problem) => Error(Unreadable(problem), false)
    case Misread => Raised
  }

  // What the last reply of all makes of the prompt.
  predicate EndsPrompt(last: Reply, parser: Option<Parser>, r: Result<string>) {
    match last
    case Answered(body) =>
      (match ParseReply(body, parser)
       case Whole(text) => r == Done(text)
       case Failed(problem) => r == Error(Unreadable(problem), false)
       case Misread => r == Raised)
    case NotJson => r == Raised
    case Interrupted => r == Raised
    case RejectedInput => r == Error(Rejected, true)
    case _ => r == Error(Unavailable, true) || r == Error(DeadlineExceeded, true)
  }

  // What the last reply of all makes of the models' turns.
  predicate EndsTurns(last: Reply, r: Result<Body>) {
    EndsCall(last, r) || (!IsFinal(last) && r == Error(DeadlineExceeded, true))
  }

  function Read(r: Result<Body>, parser: Option<Parser>): Result<string> {
    match r
    case Done(body) => ResultOf(ParseReply(body, parser))
    case Error(code, isPosted) => Error(code, isPosted)
    case Raised => Raised
  }

  class GeminiClient {
    const network: nat -> Attempt
    const deadline: Option<Time>
    var now: Time
    // Every post, by the model it went to, and what was heard of it.
    var posts: seq<Model>
    ghost var heard: seq<Reply>
    ghost var sentAt: seq<Time>

    ghost predicate Valid()
      reads this
    {
      && |heard| == |posts| == |sentAt|
      && forall k {:trigger network(k)} :: 0 <= k < |heard| ==>
           heard[k] == Heard(network(k), ATTEMPT_TIMEOUT) || (deadline.Some? && heard[k] == TransportError)
    }

    constructor (network: nat -> Attempt, deadline: Option<Time>, now: Time)
      ensures Valid() && posts == []
      ensures this.network == network && this.deadline == deadline && this.now == now
    {
      this.network, this.deadline, this.now := network, deadline, now;
      posts, heard, sentAt := [], [], [];
    }

    // Time passes, and a call that starts before the deadline is over by then.
    predicate IsInTime(start: Time, end: Time) {
      start <= end && (deadline.Some? && start <= deadline.value ==> end <= deadline.value)
    }

    predicate IsSpent()
      reads this
    {
      deadline.Some? && deadline.value - now <= 0
    }

    // The shorter of one attempt's timeout and what is left of the draft's.
    function AttemptTimeout(): Time
      reads this
    {
      if deadline.Some? && deadline.value - now < ATTEMPT_TIMEOUT then deadline.value - now else ATTEMPT_TIMEOUT
    }

    // Half a minute at most, and never past the deadline: what takes longer is heard as a transport error.
    method Post(model: Model) returns (reply: Reply)
      requires Valid() && !IsSpent()
      modifies this
      ensures Valid() && posts == old(posts) + [model] && heard == old(heard) + [reply]
      ensures sentAt == old(sentAt) + [old(now)]
      ensures reply == Heard(network(old(|posts|)), old(AttemptTimeout()))
      ensures var took := network(old(|posts|)).took;
              if took <= 30_000_000 && (deadline.Some? ==> old(now) + took <= deadline.value)
              then reply == network(old(|posts|)).reply && now == old(now) + took
              else reply == TransportError && now - old(now) <= 30_000_000
      ensures old(now) <= now && (deadline.Some? ==> now <= deadline.value)
    {
      var attempt := network(|posts|);
      var timeout := AttemptTimeout();
      reply := Heard(attempt, timeout);
      now := now + if attempt.took > timeout then timeout else attempt.took;
      posts, heard, sentAt := posts + [model], heard + [reply], sentAt + [old(now)];
    }

    // A wait for another try is worth its while up to the cap, and only inside the budget.
    predicate IsWorthWaiting(jitter: nat, retryAfter: Option<nat>)
      reads this
    {
      var delay := Delay(jitter, retryAfter);
      delay <= BACKOFF_CAP && (deadline.Some? ==> delay < deadline.value - now)
    }

    // False leaves the model at once, for the one after it.
    method WaitBeforeRetry(jitter: nat, retryAfter: Option<nat>) returns (isWorthIt: bool)
      modifies this`now
      ensures isWorthIt == old(IsWorthWaiting(jitter, retryAfter))
      ensures now == old(now) + if isWorthIt then Delay(jitter, retryAfter) else 0
      ensures var wait := if retryAfter.Some? then retryAfter.value * 1_000_000
                          else if jitter > 10_000_000 then 10_000_000 else jitter;
              && (isWorthIt <==> wait <= 10_000_000 && (deadline.Some? ==> old(now) + wait < deadline.value))
              && (isWorthIt ==> now == old(now) + wait)
      ensures now - old(now) <= BACKOFF_CAP
      ensures isWorthIt && deadline.Some? ==> now < deadline.value
    {
      isWorthIt := IsWorthWaiting(jitter, retryAfter);
      if isWorthIt {
        now := now + Delay(jitter, retryAfter);
      }
    }

    ghost predicate IsRested()
      reads this
    {
      && heard != [] && |heard| == |sentAt|
      && HasRested(heard[|heard| - 1], network(|heard| - 1).jitter, sentAt[|sentAt| - 1], now)
    }

    /**
     One try: nothing when the deadline is spent; else one post, and unless it decides, a wait before the next try if
     there is one. None leaves it to the next try.
     */
    method TryOnce(model: Model, attempt: nat) returns (r: Option<Result<Body>>)
      requires Valid() && attempt < ATTEMPTS_PER_MODEL
      modifies this
      ensures Valid() && IsInTime(old(now), now)
      ensures old(IsSpent()) ==>
        && r == Some(Error(DeadlineExceeded, attempt > 0)) && IsSpent()
        && posts == old(posts) && heard == old(heard) && sentAt == old(sentAt)
      ensures !old(IsSpent()) ==>
        && posts == old(posts) + [model] && heard != [] && heard == old(heard) + [heard[|heard| - 1]]
        && sentAt == old(sentAt) + [old(now)]
        && IsTry(heard[|heard| - 1], r)
      ensures r.None? && attempt + 1 < ATTEMPTS_PER_MODEL ==> IsRested()
      ensures !old(IsSpent()) && r.Some? && IsTransient(heard[|heard| - 1]) ==>
        attempt + 1 < ATTEMPTS_PER_MODEL
        && !IsWorthWaiting(network(|posts| - 1).jitter, RetryAfter(heard[|heard| - 1]))
    {
      if IsSpent() {
        return Some(Error(DeadlineExceeded, attempt > 0));
      }
      var drawn := network(|posts|).jitter;
      var reply := Post(model);
      if !IsTransient(reply) {
        return Some(Heeded(reply));
      }
      if attempt + 1 < ATTEMPTS_PER_MODEL {
        var isWorthIt := WaitBeforeRetry(drawn, RetryAfter(reply));
        if !isWorthIt {
          return Some(Error(Unavailable, true));
        }
      }
      return None;
    }

    // What holds after n posts to one model, each of them passed over.
    twostate predicate HasTried(model: Model, n: nat)
      reads this
    {
      && Valid() && posts == old(posts) + Times(n, model) && old(heard) <= heard
      && (forall k :: old(|heard|) <= k < |heard| ==> IsTransient(heard[k]))
      && AllRested(network, heard, sentAt, old(|heard|))
      && IsInTime(old(now), now)
      && (n == 0 ==> now == old(now)) && (n > 0 ==> !old(IsSpent()))
    }

    /**
     One model, retried. It is posted to at most ATTEMPTS_PER_MODEL times and never past the deadline, every reply
     but the last was worth a retry and waited for, and the last decides. Short of all its tries a model is given up
     on only when the deadline is spent or waiting is not worth it. An error says truly whether it was posted to.
     */
    method CallModel(model: Model) returns (r: Result<Body>, ghost n: nat)
      requires Valid()
      modifies this
      ensures Valid() && n <= ATTEMPTS_PER_MODEL && posts == old(posts) + Times(n, model) && old(heard) <= heard
      ensures forall k :: old(|heard|) <= k < |heard| - 1 ==> heard[k].Retryable? || heard[k].TransportError?
      ensures AllRested(network, heard, sentAt, old(|heard|))
      ensures n == 0 <==> old(IsSpent())
      ensures n == 0 ==> r == Error(DeadlineExceeded, false)
      ensures n > 0 ==> EndsCall(heard[|heard| - 1], r)
      ensures r.Error? && r.code.DeadlineExceeded? ==> IsSpent()
      ensures r.Error? && r.code.Unavailable? && 0 < n < ATTEMPTS_PER_MODEL && IsTransient(heard[|heard| - 1])
              ==> !IsWorthWaiting(network(|posts| - 1).jitter, RetryAfter(heard[|heard| - 1]))
      ensures IsInTime(old(now), now)
    {
      n := 0;
      for attempt := 0 to ATTEMPTS_PER_MODEL
        invariant n == attempt && HasTried(model, n)
        invariant n == 0 || n == ATTEMPTS_PER_MODEL || IsRested()
      {
        OneMoreRested(network, heard, sentAt, old(|heard|), now);
        ghost var isSpent := IsSpent();
        var tried := TryOnce(model, attempt);
        if !isSpent {
          n := n + 1;
          assert Times(n, model) == Times(attempt, model) + [model];
        }
        if tried.Some? {
          return tried.value, n;
        }
      }
      return Error(Unavailable, true), n;
    }

    /**
     One model's turn. It is skipped exactly when its breaker is open and another model comes after it; skipping the
     last would leave nothing to answer. Otherwise it is called, and its breaker is told once: a body is a success,
     running out of tries a failure. The deadline, the input's fault and any other exception tell it nothing.
     */
    method TakeTurn(model: Model, breaker: CircuitBreaker, isLast: bool) returns (r: Result<Body>, ghost n: nat)
      requires Valid() && breaker.Valid()
      modifies this, breaker
      ensures Valid() && posts == old(posts) + Times(n, model)
      ensures IsTurn(old(heard), heard, n, IsOpenSince(old(breaker.openedAt), old(now)) && !isLast, r)
      ensures n == 0 ==> old(IsSpent()) || (IsOpenSince(old(breaker.openedAt), old(now)) && !isLast)
      ensures breaker.Valid()
      ensures IsTold(old(breaker.history), old(breaker.openedAt), breaker.history, breaker.openedAt, n, r)
      ensures r.Error? && r.code.DeadlineExceeded? ==> IsSpent()
      ensures IsInTime(old(now), now)
    {
      if breaker.IsOpen(now) && !isLast {
        return Error(Unavailable, false), 0;
      }
      r, n := CallModel(model);
      if r.Done? {
        breaker.RecordSuccess();
      } else if r.Error? && r.code.Unavailable? {
        breaker.RecordFailure(now);
      }
    }

    // The turn at a place in the order; posted to one of the models before counts as posted.
    method NoteTurn(models: seq<Model>, position: nat, breakers: seq<CircuitBreaker>, isPosted: bool,
                    ghost openedAts: seq<Option<Time>>, ghost tries: seq<nat>, ghost start: Time, ghost wasSpent: bool,
                    ghost before: seq<Reply>)
      returns (turn: Result<Body>, ghost n: nat)
      requires Valid() && |tries| == position < |models| == |breakers|
      requires AreDistinct(breakers) && AreAsFound(breakers, openedAts, position)
      requires start <= now && (position == 0 ==> IsSpent() == wasSpent)
      requires IsOnWay(models, openedAts, tries, start, before, heard, isPosted)
      modifies this, breakers[position]
      ensures Valid() && AreAsFound(breakers, openedAts, position + 1)
      ensures posts == old(posts) + Times(n, models[position])
      ensures if turn.Error? && turn.code.Unavailable?
              then IsOnWay(models, openedAts, tries + [n], start, before, heard, turn.isPosted)
              else IsRound(models, openedAts, tries + [n], start, wasSpent, before, heard, turn)
      ensures turn.Error? && turn.code.DeadlineExceeded? ==> IsSpent()
      ensures IsInTime(old(now), now)
    {
      ghost var isSkipped := IsOpenSince(openedAts[position], now) && position < |models| - 1;
      turn, n := TakeTurn(models[position], breakers[position], position == |models| - 1);
      NextTurn(models, openedAts, tries, start, old(now), wasSpent, old(IsSpent()), n, isSkipped, before, old(heard),
               heard, turn, isPosted);
      turn := turn.Noting(isPosted);
    }

    /**
     The primary, then the fallback: each model in turn is posted to at most ATTEMPTS_PER_MODEL times, none past the
     deadline, and giving up as unavailable means the last one was tried. The last reply decides, and every reply
     before it left something to try. An error says truly whether any model was posted to.
     */
    method AskInOrder(models: seq<Model>, breakers: seq<CircuitBreaker>)
      returns (r: Result<Body>, ghost tries: seq<nat>)
      requires Valid() && models != [] && |breakers| == |models| && AreDistinct(breakers)
      requires forall i :: 0 <= i < |breakers| ==> breakers[i].Valid()
      modifies this, breakers
      ensures Valid() && (forall i :: 0 <= i < |breakers| ==> breakers[i].Valid())
      ensures |tries| <= |models| && posts == old(posts) + PostsOf(models, tries)
      ensures IsRound(models, old(OpenedAts(breakers)), tries, old(now), old(IsSpent()), old(heard), heard, r)
      ensures r.Error? && r.code.DeadlineExceeded? ==> IsSpent()
      ensures IsInTime(old(now), now)
    {
      var isPosted := false;
      ghost var openedAts := OpenedAts(breakers);
      tries := [];
      for position := 0 to |models|
        invariant Valid() && AreAsFound(breakers, openedAts, position)
        invariant IsOnWay(models, openedAts, tries, old(now), old(heard), heard, isPosted)
        invariant position == 0 ==> now == old(now)
        invariant |tries| == position && posts == old(posts) + PostsOf(models, tries)
        invariant IsInTime(old(now), now)
      {
        var turn, n := NoteTurn(models, position, breakers, isPosted, openedAts, tries, old(now), old(IsSpent()),
                                old(heard));
        OneMoreTurn(old(posts), models, tries, n);
        tries := tries + [n];
        if !turn.Error? || !turn.code.Unavailable? {
          return turn, tries;
        }
        isPosted := turn.isPosted;
      }
      return Error(Unavailable, isPosted), tries;
    }

    // The answer of the first model that gave one, read; an error from reading it does not say it was posted.
    method Generate(models: seq<Model>, breakers: seq<CircuitBreaker>, parser: Option<Parser>)
      returns (r: Result<string>, ghost tries: seq<nat>)
      requires Valid() && models != [] && |breakers| == |models| && AreDistinct(breakers)
      requires forall i :: 0 <= i < |breakers| ==> breakers[i].Valid()
      modifies this, breakers
      ensures Valid() && (forall i :: 0 <= i < |breakers| ==> breakers[i].Valid())
      ensures |tries| <= |models| && posts == old(posts) + PostsOf(models, tries)
      ensures IsPrompt(models, tries, old(heard), heard, parser, r)
      ensures AreAsked(old(OpenedAts(breakers)), tries, old(now), old(IsSpent()), |models|)
      ensures r.Error? && r.code.DeadlineExceeded? ==> IsSpent()
      ensures IsInTime(old(now), now)
    {
      var body;
      body, tries := AskInOrder(models, breakers);
      r := Read(body, parser);
      ReadingEndsPrompt(models, tries, old(heard), heard, body, parser);
    }
  }

  // ---------- Whom a prompt is put to ----------

  predicate AreDistinct<T(==)>(items: seq<T>) {
    forall i, j :: 0 <= i < j < |items| ==> items[i] != items[j]
  }

  predicate IsOpenSince(openedAt: Option<Time>, now: Time) {
    openedAt.Some? && now < openedAt.value + 60 * SECOND
  }

  ghost function OpenedAts(breakers: seq<CircuitBreaker>): (openedAts: seq<Option<Time>>)
    reads breakers
    ensures |openedAts| == |breakers| && forall i :: 0 <= i < |breakers| ==> openedAts[i] == breakers[i].openedAt
  {
    if breakers == [] then [] else OpenedAts(breakers[..|breakers| - 1]) + [breakers[|breakers| - 1].openedAt]
  }

  // Each is sound, and from a place on as it was at first.
  ghost predicate AreAsFound(breakers: seq<CircuitBreaker>, openedAts: seq<Option<Time>>, from: nat)
    reads breakers
  {
    && |openedAts| == |breakers|
    && forall i {:trigger breakers[i]} :: 0 <= i < |breakers| ==>
         breakers[i].Valid() && (from <= i ==> breakers[i].openedAt == openedAts[i])
  }

  // A model not posted to was passed over, its breaker open and another model behind it.
  predicate HaveAsked(openedAts: seq<Option<Time>>, tries: seq<nat>, start: Time, size: nat) {
    && |tries| <= size == |openedAts|
    && forall i {:trigger tries[i]} :: 0 <= i < |tries| && tries[i] == 0 ==>
         i < size - 1 && IsOpenSince(openedAts[i], start)
  }

  // The same of a whole prompt, unless the last turn found the deadline spent; at the first turn it was so from the
  // start.
  predicate AreAsked(openedAts: seq<Option<Time>>, tries: seq<nat>, start: Time, isSpent: bool, size: nat) {
    && 0 < |tries| <= size == |openedAts|
    && forall i {:trigger tries[i]} :: 0 <= i < |tries| && tries[i] == 0 ==>
         (i < size - 1 && IsOpenSince(openedAts[i], start)) || (i == |tries| - 1 && (i == 0 ==> isSpent))
  }

  lemma AskedOne(openedAts: seq<Option<Time>>, tries: seq<nat>, start: Time, now: Time, wasSpent: bool, isSpent: bool,
                 n: nat, isSkipped: bool, size: nat)
    requires HaveAsked(openedAts, tries, start, size) && |tries| < size && start <= now
    requires isSkipped ==> |tries| < size - 1 && IsOpenSince(openedAts[|tries|], now)
    requires (n == 0 ==> isSkipped || isSpent) && (tries == [] ==> isSpent == wasSpent)
    ensures AreAsked(openedAts, tries + [n], start, wasSpent, size)
    ensures n > 0 || isSkipped ==> HaveAsked(openedAts, tries + [n], start, size)
  {
  }

  // With time left and its breaker closed, the first model is posted to, and first.
  lemma FirstIsAsked(openedAts: seq<Option<Time>>, models: seq<Model>, tries: seq<nat>, start: Time)
    requires AreAsked(openedAts, tries, start, false, |models|) && !IsOpenSince(openedAts[0], start)
    ensures tries[0] > 0 && PostsOf(models, tries) != [] && PostsOf(models, tries)[0] == models[0]
  {
    FirstPost(models, tries);
  }

  lemma {:induction false} FirstPost(models: seq<Model>, tries: seq<nat>)
    requires 0 < |tries| <= |models| && tries[0] > 0
    ensures PostsOf(models, tries) != [] && PostsOf(models, tries)[0] == models[0]
    decreases |tries|
  {
    if |tries| > 1 {
      FirstPost(models, tries[..|tries| - 1]);
    } else {
      assert tries[..0] == [];
    }
  }

  // ---------- One model after the other ----------

  // What a breaker makes of a turn with n posts.
  predicate IsTold(was: seq<bool>, wasOpenedAt: Option<Time>, history: seq<bool>, openedAt: Option<Time>, n: nat,
                   r: Result<Body>)
  {
    if r.Done? then history == was + [true] && openedAt.None?
    else if n > 0 && r.Error? && r.code.Unavailable? then history == was + [false]
    else history == was && openedAt == wasOpenedAt
  }

  // n posts to one model: every reply but the last was worth a retry, and the last decides the turn.
  predicate IsTurn(before: seq<Reply>, heard: seq<Reply>, n: nat, isSkipped: bool, r: Result<Body>) {
    && n <= ATTEMPTS_PER_MODEL && |heard| == |before| + n && before <= heard
    && (forall k :: |before| <= k < |heard| - 1 ==> IsTransient(heard[k]))
    && (if isSkipped then n == 0 && r == Error(Unavailable, false)
        else if n == 0 then r == Error(DeadlineExceeded, false)
        else EndsCall(heard[|heard| - 1], r))
  }

  // At most so many tries a model; every reply but the last leaves something to try, and the last decides. Giving
  // up as unavailable means the last model was tried.
  ghost predicate AreTurns(models: seq<Model>, tries: seq<nat>, before: seq<Reply>, heard: seq<Reply>,
                           r: Result<Body>)
  {
    && before <= heard && (forall i :: 0 <= i < |tries| ==> tries[i] <= ATTEMPTS_PER_MODEL)
    && (forall k :: |before| <= k < |heard| - 1 ==> !IsFinal(heard[k]))
    && (if heard == before then r == Error(DeadlineExceeded, false) else EndsTurns(heard[|heard| - 1], r))
    && (r.Error? && r.code.Unavailable? ==> |tries| == |models| && tries != [] && tries[|tries| - 1] > 0)
  }

  // The same of a whole prompt.
  ghost predicate IsPrompt(models: seq<Model>, tries: seq<nat>, before: seq<Reply>, heard: seq<Reply>,
                           parser: Option<Parser>, r: Result<string>)
  {
    && before <= heard && (forall i :: 0 <= i < |tries| ==> tries[i] <= ATTEMPTS_PER_MODEL)
    && (forall k :: |before| <= k < |heard| - 1 ==> !IsFinal(heard[k]))
    && (if heard == before then r == Error(DeadlineExceeded, false) else EndsPrompt(heard[|heard| - 1], parser, r))
    && (r.Error? && r.code.Unavailable? ==> |tries| == |models| && tries != [] && tries[|tries| - 1] > 0)
  }

  // The first models were tried or passed over, and something is left to try unless these were all.
  ghost predicate HavePassed(models: seq<Model>, tries: seq<nat>, before: seq<Reply>, heard: seq<Reply>,
                             isPosted: bool)
  {
    && before <= heard && (isPosted <==> heard != before)
    && (forall i :: 0 <= i < |tries| ==> tries[i] <= ATTEMPTS_PER_MODEL)
    && (forall k :: |before| <= k < |heard| ==> !IsFinal(heard[k]))
    && (tries != [] && |tries| == |models| ==> tries[|tries| - 1] > 0 && heard != before)
  }

  lemma TurnTaken(models: seq<Model>, tries: seq<nat>, n: nat, isSkipped: bool, before: seq<Reply>, mid: seq<Reply>,
                  heard: seq<Reply>, turn: Result<Body>, isPosted: bool)
    requires HavePassed(models, tries, before, mid, isPosted) && IsTurn(mid, heard, n, isSkipped, turn)
    requires |tries| < |models| && (|tries| == |models| - 1 ==> !isSkipped)
    ensures if turn.Error? && turn.code.Unavailable?
            then HavePassed(models, tries + [n], before, heard, turn.Noting(isPosted).isPosted)
            else AreTurns(models, tries + [n], before, heard, turn.Noting(isPosted))
  {
    assert forall k :: 0 <= k < |mid| ==> heard[k] == mid[k];
  }

  // Where the loop stands after some turns, and where it ends.
  ghost predicate IsOnWay(models: seq<Model>, openedAts: seq<Option<Time>>, tries: seq<nat>, start: Time,
                          before: seq<Reply>, heard: seq<Reply>, isPosted: bool)
  {
    HavePassed(models, tries, before, heard, isPosted) && HaveAsked(openedAts, tries, start, |models|)
  }

  ghost predicate IsRound(models: seq<Model>, openedAts: seq<Option<Time>>, tries: seq<nat>, start: Time, isSpent: bool,
                          before: seq<Reply>, heard: seq<Reply>, r: Result<Body>)
  {
    AreTurns(models, tries, before, heard, r) && AreAsked(openedAts, tries, start, isSpent, |models|)
  }

  lemma NextTurn(models: seq<Model>, openedAts: seq<Option<Time>>, tries: seq<nat>, start: Time, now: Time,
                 wasSpent: bool, isSpent: bool, n: nat, isSkipped: bool, before: seq<Reply>, mid: seq<Reply>,
                 heard: seq<Reply>, turn: Result<Body>, isPosted: bool)
    requires IsOnWay(models, openedAts, tries, start, before, mid, isPosted) && IsTurn(mid, heard, n, isSkipped, turn)
    requires |tries| < |models| && start <= now && (tries == [] ==> isSpent == wasSpent)
    requires isSkipped <==> |tries| < |models| - 1 && IsOpenSince(openedAts[|tries|], now)
    requires n == 0 ==> isSkipped || isSpent
    ensures if turn.Error? && turn.code.Unavailable?
            then IsOnWay(models, openedAts, tries + [n], start, before, heard, turn.Noting(isPosted).isPosted)
            else IsRound(models, openedAts, tries + [n], start, wasSpent, before, heard, turn.Noting(isPosted))
  {
    TurnTaken(models, tries, n, isSkipped, before, mid, heard, turn, isPosted);
    AskedOne(openedAts, tries, start, now, wasSpent, isSpent, n, isSkipped, |models|);
  }

  lemma ReadingEndsPrompt(models: seq<Model>, tries: seq<nat>, before: seq<Reply>, heard: seq<Reply>,
                          r: Result<Body>, parser: Option<Parser>)
    requires AreTurns(models, tries, before, heard, r)
    ensures IsPrompt(models, tries, before, heard, parser, Read(r, parser))
  {
  }

  // ---------- The record ----------

  // A model error that does not say it was posted leaves no record when time ran out, or when its text reads as if
  // nothing was set up. The errors that came of a refusal always say so.
  predicate ShouldRecordEgress<T>(r: Result<T>) {
    match r
    case Error(DeadlineExceeded, isPosted) => isPosted
    case Error(Unreadable(problem), isPosted) => isPosted || !SaysNotConfigured(problem)
    case _ => true
  }

  // A reply after which the prompt, though posted, is left off the record.
  predicate IsLost(reply: Reply, parser: Option<Parser>) {
    && reply.Answered?
    && var reading := ParseReply(reply.body, parser);
       reading.Failed? && SaysNotConfigured(reading.problem)
  }

  ghost predicate NeverSaysNotConfigured(parser: Parser) {
    forall text :: parser(text).Some? ==> !Holds(parser(text).value, NOT_CONFIGURED)
  }

  lemma OtherFinishesLackAnF(finish: string)
    requires finish == "STOP" || finish == "MAX_TOKENS"
    ensures !Holds(finish, NOT_CONFIGURED)
  {
    NeedsAnF(finish);
  }

  // Such a reply is one whose finish reason holds the words, as no parser's message does.
  lemma IsLostExactly(reply: Reply, parser: Option<Parser>)
    requires parser.Some? ==> NeverSaysNotConfigured(parser.value)
    ensures IsLost(reply, parser)
            <==> reply.Answered? && reply.body.Candidate? && Holds(reply.body.finish, NOT_CONFIGURED)
  {
    if reply.Answered? {
      UnlessStopped(reply.body, parser);
      if reply.body.Candidate? && (reply.body.finish == "STOP" || reply.body.finish == "MAX_TOKENS") {
        OtherFinishesLackAnF(reply.body.finish);
      }
    }
  }

  lemma UnlessStopped(body: Body, parser: Option<Parser>)
    requires parser.Some? ==> NeverSaysNotConfigured(parser.value)
    ensures var reading := ParseReply(body, parser);
            reading.Failed? && SaysNotConfigured(reading.problem)
            <==> body.Candidate? && reading == Failed(Stopped(body.finish)) && Holds(body.finish, NOT_CONFIGURED)
  {
    var reading := ParseReply(body, parser);
    if reading.Failed? {
      SaysNotConfiguredExactly(reading.problem);
    }
  }

  // Every call on this network, whatever came before it, hears no such reply.
  ghost predicate NeverLoses(network: nat -> Attempt, parser: Option<Parser>) {
    forall k: nat {:trigger IsLost(Heard(network(k), ATTEMPT_TIMEOUT), parser)} ::
      !IsLost(Heard(network(k), ATTEMPT_TIMEOUT), parser)
  }

  // What is on record after a prompt that was posted or not, `heard` ending with the last reply to it.
  predicate IsOnRecord(isPosted: bool, heard: seq<Reply>, parser: Option<Parser>, prompt: string, was: seq<string>,
                       egress: seq<string>)
  {
    egress == was + if isPosted && heard != [] && !IsLost(heard[|heard| - 1], parser) then [prompt] else []
  }

  lemma RecordedExactly(network: nat -> Attempt, models: seq<Model>, tries: seq<nat>, before: seq<Reply>,
                        heard: seq<Reply>, parser: Option<Parser>, r: Result<string>, prompt: string,
                        was: seq<string>)
    requires IsPrompt(models, tries, before, heard, parser, r)
    requires heard != [] ==>
               heard[|heard| - 1] in {TransportError, Heard(network(|heard| - 1), ATTEMPT_TIMEOUT)}
    ensures var egress, isPosted := was + if ShouldRecordEgress(r) then [prompt] else [], |heard| > |before|;
            && IsOnRecord(isPosted, heard, parser, prompt, was, egress)
            && (NeverLoses(network, parser) ==> egress == was + if isPosted then [prompt] else [])
  {
  }

  // Without a deadline every call posts; and one that comes to such a reply ends there.
  lemma LostAtLast(network: nat -> Attempt, k: nat, models: seq<Model>, tries: seq<nat>, before: seq<Reply>,
                   heard: seq<Reply>, parser: Option<Parser>, r: Result<string>)
    requires IsPrompt(models, tries, before, heard, parser, r) && |before| <= k
    requires IsLost(Heard(network(k), ATTEMPT_TIMEOUT), parser)
    requires k < |heard| ==> heard[k] == Heard(network(k), ATTEMPT_TIMEOUT)
    ensures k < |heard| ==> |heard| == k + 1 && r.Error? && IsLost(heard[k], parser)
    ensures r != Error(DeadlineExceeded, false) ==> |heard| > |before|
  {
  }

  // In time, Gemini never gives a finish reason with those words in it.
  lemma NeverLosesExactly(network: nat -> Attempt, parser: Option<Parser>)
    requires parser.Some? ==> NeverSaysNotConfigured(parser.value)
    ensures NeverLoses(network, parser) <==> forall k: nat ::
              network(k).took <= ATTEMPT_TIMEOUT && network(k).reply.Answered? && network(k).reply.body.Candidate?
              ==> !Holds(network(k).reply.body.finish, NOT_CONFIGURED)
  {
    forall k: nat ensures IsLost(Heard(network(k), ATTEMPT_TIMEOUT), parser) <==>
              network(k).took <= ATTEMPT_TIMEOUT && network(k).reply.Answered? && network(k).reply.body.Candidate?
              && Holds(network(k).reply.body.finish, NOT_CONFIGURED)
    {
      IsLostExactly(Heard(network(k), ATTEMPT_TIMEOUT), parser);
    }
  }

  class Gateway {
    const client: GeminiClient
    var egress: seq<string>

    constructor (client: GeminiClient)
      ensures this.client == client && egress == []
    {
      this.client, this.egress := client, [];
    }

    /**
     The prompt is recorded once or not at all. It is recorded exactly when it was posted and the last reply was not
     one that loses it; so on a network that never gives such a reply, exactly when it was posted. On every other
     network some call goes unrecorded: see LostCall.
     */
    method Generate(prompt: string, models: seq<Model>, breakers: seq<CircuitBreaker>, parser: Option<Parser>)
      returns (r: Result<string>, ghost tries: seq<nat>)
      requires client.Valid() && models != [] && |breakers| == |models| && AreDistinct(breakers)
      requires forall i :: 0 <= i < |breakers| ==> breakers[i].Valid()
      modifies this, client, breakers
      ensures client.Valid() && (forall i :: 0 <= i < |breakers| ==> breakers[i].Valid())
      ensures |tries| <= |models| && client.posts == old(client.posts) + PostsOf(models, tries)
      ensures IsPrompt(models, tries, old(client.heard), client.heard, parser, r)
      ensures r.Error? && r.code.DeadlineExceeded? ==> client.IsSpent()
      ensures client.IsInTime(old(client.now), client.now)
      ensures IsOnRecord(|client.posts| > |old(client.posts)|, client.heard, parser, prompt, old(egress), egress)
      ensures NeverLoses(client.network, parser) ==>
                egress == old(egress) + if |client.posts| > |old(client.posts)| then [prompt] else []
    {
      r, tries := client.Generate(models, breakers, parser);
      ghost var last := |client.heard| - 1;
      if last >= 0 {
        assert client.heard[last] in {TransportError, Heard(client.network(last), ATTEMPT_TIMEOUT)};
      }
      RecordedExactly(client.network, models, tries, old(client.heard), client.heard, parser, r, prompt, egress);
      if ShouldRecordEgress(r) {
        egress := egress + [prompt];
      }
    }
  }

  /**
   On any network with a reply that loses a prompt, calls one after the other come to that reply: the last of them
   posted its prompt and left no record of it.
   */
  method LostCall(network: nat -> Attempt, k: nat, parser: Option<Parser>, prompt: string, model: Model)
    returns (gateway: Gateway, r: Result<string>, ghost before: seq<string>, ghost posted: nat)
    requires IsLost(Heard(network(k), ATTEMPT_TIMEOUT), parser)
    ensures fresh(gateway) && fresh(gateway.client) && gateway.client.network == network && r.Error?
    ensures posted <= k && |gateway.client.posts| == k + 1 && gateway.egress == before
  {
    var client := new GeminiClient(network, None, 0);
    gateway := new Gateway(client);
    var breaker := new CircuitBreaker();
    posted, before, r := 0, [], Raised;
    while |client.posts| <= k
      invariant client.Valid() && breaker.Valid() && client.deadline.None?
      invariant fresh(gateway) && fresh(client) && fresh(breaker) && gateway.client == client
      invariant |client.posts| > k ==>
                  r.Error? && posted <= k && |client.posts| == k + 1 && gateway.egress == before
      decreases k - |client.posts|
    {
      posted, before := |client.posts|, gateway.egress;
      ghost var heard := client.heard;
      ghost var tries;
      r, tries := gateway.Generate(prompt, [model], [breaker], parser);
      assert !client.IsSpent();
      LostAtLast(client.network, k, [model], tries, heard, client.heard, parser, r);
    }
  }
}
