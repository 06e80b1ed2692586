/**
 * The retries of a teardown step: the pauses between the attempts, what a step asks the runtime for, and which failures
 * are tried again.
 */
module TeardownRetries {
  import opened Tables
  import opened Runtime

  const ATTEMPTS: nat := 5
  const INITIAL_DELAY: nat := 150   // milliseconds
  const MAX_DELAY: nat := 600

  datatype Teardown = TearApp(app: AppName) | TearWorkflows | TearPocketBase | TearNetwork

  /** The pause after a failed attempt: it doubles up to the maximum. */
  function DelayAfter(attempt: nat): nat
    requires attempt >= 1
  {
    if attempt == 1 then INITIAL_DELAY
    else if 2 * DelayAfter(attempt - 1) >= MAX_DELAY then MAX_DELAY
    else 2 * DelayAfter(attempt - 1)
  }

  /** All pauses before attempt number `attempt`. */
  function PauseBefore(attempt: nat): nat
    requires attempt >= 1
  {
    if attempt == 1 then 0 else PauseBefore(attempt - 1) + DelayAfter(attempt - 1)
  }

  /** The most a teardown step can wait. */
  lemma LongestPause()
    ensures PauseBefore(ATTEMPTS) == 1650
  {
    assert DelayAfter(2) == 300 && DelayAfter(3) == 600 && DelayAfter(4) == 600;
    assert PauseBefore(4) == PauseBefore(3) + 600 && PauseBefore(3) == PauseBefore(2) + 300;
  }

  lemma {:induction false} PausesGrow(attempt: nat, later: nat)
    requires 1 <= attempt <= later
    ensures PauseBefore(attempt) <= PauseBefore(later)
    decreases later
  {
    if attempt < later { PausesGrow(attempt, later - 1); }
  }

  lemma PauseIsBounded(attempt: nat)
    requires 1 <= attempt <= ATTEMPTS
    ensures PauseBefore(attempt) <= 1650
    ensures attempt == 1 ==> PauseBefore(attempt) == 0
    ensures attempt > 1 ==> PauseBefore(attempt) == PauseBefore(attempt - 1) + DelayAfter(attempt - 1)
  {
    LongestPause();
    PausesGrow(attempt, ATTEMPTS);
  }

  lemma {:induction false} DelayIsCapped(attempt: nat, later: nat)
    requires 1 <= attempt <= later && DelayAfter(attempt) == MAX_DELAY
    ensures DelayAfter(later) == MAX_DELAY
    decreases later
  {
    if attempt < later { DelayIsCapped(attempt, later - 1); }
  }

  method CleanupRuntimeTeardownRetryDelay(attempt: nat) returns (delay: nat)
    requires attempt >= 1
    ensures delay == DelayAfter(attempt)
  {
    delay := INITIAL_DELAY;
    for i := 1 to attempt
      invariant delay == DelayAfter(i)
    {
      delay := delay * 2;
      if delay >= MAX_DELAY {
        DelayIsCapped(i + 1, attempt);
        return MAX_DELAY;
      }
    }
  }

  // ---- What is tried again ----

  function Asks(t: Teardown, p: Name): Operation {
    match t
    case TearApp(app) => DeleteApp(app)
    case TearWorkflows => DeleteWorkflows(p)
    case TearPocketBase => DeletePocketBase(p)
    case TearNetwork => DeleteNetwork(p)
  }

  /** The first `n` attempts, each of which met a retryable failure, and the pauses after them. */
  function FailedTurns(op: Operation, n: nat): seq<Asked> {
    if n == 0 then []
    else FailedTurns(op, n - 1) + [Asked(op, Retryable), Asked(Sleep(DelayAfter(n)), Ok)]
  }

  /**
   * The last attempt and what the step comes to: that attempt's result, which is retryable only if it was the fifth; or
   * a failure for good, because the pause after a retryable one was cut short.
   */
  predicate LastTurn(op: Operation, attempt: nat, calls: seq<Asked>, result: CallResult) {
    || (calls == [Asked(op, result)] && (result.Retryable? ==> attempt == ATTEMPTS))
    || (&& |calls| == 2 && calls[0] == Asked(op, Retryable) && 1 <= attempt < ATTEMPTS
        && calls[1].operation == Sleep(DelayAfter(attempt)) && !calls[1].result.Ok? && result.Permanent?)
  }

  predicate IsTeardown(op: Operation) {
    op.DeleteApp? || op.DeleteWorkflows? || op.DeletePocketBase? || op.DeleteNetwork?
  }

  /**
   * Everything succeeded, but for at most four retryable failures of each teardown: none failed for good, no pause was
   * cut short, and the listing did not fail.
   */
  ghost predicate OnlyPassingFailures(calls: seq<Asked>) {
    && (forall c :: c in calls ==> c.result.Ok? || (c.result.Retryable? && IsTeardown(c.operation)))
    && (forall op: Operation :: multiset(calls)[Asked(op, Retryable)] <= 4)
  }

  lemma AttemptIsRecorded(start: seq<Asked>, op: Operation, attempt: nat, result: CallResult)
    requires 1 <= attempt <= ATTEMPTS
    ensures start + FailedTurns(op, attempt - 1) + [Asked(op, result)] ==
      start + (FailedTurns(op, attempt - 1) + [Asked(op, result)])
    ensures !result.Retryable? || attempt == ATTEMPTS ==> LastTurn(op, attempt, [Asked(op, result)], result)
  {
  }

  lemma PauseIsRecorded(start: seq<Asked>, op: Operation, attempt: nat, pause: CallResult)
    requires 1 <= attempt < ATTEMPTS
    ensures var calls := [Asked(op, Retryable), Asked(Sleep(DelayAfter(attempt)), pause)];
      var all := start + (FailedTurns(op, attempt - 1) + [calls[0]]) + [calls[1]];
      && all == start + (FailedTurns(op, attempt - 1) + calls)
      && (pause.Ok? ==> all == start + FailedTurns(op, attempt))
      && (!pause.Ok? ==> LastTurn(op, attempt, calls, Permanent))
  {
  }

  lemma {:induction false} FailedTurnsAre(op: Operation, n: nat)
    ensures forall c :: c in FailedTurns(op, n) ==> c == Asked(op, Retryable) || (c.operation.Sleep? && c.result.Ok?)
    ensures multiset(FailedTurns(op, n))[Asked(op, Retryable)] == n
  {
    if n > 0 { FailedTurnsAre(op, n - 1); }
  }

  lemma CallsOfStep(op: Operation, attempts: nat, last: seq<Asked>, c: Asked)
    requires forall a :: a in last ==> a.operation == op || a.operation.Sleep?
    requires c in FailedTurns(op, attempts) + last
    ensures c.operation == op || c.operation.Sleep?
    ensures c == Asked(op, Retryable) || (c.operation.Sleep? && c.result.Ok?) || c in last
  {
    FailedTurnsAre(op, attempts);
  }

  lemma RetriesOfStep(op: Operation, attempts: nat, last: seq<Asked>)
    ensures multiset(FailedTurns(op, attempts) + last)[Asked(op, Retryable)] ==
      attempts + multiset(last)[Asked(op, Retryable)]
  {
    FailedTurnsAre(op, attempts);
  }

  lemma SuccessWasPassing(op: Operation, attempts: nat, last: seq<Asked>)
    requires last == [Asked(op, Ok)] && attempts < ATTEMPTS && IsTeardown(op)
    ensures OnlyPassingFailures(FailedTurns(op, attempts) + last)
  {
    var calls := FailedTurns(op, attempts) + last;
    forall c | c in calls ensures c.result.Ok? || c == Asked(op, Retryable) {
      CallsOfStep(op, attempts, last, c);
    }
    RetriesOfStep(op, attempts, last);
    forall other: Operation | multiset(calls)[Asked(other, Retryable)] > 0 ensures other == op {
      assert Asked(other, Retryable) in calls;
    }
  }

  lemma FailureWasNotPassing(op: Operation, attempt: nat, last: seq<Asked>, result: CallResult)
    requires LastTurn(op, attempt, last, result) && 1 <= attempt <= ATTEMPTS && !result.Ok? && IsTeardown(op)
    ensures !OnlyPassingFailures(FailedTurns(op, attempt - 1) + last)
  {
    var calls := FailedTurns(op, attempt - 1) + last;
    assert calls[|calls| - 1] == last[|last| - 1];
    assert calls[|calls| - 1] in calls;
    if result.Retryable? {
      RetriesOfStep(op, attempt - 1, last);
      assert multiset(last)[Asked(op, Retryable)] == 1;
    }
  }

  /** A step succeeds exactly when it met nothing but passing failures. */
  lemma StepEnds(op: Operation, attempts: nat, last: seq<Asked>, result: CallResult)
    requires LastTurn(op, attempts, last, result) && 1 <= attempts <= ATTEMPTS && IsTeardown(op)
    ensures var calls := FailedTurns(op, attempts - 1) + last;
      && (result.Ok? <==> OnlyPassingFailures(calls))
      && forall c :: c in calls ==> c.operation == op || c.operation.Sleep?
  {
    var calls := FailedTurns(op, attempts - 1) + last;
    forall c | c in calls ensures c.operation == op || c.operation.Sleep? {
      CallsOfStep(op, attempts - 1, last, c);
    }
    if result.Ok? {
      SuccessWasPassing(op, attempts - 1, last);
    } else {
      FailureWasNotPassing(op, attempts, last, result);
    }
  }

  /** Passing failures of different teardowns do not add up. */
  lemma PassingTogether(calls: seq<Asked>, more: seq<Asked>)
    requires forall op: Operation :: IsTeardown(op) && Asked(op, Retryable) in calls ==> Asked(op, Retryable) !in more
    ensures OnlyPassingFailures(calls + more) <==> OnlyPassingFailures(calls) && OnlyPassingFailures(more)
  {
    assert forall c :: c in calls + more <==> c in calls || c in more;
    forall op: Operation
      ensures multiset(calls + more)[Asked(op, Retryable)] ==
        multiset(calls)[Asked(op, Retryable)] + multiset(more)[Asked(op, Retryable)]
    {
    }
  }

  /** The coming calls fail at most `most` times, never twice in a row and never for good. */
  predicate Transient(script: seq<CallResult>, most: nat)
    decreases |script|
  {
    script == [] ||
    match script[0]
    case Ok => Transient(script[1..], most)
    case Retryable => most > 0 && FirstResult(script[1..]).Ok? && Transient(script[1..], most - 1)
    case Permanent => false
  }

  lemma {:induction false} TransientGoesOn(before: seq<CallResult>, after: seq<CallResult>, result: CallResult,
          most: nat)
    requires Transient(before, most) && EndsAtFailure(before, after, result)
    ensures !result.Permanent? && (result.Ok? ==> Transient(after, most))
    ensures result.Retryable? ==> most > 0 && Transient(after, most - 1) && FirstResult(after).Ok?
    decreases |before|
  {
    if after != before || !result.Ok? {
      if before[0].Ok? { TransientGoesOn(before[1..], after, result, most); }
    }
  }

  lemma {:induction false} FewerIsTransient(script: seq<CallResult>, fewer: nat, most: nat)
    requires Transient(script, fewer) && fewer <= most
    ensures Transient(script, most)
    decreases |script|
  {
    if script != [] {
      var failed := if script[0].Ok? then 0 else 1;
      FewerIsTransient(script[1..], fewer - failed, most - failed);
    }
  }

  lemma {:induction false} FaultlessIsTransient(script: seq<CallResult>, most: nat)
    requires NoFaults(script)
    ensures Transient(script, most)
    decreases |script|
  {
    if script != [] { FaultlessIsTransient(script[1..], most); }
  }

  lemma SuccessIsTransient(script: seq<CallResult>, most: nat)
    requires Transient(script, most) && FirstResult(script).Ok?
    ensures Transient(RestOf(script), most)
  {
  }

  /** An attempt and, after a retryable failure, the pause behind it. */
  lemma TurnGoesOn(before: seq<CallResult>, after: seq<CallResult>, result: CallResult, attempt: nat)
    requires EndsAtFailure(before, after, result) && 1 <= attempt <= ATTEMPTS
    ensures Transient(before, ATTEMPTS - attempt) ==>
      && !result.Permanent? && (result.Ok? ==> Transient(after, 4))
      && (result.Retryable? ==>
           attempt < ATTEMPTS && FirstResult(after).Ok? && Transient(RestOf(after), ATTEMPTS - (attempt + 1)))
  {
    if Transient(before, ATTEMPTS - attempt) {
      TransientGoesOn(before, after, result, ATTEMPTS - attempt);
      if result.Ok? {
        FewerIsTransient(after, ATTEMPTS - attempt, 4);
      } else {
        SuccessIsTransient(after, ATTEMPTS - attempt - 1);
      }
    }
  }
}
