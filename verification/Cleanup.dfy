/**
 * Project cleanup: teardown with retries, then the rows. Rows change only after every teardown step
 * has succeeded; a second cleanup changes nothing; other projects are never touched.
 */
module Cleanup {
  import opened ByteStrings
  import opened Choice
  import opened Tables
  import opened Runtime
  import opened Store
  import Workflows
  import opened WorkflowStore
  import opened TeardownRetries
  import ProjectStatuses

  datatype Outcome =
    BadOptions | ProjectNotFound | TeardownFailed | RoutesFailed | DatabaseFailed | DataFailed | NetworkFailed | Cleaned

  /** The resources that a teardown step leaves when it succeeds. */
  function TornDown(r: Resources, t: Teardown, p: Name): Resources {
    match t
    case TearApp(app) => r.(apps := r.apps - {app})
    case TearWorkflows => WithoutWorkflows(r, p)
    case TearPocketBase => r.(pocketBases := r.pocketBases - {p})
    case TearNetwork => r.(networks := r.networks - {p})
  }

  /** After a successful step, what it tears down is gone. */
  ghost predicate Gone(r: Resources, t: Teardown, p: Name) {
    match t
    case TearApp(app) => app !in r.apps
    case TearWorkflows => forall c :: c in r.workflows ==> c.project != p
    case TearPocketBase => p !in r.pocketBases
    case TearNetwork => p !in r.networks
  }

  /** Everything the runtime holds for a project is gone. */
  function WithoutProject(r: Resources, p: Name): Resources {
    Resources(
      r.apps - AppsOf(r, p),
      (set c | c in r.workflows && c.project != p),
      r.pocketBases - {p},
      r.networks - {p})
  }

  /** Partial progress of a step adds up to tearing down, and so does the step after it. */
  lemma TeardownsCompose(a: Resources, b: Resources, c: Resources, p: Name)
    requires OnlyTearsDown(a, b, p) && OnlyTearsDown(b, c, p)
    ensures OnlyTearsDown(a, c, p)
  {
    forall app | app in c.apps && c.apps[app] != a.apps[app] ensures app.project == p && !c.apps[app] {
      assert app in b.apps;
    }
  }

  // ---- Teardowns one after another ----

  predicate OnlyDeletes(calls: seq<Asked>, apps: seq<AppName>) {
    forall c :: c in calls ==> c.operation.Sleep? || (c.operation.DeleteApp? && c.operation.app in apps)
  }

  /** The failures of one app's removal do not count for another app. */
  lemma AppsPassTogether(calls: seq<Asked>, more: seq<Asked>, app: AppName, earlier: seq<AppName>)
    requires OnlyDeletes(calls, earlier) && OnlyDeletes(more, [app]) && app !in earlier
    ensures OnlyDeletes(calls + more, earlier + [app])
    ensures OnlyPassingFailures(calls + more) <==> OnlyPassingFailures(calls) && OnlyPassingFailures(more)
  {
    PassingTogether(calls, more);
  }

  /** The order of the teardowns. */
  function Stage(op: Operation): nat {
    match op
    case DeleteWorkflows(_) => 1
    case DeletePocketBase(_) => 2
    case DeleteNetwork(_) => 3
    case _ => 0
  }

  predicate UpTo(calls: seq<Asked>, stage: int) {
    forall c :: c in calls ==> Stage(c.operation) <= stage
  }

  /** Only passing failures so far, and nothing asked for that belongs to a later stage. */
  ghost predicate Passed(calls: seq<Asked>, stage: int) {
    OnlyPassingFailures(calls) && UpTo(calls, stage)
  }

  /** What the project has lost after the teardowns up to this stage. */
  ghost predicate GoneUpTo(r: Resources, p: Name, stage: int) {
    && AppsOf(r, p) == {} && (stage >= 1 ==> forall c :: c in r.workflows ==> c.project != p)
    && (stage >= 2 ==> p !in r.pocketBases) && (stage >= 3 ==> p !in r.networks)
  }

  lemma GoneStaysGone(began: Resources, before: Resources, after: Resources, t: Teardown, p: Name)
    requires OnlyTearsDown(began, before, p) && OnlyTearsDown(before, after, p)
    requires !t.TearApp? && GoneUpTo(before, p, Stage(Asks(t, p)) - 1)
    ensures OnlyTearsDown(began, after, p)
    ensures Gone(after, t, p) ==> GoneUpTo(after, p, Stage(Asks(t, p)))
  {
    TeardownsCompose(began, before, after, p);
  }

  lemma StagesPassTogether(calls: seq<Asked>, more: seq<Asked>, op: Operation, stage: int)
    requires IsTeardown(op) && UpTo(calls, stage) && Stage(op) > stage
    requires forall c :: c in more ==> c.operation == op || c.operation.Sleep?
    ensures UpTo(calls + more, Stage(op))
    ensures OnlyPassingFailures(calls + more) <==> OnlyPassingFailures(calls) && OnlyPassingFailures(more)
  {
    PassingTogether(calls, more);
  }

  /** A stage is passed exactly when its step succeeds. */
  lemma StageEnds(sofar: seq<Asked>, op: Operation, attempts: nat, last: seq<Asked>, result: CallResult)
    requires LastTurn(op, attempts, last, result) && 1 <= attempts <= ATTEMPTS && IsTeardown(op)
    requires Passed(sofar, Stage(op) - 1)
    ensures var calls := sofar + (FailedTurns(op, attempts - 1) + last);
      if result.Ok? then Passed(calls, Stage(op)) else !OnlyPassingFailures(calls)
  {
    StepEnds(op, attempts, last, result);
    StagesPassTogether(sofar, FailedTurns(op, attempts - 1) + last, op, Stage(op) - 1);
  }

  lemma ListingAndRest(p: Name, listing: CallResult, calls: seq<Asked>)
    requires forall c :: c in calls ==> c.operation.DeleteApp? || c.operation.Sleep?
    ensures UpTo([Asked(ListApps(p), listing)] + calls, 0)
    ensures OnlyPassingFailures([Asked(ListApps(p), listing)] + calls) <==> listing.Ok? && OnlyPassingFailures(calls)
  {
    PassingTogether([Asked(ListApps(p), listing)], calls);
    assert Asked(ListApps(p), listing) in [Asked(ListApps(p), listing)];
  }

  lemma NothingAskedPasses()
    ensures OnlyPassingFailures([])
  {
  }

  // ---- What the steps come to, as a function of the coming outcomes ----

  /** One attempt; workflow containers are deleted in any order and are not described here. */
  function Attempted(t: Teardown, p: Name, r: Resources, script: seq<CallResult>): Answer
    requires !t.TearWorkflows?
  {
    match t
    case TearApp(app) => RemovedApp(r, script, app)
    case TearPocketBase => RemovedPocketBase(r, script, p)
    case TearNetwork => RemovedNetwork(r, script, p)
  }

  /** Attempt number `attempt` and those after it, with the pauses between them. */
  function Retried(t: Teardown, p: Name, r: Resources, script: seq<CallResult>, attempt: nat): Answer
    requires !t.TearWorkflows? && 1 <= attempt <= ATTEMPTS
    decreases ATTEMPTS - attempt
  {
    var a := Attempted(t, p, r, script);
    if !a.result.Retryable? || attempt == ATTEMPTS then a
    else if !FirstResult(a.script).Ok? then Answer(Permanent, a.left, RestOf(a.script))
    else Retried(t, p, a.left, RestOf(a.script), attempt + 1)
  }

  /** What a step has done so far. */
  ghost predicate Progress(t: Teardown, p: Name, before: Resources, now: Resources) {
    OnlyTearsDown(before, now, p) && (t.TearApp? ==> now == before.(apps := now.apps))
  }

  lemma ProgressComposes(t: Teardown, p: Name, a: Resources, b: Resources, c: Resources)
    requires Progress(t, p, a, b) && Progress(t, p, b, c)
    ensures Progress(t, p, a, c)
  {
    TeardownsCompose(a, b, c, p);
  }

  /** The coming attempts finish what the first one began. */
  ghost predicate StillDue(t: Teardown, p: Name, before: Resources, script: seq<CallResult>, now: Resources,
          left: seq<CallResult>, attempt: nat)
  {
    !t.TearWorkflows? ==>
      1 <= attempt <= ATTEMPTS && Retried(t, p, before, script, 1) == Retried(t, p, now, left, attempt)
  }

  /** Removing apps in the order in which they were listed, up to the first that fails for good. */
  function AppsRemoved(order: seq<AppName>, p: Name, r: Resources, script: seq<CallResult>): Answer
    decreases |order|
  {
    if order == [] then Answer(Ok, r, script)
    else
      var a := Retried(TearApp(order[0]), p, r, script, 1);
      if a.result.Ok? then AppsRemoved(order[1..], p, a.left, a.script) else a
  }

  lemma AppsRemovedUnfolds(order: seq<AppName>, i: nat, p: Name, r: Resources, script: seq<CallResult>)
    requires i < |order|
    ensures var a := Retried(TearApp(order[i]), p, r, script, 1);
      AppsRemoved(order[i..], p, r, script) ==
      if a.result.Ok? then AppsRemoved(order[i + 1..], p, a.left, a.script) else a
  {
    assert order[i..][0] == order[i] && order[i..][1..] == order[i + 1..];
  }

  function AllAppsRemoved(order: seq<AppName>, p: Name, r: Resources, script: seq<CallResult>): Answer {
    if FirstResult(script).Ok? then AppsRemoved(order, p, r, RestOf(script))
    else Answer(FirstResult(script), r, RestOf(script))
  }

  /** An order in which the runtime may list some apps. */
  ghost predicate IsOrder(order: seq<AppName>, apps: set<AppName>) {
    && (forall app :: app in order <==> app in apps)
    && forall i, j :: 0 <= i < j < |order| ==> order[i] != order[j]
  }

  datatype Options = Options(removeDatabase: bool, deleteData: bool)

  /** How the steps outside the container runtime go: the removal of the routes, and of the data directory. */
  datatype Elsewhere = Elsewhere(routesRemoved: bool, dataDeleted: bool)

  datatype Removal = Removal(outcome: Outcome, db: DB, answer: Answer)

  /** What RemoveRuntime does, step by step. */
  ghost function RuntimeRemoval(db: DB, r: Resources, script: seq<CallResult>, order: seq<AppName>,
          elsewhere: Elsewhere, p: Name, options: Options): Removal
  {
    var untouched := Answer(Ok, r, script);
    if options.deleteData && !options.removeDatabase then Removal(BadOptions, db, untouched)
    else if p !in db.projects then Removal(ProjectNotFound, db, untouched)
    else
      var apps := AllAppsRemoved(order, p, r, script);
      if !apps.result.Ok? then Removal(TeardownFailed, db, apps)
      else if !elsewhere.routesRemoved then Removal(RoutesFailed, db, apps)
      else DatabaseRemoval(ClearRuntime(db, p).value, apps, elsewhere, p, options)
  }

  /** The part after the rows have been cleared. */
  ghost function DatabaseRemoval(cleared: DB, apps: Answer, elsewhere: Elsewhere, p: Name, options: Options): Removal {
    if !options.removeDatabase then Removal(Cleaned, cleared, apps)
    else
      var database := Retried(TearPocketBase, p, apps.left, apps.script, 1);
      if !database.result.Ok? then Removal(DatabaseFailed, cleared, database)
      else if options.deleteData && !elsewhere.dataDeleted then Removal(DataFailed, cleared, database)
      else
        var network := Retried(TearNetwork, p, database.left, database.script, 1);
        Removal(if network.result.Ok? then Cleaned else NetworkFailed, cleared, network)
  }

  lemma NothingLeft(before: Resources, after: Resources, p: Name)
    requires OnlyTearsDown(before, after, p) && GoneUpTo(after, p, 3)
    ensures after == WithoutProject(before, p)
  {
    forall app | app in after.apps ensures app.project != p {
      assert app !in AppsOf(after, p);
    }
    assert after.apps == before.apps - AppsOf(before, p);
    assert after.pocketBases == before.pocketBases - {p};
  }

  class ProjectCleaner {
    const db: BrainStore
    const runs: WorkflowRows
    const runtime: ContainerRuntime

    constructor (db: BrainStore, runs: WorkflowRows, runtime: ContainerRuntime)
      ensures this.db == db && this.runs == runs && this.runtime == runtime
    {
      this.db, this.runs, this.runtime := db, runs, runtime;
    }

    method Attempt(t: Teardown, p: Name) returns (result: CallResult)
      requires t.TearApp? ==> t.app.project == p
      modifies runtime
      ensures NoFaults(old(runtime.script)) ==> result.Ok? && NoFaults(runtime.script)
      ensures result.Ok? ==> runtime.View() == TornDown(old(runtime.View()), t, p)
      ensures t.TearApp? ==> runtime.View() == old(runtime.View()).(apps := runtime.apps)
      ensures OnlyTearsDown(old(runtime.View()), runtime.View(), p)
      ensures !t.TearWorkflows? ==> runtime.After(result) == Attempted(t, p, old(runtime.View()), old(runtime.script))
      ensures EndsAtFailure(old(runtime.script), runtime.script, result)
      ensures runtime.history == old(runtime.history) + [Asked(Asks(t, p), result)]
    {
      match t
      case TearApp(app) => result := runtime.RemoveProjectApp(app);
      case TearWorkflows => result := runtime.RemoveProjectWorkflowContainers(p);
      case TearPocketBase => result := runtime.RemoveProjectPocketBase(p);
      case TearNetwork => result := runtime.RemoveProjectNetwork(p);
    }

    /** Number `attempt` is next; all attempts before it met a retryable failure. */
    ghost predicate Underway(t: Teardown, p: Name, attempt: nat, start: seq<Asked>, began: Answer)
      reads runtime
    {
      && 1 <= attempt <= ATTEMPTS && runtime.history == start + FailedTurns(Asks(t, p), attempt - 1)
      && Progress(t, p, began.left, runtime.View())
      && (NoFaults(began.script) ==> attempt == 1 && NoFaults(runtime.script))
      && (Transient(began.script, 4) ==> Transient(runtime.script, ATTEMPTS - attempt))
      && StillDue(t, p, began.left, began.script, runtime.View(), runtime.script, attempt)
    }

    /** One turn of the retry loop: an attempt and, when another is to follow, the pause before it. */
    method AttemptAndPause(t: Teardown, p: Name, attempt: nat, ghost start: seq<Asked>, ghost began: Answer)
      returns (result: CallResult, again: bool, delay: nat, ghost calls: seq<Asked>)
      requires (t.TearApp? ==> t.app.project == p) && Underway(t, p, attempt, start, began)
      modifies runtime
      ensures again ==> attempt < ATTEMPTS && PauseBefore(attempt + 1) == PauseBefore(attempt) + delay <= 1650
      ensures again ==> Underway(t, p, attempt + 1, start, began)
      ensures !again ==> runtime.history == start + (FailedTurns(Asks(t, p), attempt - 1) + calls)
      ensures !again ==> LastTurn(Asks(t, p), attempt, calls, result)
      ensures !again && result.Retryable? ==> attempt == ATTEMPTS
      ensures NoFaults(began.script) ==> !again && result.Ok? && attempt == 1 && NoFaults(runtime.script)
      ensures Transient(began.script, 4) ==> again || (result.Ok? && Transient(runtime.script, 4))
      ensures !again && result.Ok? ==> Gone(runtime.View(), t, p)
      ensures OnlyTearsDown(began.left, runtime.View(), p)
      ensures t.TearApp? ==> runtime.View() == began.left.(apps := runtime.apps)
      ensures !again && !t.TearWorkflows? ==> runtime.After(result) == Retried(t, p, began.left, began.script, 1)
    {
      result := Attempt(t, p);
      ProgressComposes(t, p, began.left, old(runtime.View()), runtime.View());
      calls := [Asked(Asks(t, p), result)];
      AttemptIsRecorded(start, Asks(t, p), attempt, result);
      TurnGoesOn(old(runtime.script), runtime.script, result, attempt);
      if !result.Retryable? || attempt == ATTEMPTS {
        return result, false, 0, calls;
      }
      delay := CleanupRuntimeTeardownRetryDelay(attempt);
      PauseIsBounded(attempt + 1);
      var pause := runtime.Pause(delay);
      calls := [Asked(Asks(t, p), result), Asked(Sleep(delay), pause)];
      PauseIsRecorded(start, Asks(t, p), attempt, pause);
      if !pause.Ok? {
        return Permanent, false, 0, calls;
      }
      return result, true, delay, calls;
    }

    /**
     * At most five attempts with at most 1650 ms of pauses. Only a retryable failure is tried again,
     * and a pause can be cut short, which ends the step too.
     */
    method RetryRuntimeTeardown(t: Teardown, p: Name)
      returns (result: CallResult, attempts: nat, slept: nat, ghost last: seq<Asked>)
      requires t.TearApp? ==> t.app.project == p
      modifies runtime
      ensures NoFaults(old(runtime.script)) ==> result.Ok? && attempts == 1 && NoFaults(runtime.script)
      ensures 1 <= attempts <= ATTEMPTS && slept == PauseBefore(attempts) <= 1650
      ensures result.Retryable? ==> attempts == ATTEMPTS
      ensures runtime.history == old(runtime.history) + (FailedTurns(Asks(t, p), attempts - 1) + last)
      ensures LastTurn(Asks(t, p), attempts, last, result)
      ensures Transient(old(runtime.script), 4) ==> result.Ok? && Transient(runtime.script, 4)
      ensures OnlyTearsDown(old(runtime.View()), runtime.View(), p)
      ensures result.Ok? ==> Gone(runtime.View(), t, p)
      ensures t.TearApp? ==> runtime.View() == old(runtime.View()).(apps := runtime.apps)
      ensures !t.TearWorkflows? ==> runtime.After(result) == Retried(t, p, old(runtime.View()), old(runtime.script), 1)
    {
      attempts, slept := 1, 0;
      PauseIsBounded(1);
      while true
        invariant 1 <= attempts <= ATTEMPTS && slept == PauseBefore(attempts) <= 1650
        invariant Underway(t, p, attempts, old(runtime.history), old(runtime.After(Ok)))
        decreases ATTEMPTS - attempts
      {
        var again, delay;
        result, again, delay, last :=
          AttemptAndPause(t, p, attempts, old(runtime.history), old(runtime.After(Ok)));
        if !again {
          return;
        }
        attempts, slept := attempts + 1, slept + delay;
      }
    }

    /** One more teardown of the project, after those of the earlier stages. */
    method TearDown(t: Teardown, p: Name, ghost start: seq<Asked>, ghost sofar: seq<Asked>, ghost began: Resources)
      returns (result: CallResult, ghost calls: seq<Asked>)
      requires !t.TearApp? && Passed(sofar, Stage(Asks(t, p)) - 1) && runtime.history == start + sofar
      requires OnlyTearsDown(began, runtime.View(), p) && GoneUpTo(runtime.View(), p, Stage(Asks(t, p)) - 1)
      modifies runtime
      ensures runtime.history == start + calls
      ensures if result.Ok? then Passed(calls, Stage(Asks(t, p))) else !OnlyPassingFailures(calls)
      ensures Transient(old(runtime.script), 4) ==> result.Ok? && Transient(runtime.script, 4)
      ensures OnlyTearsDown(began, runtime.View(), p)
      ensures result.Ok? ==> GoneUpTo(runtime.View(), p, Stage(Asks(t, p)))
    {
      var attempts, slept;
      ghost var last;
      result, attempts, slept, last := RetryRuntimeTeardown(t, p);
      StageEnds(sofar, Asks(t, p), attempts, last, result);
      Associates(start, sofar, FailedTurns(Asks(t, p), attempts - 1) + last);
      calls := sofar + (FailedTurns(Asks(t, p), attempts - 1) + last);
      GoneStaysGone(began, old(runtime.View()), runtime.View(), t, p);
    }

    /** The same step as a function of the coming outcomes. */
    method TearDownExactly(t: Teardown, p: Name) returns (result: CallResult)
      requires !t.TearApp? && !t.TearWorkflows?
      modifies runtime
      ensures runtime.After(result) == Retried(t, p, old(runtime.View()), old(runtime.script), 1)
      ensures OnlyTearsDown(old(runtime.View()), runtime.View(), p)
      ensures result.Ok? ==> Gone(runtime.View(), t, p)
    {
      var attempts, slept;
      ghost var last;
      result, attempts, slept, last := RetryRuntimeTeardown(t, p);
    }

    /** Removes app number `i` of the list. */
    method RemoveListedApp(apps: seq<AppName>, i: nat, p: Name) returns (result: CallResult, ghost calls: seq<Asked>)
      requires i < |apps| && apps[i].project == p
      requires forall app :: app in AppsOf(runtime.View(), p) ==> app in apps[i..]
      modifies runtime
      ensures NoFaults(old(runtime.script)) ==> result.Ok? && NoFaults(runtime.script)
      ensures result.Ok? ==> forall app :: app in AppsOf(runtime.View(), p) ==> app in apps[i + 1..]
      ensures runtime.View() == old(runtime.View()).(apps := runtime.apps)
      ensures OnlyTearsDown(old(runtime.View()), runtime.View(), p)
      ensures runtime.history == old(runtime.history) + calls && OnlyDeletes(calls, [apps[i]])
      ensures result.Ok? <==> OnlyPassingFailures(calls)
      ensures Transient(old(runtime.script), 4) ==> result.Ok? && Transient(runtime.script, 4)
      ensures AppsRemoved(apps[i..], p, old(runtime.View()), old(runtime.script)) ==
        if result.Ok? then AppsRemoved(apps[i + 1..], p, runtime.View(), runtime.script) else runtime.After(result)
    {
      assert apps[i..] == [apps[i]] + apps[i + 1..];
      AppsRemovedUnfolds(apps, i, p, runtime.View(), runtime.script);
      var attempts, slept;
      ghost var last;
      result, attempts, slept, last := RetryRuntimeTeardown(TearApp(apps[i]), p);
      StepEnds(DeleteApp(apps[i]), attempts, last, result);
      calls := FailedTurns(DeleteApp(apps[i]), attempts - 1) + last;
      forall app | result.Ok? && app in AppsOf(runtime.View(), p) ensures app in apps[i + 1..] {
        assert app in AppsOf(old(runtime.View()), p);
      }
    }

    /** Removes the listed apps, one after the other; the first step that fails for good ends it. */
    method RemoveApps(apps: seq<AppName>, p: Name) returns (result: CallResult, ghost calls: seq<Asked>)
      requires IsOrder(apps, AppsOf(runtime.View(), p))
      modifies runtime
      ensures NoFaults(old(runtime.script)) ==> result.Ok? && NoFaults(runtime.script)
      ensures result.Ok? ==> AppsOf(runtime.View(), p) == {}
      ensures runtime.View() == old(runtime.View()).(apps := runtime.apps)
      ensures OnlyTearsDown(old(runtime.View()), runtime.View(), p)
      ensures runtime.history == old(runtime.history) + calls && OnlyDeletes(calls, apps)
      ensures result.Ok? <==> OnlyPassingFailures(calls)
      ensures Transient(old(runtime.script), 4) ==> result.Ok? && Transient(runtime.script, 4)
      ensures runtime.After(result) == AppsRemoved(apps, p, old(runtime.View()), old(runtime.script))
    {
      result, calls := Ok, [];
      NothingAskedPasses();
      assert apps[0..] == apps;
      assert forall i :: 0 <= i < |apps| ==> apps[i] in AppsOf(runtime.View(), p);
      for i := 0 to |apps|
        invariant result.Ok? && (NoFaults(old(runtime.script)) ==> NoFaults(runtime.script))
        invariant forall app :: app in AppsOf(runtime.View(), p) ==> app in apps[i..]
        invariant runtime.View() == old(runtime.View()).(apps := runtime.apps)
        invariant OnlyTearsDown(old(runtime.View()), runtime.View(), p)
        invariant AppsRemoved(apps, p, old(runtime.View()), old(runtime.script)) ==
          AppsRemoved(apps[i..], p, runtime.View(), runtime.script)
        invariant runtime.history == old(runtime.history) + calls && OnlyDeletes(calls, apps[..i])
        invariant OnlyPassingFailures(calls)
        invariant Transient(old(runtime.script), 4) ==> Transient(runtime.script, 4)
      {
        ghost var more;
        label before:
        result, more := RemoveListedApp(apps, i, p);
        AppsPassTogether(calls, more, apps[i], apps[..i]);
        Associates(old(runtime.history), calls, more);
        calls := calls + more;
        TeardownsCompose(old(runtime.View()), old@before(runtime.View()), runtime.View(), p);
        if !result.Ok? {
          return;
        }
      }
    }

    method RemoveAllApps(p: Name)
      returns (result: CallResult, ghost order: seq<AppName>, ghost calls: seq<Asked>)
      modifies runtime
      ensures NoFaults(old(runtime.script)) ==> result.Ok? && NoFaults(runtime.script)
      ensures result.Ok? ==> AppsOf(runtime.View(), p) == {}
      ensures runtime.View() == old(runtime.View()).(apps := runtime.apps)
      ensures OnlyTearsDown(old(runtime.View()), runtime.View(), p)
      ensures IsOrder(order, AppsOf(old(runtime.View()), p))
      ensures runtime.After(result) == AllAppsRemoved(order, p, old(runtime.View()), old(runtime.script))
      ensures runtime.history == old(runtime.history) + calls
      ensures if result.Ok? then Passed(calls, 0) else !OnlyPassingFailures(calls)
      ensures Transient(old(runtime.script), 4) && FirstResult(old(runtime.script)).Ok? ==>
        result.Ok? && Transient(runtime.script, 4)
    {
      var listed;
      result, listed := runtime.ListProjectApps(p);
      calls := [Asked(ListApps(p), result)];
      if !result.Ok? {
        ListingAndRest(p, result, []);
        assert calls + [] == calls;
        order := Listing(AppsOf(old(runtime.View()), p));
        return;
      }
      var apps := Arranged(listed);
      order := apps;
      if Transient(old(runtime.script), 4) { SuccessIsTransient(old(runtime.script), 4); }
      ghost var more;
      result, more := RemoveApps(apps, p);
      ListingAndRest(p, Ok, more);
      Associates(old(runtime.history), calls, more);
      calls := calls + more;
    }

    /** The teardowns behind that of the apps. */
    method TearRestDown(p: Name, ghost start: seq<Asked>, ghost sofar: seq<Asked>, ghost began: Resources)
      returns (result: CallResult, ghost calls: seq<Asked>)
      requires Passed(sofar, 0) && runtime.history == start + sofar
      requires OnlyTearsDown(began, runtime.View(), p) && GoneUpTo(runtime.View(), p, 0)
      modifies runtime
      ensures OnlyTearsDown(began, runtime.View(), p)
      ensures result.Ok? ==> GoneUpTo(runtime.View(), p, 3)
      ensures runtime.history == start + calls
      ensures if result.Ok? then Passed(calls, 3) else !OnlyPassingFailures(calls)
      ensures Transient(old(runtime.script), 4) ==> result.Ok?
    {
      result, calls := TearDown(TearWorkflows, p, start, sofar, began);
      if !result.Ok? {
        return;
      }
      result, calls := TearDown(TearPocketBase, p, start, calls, began);
      if !result.Ok? {
        return;
      }
      result, calls := TearDown(TearNetwork, p, start, calls, began);
    }

    /** All teardowns of a project, in their order. */
    method TearProjectDown(p: Name) returns (result: CallResult, ghost calls: seq<Asked>)
      modifies runtime
      ensures OnlyTearsDown(old(runtime.View()), runtime.View(), p)
      ensures result.Ok? ==> runtime.View() == WithoutProject(old(runtime.View()), p)
      ensures runtime.history == old(runtime.history) + calls
      ensures if result.Ok? then Passed(calls, 3) else !OnlyPassingFailures(calls)
      ensures Transient(old(runtime.script), 4) && FirstResult(old(runtime.script)).Ok? ==> result.Ok?
    {
      ghost var start, began := runtime.history, runtime.View();
      ghost var order;
      result, order, calls := RemoveAllApps(p);
      if !result.Ok? {
        return;
      }
      result, calls := TearRestDown(p, start, calls, began);
      if result.Ok? { NothingLeft(began, runtime.View(), p); }
    }

    /**
     * Teardown first, rows last. When any step fails, no row has changed; on success the project has
     * no container, no network, no current or succeeded deployment and no workflow rows. It succeeds exactly when the
     * runtime met nothing but passing failures.
     */
    method Cleanup(p: Name) returns (outcome: Outcome, ghost calls: seq<Asked>)
      modifies db, runs, runtime
      ensures outcome.ProjectNotFound? <==> p !in old(db.projects)
      ensures !outcome.Cleaned? ==> db.View() == old(db.View()) && runs.View() == old(runs.View())
      ensures outcome.ProjectNotFound? ==> runtime.View() == old(runtime.View())
      ensures outcome.Cleaned? ==>
        && runtime.View() == WithoutProject(old(runtime.View()), p)
        && db.View() == ClearRuntime(old(db.View()), p).value
        && runs.View() == Workflows.ClearWorkflows(old(runs.View()), p)
      ensures OnlyTearsDown(old(runtime.View()), runtime.View(), p)
      ensures runtime.history == old(runtime.history) + calls
      ensures outcome.Cleaned? <==> p in old(db.projects) && OnlyPassingFailures(calls)
      ensures Transient(old(runtime.script), 4) && FirstResult(old(runtime.script)).Ok? && p in old(db.projects) ==>
        outcome.Cleaned?
      ensures NoFaults(old(runtime.script)) && p in old(db.projects) ==> outcome.Cleaned?
    {
      if p !in db.projects {
        return ProjectNotFound, [];
      }
      if NoFaults(runtime.script) { FaultlessIsTransient(runtime.script, 4); }
      var result;
      result, calls := TearProjectDown(p);
      if !result.Ok? {
        return TeardownFailed, calls;
      }
      var cleared := db.ClearProjectRuntimeState(p);
      runs.ClearProjectWorkflowState(p);
      return Cleaned, calls;
    }

    /**
     * Removes the apps and the routes, clears the rows, and only then removes database container, data and network when
     * asked to; so unlike Cleanup it can fail with the rows already cleared.
     */
    method RemoveRuntime(p: Name, options: Options, elsewhere: Elsewhere)
      returns (outcome: Outcome, ghost order: seq<AppName>)
      modifies db, runtime
      ensures IsOrder(order, AppsOf(old(runtime.View()), p))
      ensures var removal :=
          RuntimeRemoval(old(db.View()), old(runtime.View()), old(runtime.script), order, elsewhere, p, options);
        && outcome == removal.outcome && db.View() == removal.db
        && runtime.View() == removal.answer.left && runtime.script == removal.answer.script
      ensures outcome.Cleaned? ==> AppsOf(runtime.View(), p) == {}
      ensures outcome.Cleaned? && options.removeDatabase ==> p !in runtime.pocketBases && p !in runtime.networks
      ensures outcome.Cleaned? && !options.removeDatabase ==>
        runtime.pocketBases == old(runtime.pocketBases) && runtime.networks == old(runtime.networks)
      ensures OnlyTearsDown(old(runtime.View()), runtime.View(), p)
    {
      order := Listing(AppsOf(runtime.View(), p));
      if options.deleteData && !options.removeDatabase {
        return BadOptions, order;
      }
      if p !in db.projects {
        return ProjectNotFound, order;
      }
      var result;
      ghost var calls;
      result, order, calls := RemoveAllApps(p);
      if !result.Ok? {
        return TeardownFailed, order;
      }
      if !elsewhere.routesRemoved {
        return RoutesFailed, order;
      }
      var cleared := db.ClearProjectRuntimeState(p);
      if !options.removeDatabase {
        return Cleaned, order;
      }
      label apps:
      result := TearDownExactly(TearPocketBase, p);
      TeardownsCompose(old(runtime.View()), old@apps(runtime.View()), runtime.View(), p);
      if !result.Ok? {
        return DatabaseFailed, order;
      }
      if options.deleteData && !elsewhere.dataDeleted {
        return DataFailed, order;
      }
      label database:
      result := TearDownExactly(TearNetwork, p);
      TeardownsCompose(old(runtime.View()), old@database(runtime.View()), runtime.View(), p);
      return if result.Ok? then Cleaned else NetworkFailed, order;
    }
  }

  /** The listed apps, one after the other; the runtime decides on the order. */
  method Arranged(apps: set<AppName>) returns (order: seq<AppName>)
    ensures IsOrder(order, apps)
  {
    order := [];
    var rest := apps;
    while rest != {}
      invariant rest <= apps && IsOrder(order, apps - rest)
      decreases rest
    {
      var app := Pick(rest);
      order := order + [app];
      rest := rest - {app};
    }
  }

  /** What a cleanup did, a second cleanup does not undo, extend or repeat. */
  lemma SecondCleanupChangesNothing(db: DB, t: Workflows.WorkflowTables, r: Resources, p: Name)
    requires ClearRuntime(db, p).Some?
    ensures var cleared := ClearRuntime(db, p).value;
      && ClearRuntime(cleared, p) == Some(cleared)
      && Workflows.ClearWorkflows(Workflows.ClearWorkflows(t, p), p) == Workflows.ClearWorkflows(t, p)
      && WithoutProject(WithoutProject(r, p), p) == WithoutProject(r, p)
  {
    var cleared := ClearRuntime(db, p).value;
    var middle := WithCurrent(db.(deployments := SupersedeAllBut(db.deployments, p, None)), p, None);
    assert SupersedeAllBut(cleared.deployments, p, None) == cleared.deployments;
    assert WithCurrent(cleared.(deployments := cleared.deployments), p, None) == cleared;
    ProjectStatuses.SyncAgrees(middle, p);
    var once := Workflows.ClearWorkflows(t, p);
    assert Workflows.RunsOf(once, p) == {};
    assert Workflows.ClearWorkflows(once, p) == once;
    var left := WithoutProject(r, p);
    assert AppsOf(left, p) == {};
    assert WithoutProject(left, p) == left;
  }

  /** A cleanup leaves nothing of its project current, succeeded or defined, and nothing of others changed. */
  lemma CleanupIsCompleteAndLocal(db: DB, t: Workflows.WorkflowTables, p: Name)
    requires ClearRuntime(db, p).Some? && ForeignKeys(db)
    ensures var cleared := ClearRuntime(db, p).value;
      && (forall d :: !Succeeded(cleared, p, d)) && cleared.projects[p].current == None
      && cleared.jobs == db.jobs && OnlyKeptSucceeded(db.deployments, cleared.deployments, p, None)
      && (forall q :: q in db.projects && q != p ==> q in cleared.projects && cleared.projects[q] == db.projects[q])
    ensures var left := Workflows.ClearWorkflows(t, p);
      && (forall w :: w in left.caps <==> w in t.caps && w.project != p)
      && (forall x :: x in left.runs <==> x in t.runs && t.runs[x].workflow.project != p)
      && (forall x :: x in left.tokens <==> x in t.tokens && t.tokens[x].project != p)
      && (forall x :: x in left.runs ==> left.runs[x] == t.runs[x])
      && (forall w :: w in left.caps ==> left.caps[w] == t.caps[w])
      && (forall x :: x in left.tokens ==> left.tokens[x] == t.tokens[x])
  {
  }
}
