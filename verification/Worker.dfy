/**
 * The worker as a program: processJob and Process, statement by statement over the store and the
 * container runtime. Each run of it, whatever the calls answer, is a run of the engine's state machine.
 */
module Worker {
  import opened ByteStrings
  import opened Tables
  import opened Containers
  import opened Runtime
  import opened Store
  import opened Engine
  import opened EngineSteps
  import EngineQueue

  ghost predicate Reaches(s: State, t: State) {
    exists actions: seq<Action> :: Run(s, actions) == t
  }

  lemma ReachesItself(s: State)
    ensures Reaches(s, s)
  {
    assert Run(s, []) == s;
  }

  lemma ReachesNext(s: State, t: State, a: Action)
    requires Reaches(s, t)
    ensures Reaches(s, Step(t, a))
  {
    var actions :| Run(s, actions) == t;
    RunThen(s, actions, a);
  }

  lemma {:induction false} ReachesRun(s: State, t: State, more: seq<Action>)
    requires Reaches(s, t)
    ensures Reaches(s, Run(t, more))
    decreases |more|
  {
    if more != [] {
      ReachesNext(s, t, more[0]);
      ReachesRun(s, Step(t, more[0]), more[1..]);
    }
  }

  lemma ReachesOn(s: State, t: State, u: State)
    requires Reaches(s, t) && Reaches(t, u)
    ensures Reaches(s, u)
  {
    var more :| Run(t, more) == u;
    ReachesRun(s, t, more);
  }

  lemma ReachesKeepsInv(s: State, t: State)
    requires Inv(s) && Reaches(s, t)
    ensures Inv(t)
  {
    var actions :| Run(s, actions) == t;
    RunKeepsInv(s, actions);
  }

  /** The steps of a deploy do not touch the queue. */
  ghost predicate SameQueue(s: State, t: State) {
    t.phase == s.phase && t.channel == s.channel && t.senders == s.senders && t.processed == s.processed
  }

  /** Creating and starting the app: what is left behind when it fails, and where it ends. */
  lemma EnsureAppSteps(s: State, j: Id, p: Name, imageRef: string, apps: map<AppName, bool>, ok: bool)
    returns (t: State)
    requires Deploying(s, j, p) && s.pc == Building(j)
    requires ok ==> apps == s.apps[AppName(p, j) := true]
    requires !ok ==> apps == s.apps || (AppName(p, j) !in s.apps && apps == s.apps[AppName(p, j) := false])
    ensures Reaches(s, t)
    ensures t ==
      s.(apps := apps, pc := if ok then Started(j) else Failing(j), result := s.result.(imageRef := imageRef))
  {
    var mine := AppName(p, j);
    ReachesItself(s);
    var create := CreateContainer(imageRef, ok || apps != s.apps);
    var created := Step(s, create);
    CreateContainerStep(s, j, p, imageRef, ok || apps != s.apps);
    ReachesNext(s, s, create);
    if !ok && apps == s.apps {
      return created;
    }
    ReachesNext(s, created, StartContainer(ok));
    StartContainerStep(created, j, p, ok);
    t := Step(created, StartContainer(ok));
    assert ok ==> created.apps[mine := true] == apps;
  }

  /** Removing the superseded app: the program's outcome is one of the machine's. */
  lemma RemoveOldSteps(s: State, j: Id, p: Name, apps: map<AppName, bool>, ok: bool) returns (t: State)
    requires Deploying(s, j, p) && s.pc.Stopping?
    requires ok ==> apps == s.apps - {s.pc.app}
    requires !ok ==> apps == s.apps || apps == Stopped(s.apps, s.pc.app)
    ensures Reaches(s, t)
    ensures ok ==> t == s.(apps := apps, pc := Committing(j), result := s.result.(superseded := Some(s.pc.prev)))
    ensures !ok ==> t == s.(apps := apps, pc := Undoing(j))
  {
    var app, stops := s.pc.app, ok || apps != s.apps;
    ReachesItself(s);
    ReachesNext(s, s, StopOld(stops));
    StopOldStep(s, j, p, stops);
    t := Step(s, StopOld(stops));
    if app !in s.apps {
      assert s.apps - {app} == s.apps;
    } else if stops {
      ReachesNext(s, t, RemoveOld(ok));
      RemoveOldStep(t, j, p, ok);
      t := Step(t, RemoveOld(ok));
      assert Stopped(s.apps, app) - {app} == s.apps - {app};
    }
  }

  /** Undoing the new app, completely or not: the job fails. */
  lemma UndoSteps(s: State, j: Id, p: Name, apps: map<AppName, bool>, ok: bool) returns (t: State)
    requires Deploying(s, j, p) && s.pc == Undoing(j)
    requires ok ==> apps == s.apps - {AppName(p, j)}
    requires !ok ==> apps == s.apps || apps == Stopped(s.apps, AppName(p, j))
    ensures Reaches(s, t) && t == s.(apps := apps, pc := Failing(j))
  {
    var mine, stops := AppName(p, j), ok || apps != s.apps;
    ReachesItself(s);
    ReachesNext(s, s, UndoStop(stops));
    UndoStopStep(s, j, p, stops);
    t := Step(s, UndoStop(stops));
    if mine !in s.apps {
      assert s.apps - {mine} == s.apps;
    } else if stops {
      ReachesNext(s, t, UndoRemove(ok));
      UndoRemoveStep(t, j, p, ok);
      t := Step(t, UndoRemove(ok));
      assert Stopped(s.apps, mine) - {mine} == s.apps - {mine};
    }
  }

  /** What a deploy asks of the runtime: the new app is up and ready before the current one goes. */
  function Plan(p: Name, j: Id, current: Option<Id>): seq<Operation> {
    Preparation(p, j) + Farewell(p, current)
  }

  function Preparation(p: Name, j: Id): seq<Operation> {
    [EnsurePocketBase(p), EnsureApp(AppName(p, j)), AwaitApp(AppName(p, j))]
  }

  function Farewell(p: Name, current: Option<Id>): seq<Operation> {
    if current.None? then [] else [DeleteApp(AppName(p, current.value))]
  }

  /** Everything that was planned was asked for, in this order, and succeeded. */
  predicate Fulfilled(plan: seq<Operation>, calls: seq<Asked>) {
    |calls| == |plan| && forall i :: 0 <= i < |plan| ==> calls[i] == Asked(plan[i], Ok)
  }

  /** Only a beginning of what was planned was asked for, and the last of it failed. */
  predicate BrokenOff(plan: seq<Operation>, calls: seq<Asked>) {
    && 0 < |calls| <= |plan|
    && (forall i :: 0 <= i < |calls| ==> calls[i].operation == plan[i])
    && (forall i :: 0 <= i < |calls| ==> (calls[i].result.Ok? <==> i < |calls| - 1))
  }

  /** A deploy fails at the first failure; when that is the current app's removal, the new app is removed again. */
  predicate FailedDeploy(p: Name, j: Id, current: Option<Id>, calls: seq<Asked>) {
    || calls == []
    || BrokenOff(Preparation(p, j), calls)
    || (|calls| == 5 && BrokenOff(Plan(p, j, current), calls[..4]) && calls[4].operation == DeleteApp(AppName(p, j)))
  }

  /** The same for the part that begins with a new app that is ready. */
  predicate FailedFarewell(p: Name, j: Id, current: Option<Id>, calls: seq<Asked>) {
    |calls| == 2 && BrokenOff(Farewell(p, current), calls[..1]) && calls[1].operation == DeleteApp(AppName(p, j))
  }

  lemma FarewellEndsDeploy(p: Name, j: Id, current: Option<Id>, prepared: seq<Asked>, calls: seq<Asked>)
    requires Fulfilled(Preparation(p, j), prepared)
    ensures Fulfilled(Farewell(p, current), calls) ==> Fulfilled(Plan(p, j, current), prepared + calls)
    ensures FailedFarewell(p, j, current, calls) ==> FailedDeploy(p, j, current, prepared + calls)
  {
    if |calls| == 2 { assert (prepared + calls)[..4] == prepared + calls[..1]; }
  }

  lemma PreparationEnds(p: Name, j: Id, database: CallResult, app: CallResult, ready: CallResult)
    ensures var first, second := Asked(EnsurePocketBase(p), database), Asked(EnsureApp(AppName(p, j)), app);
      var third := Asked(AwaitApp(AppName(p, j)), ready);
      && (!database.Ok? ==> BrokenOff(Preparation(p, j), [first]))
      && (database.Ok? && !app.Ok? ==> BrokenOff(Preparation(p, j), [first, second]))
      && (database.Ok? && app.Ok? && !ready.Ok? ==> BrokenOff(Preparation(p, j), [first, second, third]))
      && (database.Ok? && app.Ok? && ready.Ok? ==> Fulfilled(Preparation(p, j), [first, second, third]))
  {
  }

  lemma FarewellEnds(p: Name, j: Id, current: Id, removal: CallResult, undo: CallResult)
    ensures var first, second := Asked(DeleteApp(AppName(p, current)), removal), Asked(DeleteApp(AppName(p, j)), undo);
      && (removal.Ok? ==> Fulfilled(Farewell(p, Some(current)), [first]))
      && (!removal.Ok? ==> FailedFarewell(p, j, Some(current), [first, second]))
  {
    var first, second := Asked(DeleteApp(AppName(p, current)), removal), Asked(DeleteApp(AppName(p, j)), undo);
    assert [first, second][..1] == [first];
  }

  /** With the app of `gone` removed, if there is one. */
  function Without(apps: map<AppName, bool>, p: Name, gone: Option<Id>): map<AppName, bool> {
    if gone.None? then apps else apps - {AppName(p, gone.value)}
  }

  /** Of the apps other than `mine` none is lost, and at most that of `current` is stopped. */
  ghost predicate OthersStay(before: map<AppName, bool>, after: map<AppName, bool>, mine: AppName,
          current: Option<Id>)
  {
    forall app :: app != mine ==>
      && (app in after <==> app in before)
      && (app in before ==> after[app] == before[app] || (Some(app.deployment) == current && !after[app]))
  }

  lemma OnlyOwnAppChanges(before: map<AppName, bool>, after: map<AppName, bool>, mine: AppName)
    requires after == before || after == before[mine := true] || after == before[mine := false]
    ensures OthersStay(before, after, mine, None)
  {
  }

  lemma RemovalsKeepOthers(before: map<AppName, bool>, middle: map<AppName, bool>, after: map<AppName, bool>,
          mine: AppName, current: Id)
    requires middle == before || middle == Stopped(before, AppName(mine.project, current))
    requires after == middle - {mine} || after == middle || after == Stopped(middle, mine)
    ensures OthersStay(before, after, mine, Some(current))
  {
  }

  lemma OthersStayThroughout(before: map<AppName, bool>, middle: map<AppName, bool>, after: map<AppName, bool>,
          mine: AppName, current: Option<Id>)
    requires middle == before[mine := true] && OthersStay(middle, after, mine, current)
    ensures OthersStay(before, after, mine, current)
  {
  }

  lemma Appended<T>(all: seq<T>, a: T, b: T, c: T)
    ensures all + [a] + [b] == all + [a, b]
    ensures all + [a] + [b] + [c] == all + [a, b, c]
  {
  }

  class Deployer {
    const db: BrainStore
    const runtime: ContainerRuntime

    constructor (db: BrainStore, runtime: ContainerRuntime)
      ensures this.db == db && this.runtime == runtime
    {
      this.db, this.runtime := db, runtime;
    }

    /** The machine's tables and containers are the program's. */
    ghost predicate At(s: State)
      reads this, db, runtime
    {
      s.db == db.View() && s.apps == runtime.apps
    }

    /** `build` is what the builder and the configuration came to: an image, or an error. */
    method Process(j: Id, p: Name, build: Option<string>, ghost s: State)
      returns (ok: bool, result: DeploymentResult, ghost t: State, ghost calls: seq<Asked>)
      requires At(s) && Inv(s) && Deploying(s, j, p) && s.pc == Building(j) && s.result == EMPTY_RESULT
      modifies runtime
      ensures runtime.history == old(runtime.history) + calls
      ensures ok ==> Fulfilled(Plan(p, j, s.db.projects[p].current), calls)
      ensures !ok ==> FailedDeploy(p, j, s.db.projects[p].current, calls)
      ensures calls == [] <==> build.None?
      ensures ok ==>
        runtime.apps == Without(old(runtime.apps)[AppName(p, j) := true], p, s.db.projects[p].current)
      ensures !ok ==> OthersStay(
        old(runtime.apps), runtime.apps, AppName(p, j), if |calls| <= 3 then None else s.db.projects[p].current)
      ensures Reaches(s, t) && At(t) && SameQueue(s, t) && t.db == s.db
      ensures t.pc == if ok then Committing(j) else Failing(j)
      ensures ok ==> result == t.result && build == Some(result.imageRef) && IsRunning(runtime.apps, AppName(p, j))
      ensures ok ==> p in t.db.projects && t.db.projects[p].current == result.superseded
      ensures NoFaults(old(runtime.script)) && build.Some? ==> ok
    {
      ghost var more;
      var ready;
      ready, result, t, calls := Prepare(j, p, build, s);
      if !ready {
        return false, result, t, calls;
      }
      ReachesKeepsInv(s, t);
      ghost var prepared := runtime.apps;
      ok, result, t, more := Supersede(j, p, result, s, t);
      FarewellEndsDeploy(p, j, s.db.projects[p].current, calls, more);
      Associates(old(runtime.history), calls, more);
      calls := calls + more;
      if !ok {
        OthersStayThroughout(old(runtime.apps), prepared, runtime.apps, AppName(p, j), s.db.projects[p].current);
      }
    }

    /** The first part of Process: the image, the database and the new app, up to its readiness. */
    method Prepare(j: Id, p: Name, build: Option<string>, ghost s: State)
      returns (ready: bool, result: DeploymentResult, ghost t: State, ghost calls: seq<Asked>)
      requires At(s) && Inv(s) && Deploying(s, j, p) && s.pc == Building(j) && s.result == EMPTY_RESULT
      modifies runtime
      ensures runtime.history == old(runtime.history) + calls
      ensures ready ==> Fulfilled(Preparation(p, j), calls)
      ensures !ready ==> calls == [] || BrokenOff(Preparation(p, j), calls)
      ensures calls == [] <==> build.None?
      ensures ready ==> runtime.apps == old(runtime.apps)[AppName(p, j) := true]
      ensures !ready ==> OthersStay(old(runtime.apps), runtime.apps, AppName(p, j), None)
      ensures Reaches(s, t) && At(t) && SameQueue(s, t) && t.db == s.db && Deploying(t, j, p)
      ensures t.pc == if ready then Ready(j) else Failing(j)
      ensures ready ==> result == t.result && build == Some(result.imageRef)
      ensures result.app.None? && result.superseded.None?
      ensures NoFaults(old(runtime.script)) && build.Some? ==> ready && NoFaults(runtime.script)
    {
      t, calls := s, [];
      ReachesItself(s);
      result := EMPTY_RESULT;
      if build.None? {
        BuildFailsStep(s, j, p);
        ReachesNext(s, s, BuildFails);
        return false, result, Step(s, BuildFails), [];
      }
      result := result.(imageRef := build.value);
      var database := runtime.EnsureProjectPocketBase(p);
      ghost var first := Asked(EnsurePocketBase(p), database);
      if !database.Ok? {
        BuildFailsStep(s, j, p);
        ReachesNext(s, s, BuildFails);
        PreparationEnds(p, j, database, Ok, Ok);
        return false, result, Step(s, BuildFails), [first];
      }
      var mine := AppName(p, j);
      var app := runtime.EnsureProjectApp(mine);
      ghost var second := Asked(EnsureApp(mine), app);
      OnlyOwnAppChanges(old(runtime.apps), runtime.apps, mine);
      t := EnsureAppSteps(s, j, p, build.value, runtime.apps, app.Ok?);
      ghost var answer := FirstResult(runtime.script);
      ghost var third := Asked(AwaitApp(mine), answer);
      Appended(old(runtime.history), first, second, third);
      PreparationEnds(p, j, database, app, answer);
      if !app.Ok? {
        return false, result, t, [first, second];
      }
      ready := runtime.WaitForProjectAppReady(mine);
      ProbeStep(t, j, p, ready);
      ReachesNext(s, t, Probe(ready));
      return ready, result, Step(t, Probe(ready)), [first, second, third];
    }

    /** The rollback: whatever comes of it, the job fails. */
    method RemoveCurrentJobApp(j: Id, p: Name, ghost s: State, ghost undoing: State)
      returns (ghost undo: CallResult, ghost t: State)
      requires At(undoing) && Reaches(s, undoing) && SameQueue(s, undoing)
      requires Deploying(undoing, j, p) && undoing.pc == Undoing(j)
      modifies runtime
      ensures runtime.history == old(runtime.history) + [Asked(DeleteApp(AppName(p, j)), undo)]
      ensures Reaches(s, t) && t == undoing.(apps := runtime.apps, pc := Failing(j))
      ensures undo.Ok? ==> runtime.apps == old(runtime.apps) - {AppName(p, j)}
      ensures !undo.Ok? ==>
        runtime.apps == old(runtime.apps) || runtime.apps == Stopped(old(runtime.apps), AppName(p, j))
    {
      var result := runtime.RemoveProjectApp(AppName(p, j));
      undo := result;
      t := UndoSteps(undoing, j, p, runtime.apps, undo.Ok?);
      ReachesOn(s, undoing, t);
    }

    /** The last part of Process: remove the app of the current deployment, or undo the new one. */
    method Supersede(j: Id, p: Name, prepared: DeploymentResult, ghost s: State, ghost ready: State)
      returns (ok: bool, result: DeploymentResult, ghost t: State, ghost calls: seq<Asked>)
      requires At(ready) && Reaches(s, ready) && SameQueue(s, ready)
      requires Deploying(ready, j, p) && ready.pc == Ready(j)
      requires ready.result == prepared && prepared.app.None? && prepared.superseded.None?
      requires Inv(ready) && IsRunning(ready.apps, AppName(p, j))
      modifies runtime
      ensures runtime.history == old(runtime.history) + calls
      ensures ok ==> Fulfilled(Farewell(p, ready.db.projects[p].current), calls)
      ensures !ok ==> FailedFarewell(p, j, ready.db.projects[p].current, calls)
      ensures ok ==> runtime.apps == Without(old(runtime.apps), p, ready.db.projects[p].current)
      ensures !ok ==>
        OthersStay(old(runtime.apps), runtime.apps, AppName(p, j), ready.db.projects[p].current)
      ensures Reaches(s, t) && At(t) && SameQueue(s, t) && t.db == ready.db
      ensures t.pc == if ok then Committing(j) else Failing(j)
      ensures ok ==>
        result == t.result && result.imageRef == prepared.imageRef && IsRunning(runtime.apps, AppName(p, j))
      ensures ok ==> p in t.db.projects && t.db.projects[p].current == result.superseded
      ensures NoFaults(old(runtime.script)) ==> ok
    {
      var mine := AppName(p, j);
      calls := [];
      result := prepared.(app := Some(mine));
      var current := CurrentDeployment(db.View(), p);
      CurrentHasRow(ready.db, p);
      ReadCurrentStep(ready, j, p);
      ReachesNext(s, ready, ReadCurrent);
      t := Step(ready, ReadCurrent);
      if current.None? || current.value == j {
        return true, result, t, [];
      }
      var currentApp := db.deployments[current.value].app;
      if currentApp == mine {
        result := result.(superseded := current);
        return true, result, t, [];
      }
      var called := runtime.RemoveProjectApp(currentApp);
      ghost var first := Asked(DeleteApp(currentApp), called);
      ghost var removed := RemoveOldSteps(t, j, p, runtime.apps, called.Ok?);
      ReachesOn(s, t, removed);
      t := removed;
      if !called.Ok? {
        ghost var undo;
        undo, t := RemoveCurrentJobApp(j, p, s, t);
        ghost var second := Asked(DeleteApp(mine), undo);
        Appended(old(runtime.history), first, second, second);
        FarewellEnds(p, j, current.value, called, undo);
        RemovalsKeepOthers(old(runtime.apps), removed.apps, runtime.apps, mine, current.value);
        return false, result, t, [first, second];
      }
      FarewellEnds(p, j, current.value, called, Ok);
      result := result.(superseded := current);
      return true, result, t, [first];
    }
  }

  datatype Outcome = NotClaimed | Promoted | Failed

  /** What became of job `j` and of the current deployment of its project. */
  ghost predicate Ended(before: DB, after: DB, j: Id, p: Name, outcome: Outcome) {
    match outcome
    case NotClaimed => after == before
    case Promoted =>
      j in after.jobs && after.jobs[j].status == JobSucceeded &&
      p in after.projects && after.projects[p].current == Some(j)
    case Failed =>
      && j in after.jobs && after.jobs[j].status == JobFailed
      && p in after.projects && p in before.projects && after.projects[p].current == before.projects[p].current
      && after.deployments == before.deployments
  }

  /**
   * A job is promoted only after everything that its deploy asked for has succeeded, with its own app up and only the
   * current one removed, and with the image that was built; when its deploy fails, all other apps are still there.
   */
  ghost predicate DeployedIf(before: State, after: State, j: Id, build: Option<string>, calls: seq<Asked>,
          outcome: Outcome)
  {
    if outcome.NotClaimed? then calls == []
    else
      && j in before.db.jobs && before.db.jobs[j].project in before.db.projects
      && var p := before.db.jobs[j].project; var current := before.db.projects[p].current;
         && (outcome.Promoted? ==>
               && Fulfilled(Plan(p, j, current), calls)
               && after.apps == Without(before.apps[AppName(p, j) := true], p, current)
               && build.Some?
               && PromotedRows(ClaimJob(before.db, j), after.db, j, p, AppName(p, j), build.value, current))
         && (outcome.Failed? && build != Some("") ==>
               && FailedDeploy(p, j, current, calls)
               && OthersStay(before.apps, after.apps, AppName(p, j), if |calls| <= 3 then None else current))
  }

  lemma TerminalStays(s: State, t: State, j: Id)
    requires Inv(s) && Reaches(s, t) && EngineQueue.Terminal(s.db, j)
    ensures EngineQueue.Terminal(t.db, j)
  {
    var actions :| Run(s, actions) == t;
    EngineQueue.TerminalRowsStay(s, actions, j);
  }

  /** With a free worker, a job that is not queued has ended. */
  lemma NotQueuedIsTerminal(s: State, j: Id)
    requires Inv(s) && s.phase.Up? && !Working(s.pc) && j in s.db.jobs && !Claimable(s.db, j)
    ensures EngineQueue.Terminal(s.db, j)
  {
  }

  lemma {:induction false} JobsStayOver(s: State, actions: seq<Action>, j: Id)
    requires j in s.db.jobs
    ensures j in Run(s, actions).db.jobs
    decreases |actions|
  {
    if actions != [] {
      EngineQueue.StepKeepsJobs(s, actions[0]);
      JobsStayOver(Step(s, actions[0]), actions[1..], j);
    }
  }

  lemma JobsStay(s: State, t: State, j: Id)
    requires Reaches(s, t) && j in s.db.jobs
    ensures j in t.db.jobs
  {
    var actions :| Run(s, actions) == t;
    JobsStayOver(s, actions, j);
  }

  class JobManager {
    const db: BrainStore
    const processor: Deployer
    var channel: seq<Id>

    constructor (db: BrainStore, processor: Deployer)
      requires processor.db == db
      ensures this.db == db && this.processor == processor && channel == []
    {
      this.db, this.processor, channel := db, processor, [];
    }

    /** Marks the claimed job failed; its row is there and running, so this cannot fail. */
    method Fail(j: Id, p: Name, ghost s: State, ghost failing: State) returns (ghost t: State)
      requires processor.db == db && processor.At(failing) && Reaches(s, failing) && Inv(failing)
      requires Deploying(failing, j, p) && failing.pc == Failing(j) && SameQueue(s, failing)
      modifies db
      ensures Reaches(s, t) && processor.At(t) && SameQueue(s, t) && t.pc == Idle
      ensures t.db.deployments == failing.db.deployments
      ensures j in t.db.jobs && t.db.jobs[j].status == JobFailed
      ensures p in t.db.projects && p in failing.db.projects
      ensures t.db.projects[p].current == failing.db.projects[p].current
    {
      MarkFailedStep(failing, j, p);
      ReachesNext(s, failing, MarkFailed);
      t := Step(failing, MarkFailed);
      var ok := db.MarkJobFailed(j);
    }

    /** What the answer of Process leads to: a failed job, or a promotion that may be refused. */
    method Conclude(j: Id, p: Name, processed: bool, result: DeploymentResult, ghost s: State, ghost answered: State)
      returns (outcome: Outcome, ghost t: State)
      requires processor.db == db && processor.At(answered) && Reaches(s, answered) && Inv(answered)
      requires Deploying(answered, j, p) && SameQueue(s, answered)
      requires answered.pc == if processed then Committing(j) else Failing(j)
      requires processed ==> answered.result == result
      modifies db
      ensures Reaches(s, t) && processor.At(t) && SameQueue(s, t) && t.pc == Idle
      ensures !outcome.NotClaimed? && Ended(answered.db, t.db, j, p, outcome)
      ensures outcome.Promoted? ==> PromotedRows(
        answered.db, t.db, j, p, AppName(p, j), result.imageRef, answered.db.projects[p].current)
      ensures outcome.Promoted? <==>
        processed && result.imageRef != "" && answered.db.projects[p].current == result.superseded
    {
      if !processed {
        t := Fail(j, p, s, answered);
        return Failed, t;
      }
      PromotableIff(answered, p);
      CommitStep(answered, p);
      ReachesNext(s, answered, Commit);
      t := Step(answered, Commit);
      StepKeepsInv(answered, Commit);
      var ok := db.MarkJobSucceeded(j, p, result);
      if !ok {
        t := Fail(j, p, s, t);
        return Failed, t;
      }
      return Promoted, t;
    }

    /** One job from the channel to its end, with nobody else at work meanwhile. */
    method ProcessJob(j: Id, build: Option<string>, ghost s: State)
      returns (outcome: Outcome, ghost t: State, ghost calls: seq<Asked>)
      requires processor.db == db && processor.At(s) && Inv(s) && s.phase.Up? && s.pc == Holding(j)
      modifies db, processor.runtime
      ensures Reaches(s, t) && processor.At(t) && t.pc == Idle && t.phase == s.phase
      ensures t.channel == s.channel && t.senders == s.senders
      ensures outcome.NotClaimed? <==> !Claimable(s.db, j)
      ensures outcome.NotClaimed? ==> t == s.(pc := Idle)
      ensures !outcome.NotClaimed? ==>
        Ended(s.db, t.db, j, s.db.jobs[j].project, outcome) && t.processed == s.processed + [j]
      ensures processor.runtime.history == old(processor.runtime.history) + calls
      ensures DeployedIf(s, t, j, build, calls, outcome)
      ensures NoFaults(old(processor.runtime.script)) && Claimable(s.db, j) && build.Some? && build.value != "" ==>
        outcome.Promoted?
    {
      ClaimStep(s, j);
      ReachesItself(s);
      ReachesNext(s, s, Claim);
      StepKeepsInv(s, Claim);
      ghost var claim := Step(s, Claim);
      var claimed := db.ClaimQueuedJob(j);
      if !claimed {
        return NotClaimed, claim, [];
      }
      var p := db.jobs[j].project;
      var ok, result;
      ghost var answered;
      ok, result, answered, calls := processor.Process(j, p, build, claim);
      ReachesKeepsInv(claim, answered);
      outcome, t := Conclude(j, p, ok, result, claim, answered);
      ReachesOn(s, claim, t);
    }

    /** The loop of run, as long as there is something in the channel: every job of the channel ends. */
    method Run(builds: map<Id, string>, ghost s: State) returns (ghost t: State)
      requires processor.db == db && processor.At(s) && Inv(s) && s.phase.Up? && s.pc == Idle && channel == s.channel
      modifies this, db, processor.runtime
      ensures Reaches(s, t) && processor.At(t) && t.phase.Up? && t.pc == Idle
      ensures channel == t.channel == [] && t.senders == s.senders
      ensures forall k :: k in s.channel && k in s.db.jobs ==> EngineQueue.Terminal(t.db, k)
    {
      t := s;
      ReachesItself(s);
      ghost var n := 0;
      while channel != []
        invariant Reaches(s, t) && processor.At(t) && t.phase.Up? && t.pc == Idle && t.senders == s.senders
        invariant n <= |s.channel| && channel == t.channel == s.channel[n..]
        invariant forall k :: k in s.channel[..n] && k in s.db.jobs ==> EngineQueue.Terminal(t.db, k)
        decreases |channel|
      {
        var j := channel[0];
        channel := channel[1..];
        ReachesKeepsInv(s, t);
        ReachesNext(s, t, Receive);
        StepKeepsInv(t, Receive);
        ghost var held := Step(t, Receive);
        ReceiveStep(t);
        var outcome;
        ghost var done;
        ghost var calls;
        outcome, done, calls := ProcessJob(j, if j in builds then Some(builds[j]) else None, held);
        ReachesOn(s, held, done);
        forall k | k in s.channel[..n + 1] && k in s.db.jobs ensures EngineQueue.Terminal(done.db, k) {
          assert s.channel[..n + 1] == s.channel[..n] + [j];
          if k in s.channel[..n] {
            TerminalStays(held, done, k);
          } else {
            JobsStay(s, held, k);
            if outcome.NotClaimed? {
              NotQueuedIsTerminal(held, j);
            }
          }
        }
        t := done;
        n := n + 1;
      }
      assert s.channel[..n] == s.channel;
    }
  }
}
