/**
 * Crash safety of a deploy. While no container call for a project fails and nobody else touches its
 * containers or clears its rows, the project always has a running app, whatever the worker, other
 * projects and any number of crashes and restarts do; and once a restart has finished, the project
 * has exactly one app container: the running app of its only succeeded deployment.
 */
module CrashSafety {
  import opened Choice
  import opened Tables
  import opened Containers
  import opened Engine

  /** The app containers of project `p` are exactly those of `m`, running or not as `m` says. */
  ghost predicate AppsAre(s: State, p: Name, m: map<Id, bool>) {
    forall d ::
      (AppName(p, d) in s.apps <==> d in m) && (d in m && AppName(p, d) in s.apps ==> s.apps[AppName(p, d)] == m[d])
  }

  predicate WorksOn(s: State, p: Name) {
    Working(s.pc) && s.pc.id in s.db.jobs && s.db.jobs[s.pc.id].project == p
  }

  /** One running app: the current deployment's, or the only one that runs. */
  ghost predicate Recoverable(s: State, p: Name, c: Id) {
    IsRunning(s.apps, AppName(p, c)) || exists d :: SoleRunning(s.apps, AppName(p, d))
  }

  /** The containers of project `p` at each point of a deploy over current deployment `c`. */
  ghost predicate DeployPicture(s: State, p: Name, c: Id)
    requires Working(s.pc)
  {
    match s.pc
    case Created(id) => AppsAre(s, p, map[c := true, id := false]) && s.result.imageRef != ""
    case Started(id) => AppsAre(s, p, map[c := true, id := true]) && s.result.imageRef != ""
    case Ready(id) => AppsAre(s, p, map[c := true, id := true]) && s.result.imageRef != ""
    case Stopping(id, prev, app) => prev == c && AppsAre(s, p, map[c := true, id := true]) && s.result.imageRef != ""
    case Removing(id, prev, app) => prev == c && AppsAre(s, p, map[c := false, id := true]) && s.result.imageRef != ""
    case Committing(id) => s.result.superseded == Some(c) && AppsAre(s, p, map[id := true]) && s.result.imageRef != ""
    case Undoing(_) => false
    case UndoRemoving(_) => false
    case _ => AppsAre(s, p, map[c := true])
  }

  ghost predicate Safe(s: State, p: Name) {
    && Inv(s)
    && p in s.db.projects && s.db.projects[p].current.Some?
    && var c := s.db.projects[p].current.value;
       if s.phase.Down? then Recoverable(s, p, c) && (p in s.phase.reconciled ==> AppsAre(s, p, map[c := true]))
       else if WorksOn(s, p) then DeployPicture(s, p, c)
       else AppsAre(s, p, map[c := true])
  }

  /** No container call for `p` fails, the built image has a name, and no request touches the runtime of `p`. */
  ghost predicate Clean(s: State, a: Action, p: Name) {
    match a
    case StopApp(app) => app.project != p
    case StartApp(app) => app.project != p
    case RemoveApp(app) => app.project != p
    case ClearRuntimeState(q) => q != p
    case CreateContainer(imageRef, ok) => WorksOn(s, p) ==> ok && imageRef != ""
    case StartContainer(ok) => WorksOn(s, p) ==> ok
    case Probe(ok) => WorksOn(s, p) ==> ok
    case StopOld(ok) => WorksOn(s, p) ==> ok
    case RemoveOld(ok) => WorksOn(s, p) ==> ok
    case ReconcileDone(q, failed) => q == p ==> !failed
    case _ => true
  }

  ghost predicate CleanRun(s: State, actions: seq<Action>, p: Name)
    decreases |actions|
  {
    actions != [] ==> Clean(s, actions[0], p) && CleanRun(Step(s, actions[0]), actions[1..], p)
  }

  ghost predicate SamePhase(s: State, after: State) {
    if s.phase.Up? then after.phase.Up? else after.phase.Down? && after.phase.reconciled == s.phase.reconciled
  }

  /** Safety of `p` looks at its pointer, its containers and, when the worker deploys it, the worker. */
  lemma Unaffected(s: State, after: State, p: Name)
    requires Safe(s, p) && Inv(after) && SamePhase(s, after)
    requires p in after.db.projects && after.db.projects[p].current == s.db.projects[p].current
    requires forall d :: AppName(p, d) in s.apps <==> AppName(p, d) in after.apps
    requires forall d :: AppName(p, d) in s.apps && AppName(p, d) in after.apps ==>
      s.apps[AppName(p, d)] == after.apps[AppName(p, d)]
    requires WorksOn(s, p) <==> WorksOn(after, p)
    requires WorksOn(s, p) ==> after.pc == s.pc && after.result == s.result
    ensures Safe(after, p)
  {
    var c := s.db.projects[p].current.value;
    if s.phase.Down? && !IsRunning(s.apps, AppName(p, c)) {
      var d :| SoleRunning(s.apps, AppName(p, d));
      forall other: AppName | other.project == p && IsRunning(after.apps, other)
        ensures other == AppName(p, d)
      {
        assert other == AppName(p, other.deployment) && IsRunning(s.apps, other);
      }
      assert SoleRunning(after.apps, AppName(p, d));
    }
  }

  lemma PromotionKeepsSafe(s: State, p: Name)
    requires Safe(s, p) && s.phase.Up? && s.pc.Committing? && WorksOn(s, p)
    requires Inv(Deploy(s, Commit, p))
    ensures Safe(Deploy(s, Commit, p), p)
  {
    CurrentHasRow(s.db, p);
    assert Promotable(s.db, s.pc.id, p, s.result);
  }

  lemma StopAndRemoveKeepSafe(s: State, a: Action, p: Name)
    requires Safe(s, p) && s.phase.Up? && WorksOn(s, p) && Clean(s, a, p)
    requires s.pc.Ready? || s.pc.Stopping? || s.pc.Removing?
    requires Inv(Deploy(s, a, p))
    ensures Safe(Deploy(s, a, p), p)
  {
    CurrentHasRow(s.db, p);
  }

  lemma StartupStepsKeepSafe(s: State, a: Action, p: Name)
    requires Safe(s, p) && s.phase.Up? && WorksOn(s, p) && Clean(s, a, p)
    requires !s.pc.Ready? && !s.pc.Stopping? && !s.pc.Removing? && !s.pc.Committing?
    requires Inv(Deploy(s, a, p))
    ensures Safe(Deploy(s, a, p), p)
  {
  }

  lemma RemovalIsLocal(s: State, a: Action, app: AppName)
    requires Inv(s) && (s.pc.Stopping? || s.pc.Removing?) && app.project != s.db.jobs[s.pc.id].project
    ensures var after := Deploy(s, a, s.db.jobs[s.pc.id].project).apps;
      (app in s.apps <==> app in after) && (app in s.apps && app in after ==> s.apps[app] == after[app])
  {
  }

  /** A deploy step touches containers of its own project only. */
  lemma DeployIsLocal(s: State, a: Action, app: AppName)
    requires Inv(s) && Working(s.pc) && app.project != s.db.jobs[s.pc.id].project
    ensures var after := Deploy(s, a, s.db.jobs[s.pc.id].project).apps;
      (app in s.apps <==> app in after) && (app in s.apps && app in after ==> s.apps[app] == after[app])
  {
    if s.pc.Stopping? || s.pc.Removing? {
      RemovalIsLocal(s, a, app);
    }
  }

  lemma CommitRowsAreLocal(s: State, p: Name)
    requires Inv(s) && s.pc.Committing? && p != s.db.jobs[s.pc.id].project && p in s.db.projects
    ensures var after := Deploy(s, Commit, s.db.jobs[s.pc.id].project);
      p in after.db.projects && after.db.projects[p] == s.db.projects[p] && !WorksOn(after, p)
  {
  }

  /** A deploy step touches the row of its own project only, and stays with its job or lets go of it. */
  lemma DeployRowsAreLocal(s: State, a: Action, p: Name)
    requires Inv(s) && Working(s.pc) && p != s.db.jobs[s.pc.id].project && p in s.db.projects
    ensures var after := Deploy(s, a, s.db.jobs[s.pc.id].project);
      && p in after.db.projects && after.db.projects[p] == s.db.projects[p] && after.phase == s.phase
      && !WorksOn(after, p)
  {
    DeployStaysPut(s, a, s.db.jobs[s.pc.id].project);
    if s.pc.Committing? && a.Commit? {
      CommitRowsAreLocal(s, p);
    } else {
      DeployKeepsTables(s, a, s.db.jobs[s.pc.id].project);
    }
  }

  lemma DeployElsewhereKeepsSafe(s: State, a: Action, p: Name)
    requires Safe(s, p) && s.phase.Up? && Working(s.pc) && !WorksOn(s, p)
    requires Inv(Deploy(s, a, s.db.jobs[s.pc.id].project))
    ensures Safe(Deploy(s, a, s.db.jobs[s.pc.id].project), p)
  {
    DeployRowsAreLocal(s, a, p);
    forall d { DeployIsLocal(s, a, AppName(p, d)); }
    Unaffected(s, Deploy(s, a, s.db.jobs[s.pc.id].project), p);
  }

  lemma DeployKeepsSafe(s: State, a: Action, p: Name)
    requires Safe(s, p) && s.phase.Up? && Working(s.pc) && Clean(s, a, p)
    requires Inv(Deploy(s, a, s.db.jobs[s.pc.id].project))
    ensures Safe(Deploy(s, a, s.db.jobs[s.pc.id].project), p)
  {
    if !WorksOn(s, p) {
      DeployElsewhereKeepsSafe(s, a, p);
    } else if s.pc.Committing? && a.Commit? {
      PromotionKeepsSafe(s, p);
    } else if s.pc.Ready? || s.pc.Stopping? || s.pc.Removing? {
      StopAndRemoveKeepSafe(s, a, p);
    } else if s.pc.Committing? {
      assert Deploy(s, a, p) == s;
    } else {
      StartupStepsKeepSafe(s, a, p);
    }
  }

  lemma QueueWorkKeepsSafe(s: State, a: Action, p: Name)
    requires Safe(s, p) && s.phase.Up? && IsQueueWork(a) && Inv(Work(s, a))
    ensures Safe(Work(s, a), p)
  {
  }

  lemma WorkKeepsSafe(s: State, a: Action, p: Name)
    requires Safe(s, p) && s.phase.Up? && Clean(s, a, p)
    ensures Safe(Work(s, a), p)
  {
    WorkKeepsInv(s, a);
    if IsQueueWork(a) {
      QueueWorkKeepsSafe(s, a, p);
    } else {
      OtherWorkIsDeploy(s, a);
      if Working(s.pc) {
        DeployKeepsSafe(s, a, p);
      } else if s.pc.Holding? && s.pc.id in s.db.jobs {
        NotWorkingDeploysNothing(s, a, s.db.jobs[s.pc.id].project);
      }
    }
  }

  lemma CreateIsElsewhere(s: State, id: Id, q: Name, now: nat, config: Option<Id>, p: Name)
    requires Inv(s) && p in s.db.projects
    ensures var after := Request(s, Create(id, q, now, config));
      && after.phase == s.phase && after.pc == s.pc && after.result == s.result
      && p in after.db.projects && after.db.projects[p].current == s.db.projects[p].current
      && (WorksOn(s, p) <==> WorksOn(after, p))
  {
  }

  lemma ClearIsElsewhere(s: State, q: Name, p: Name)
    requires Inv(s) && p in s.db.projects && p != q
    ensures var after := Request(s, ClearRuntimeState(q));
      && after.phase == s.phase && after.pc == s.pc && after.result == s.result
      && p in after.db.projects && after.db.projects[p].current == s.db.projects[p].current
      && (WorksOn(s, p) <==> WorksOn(after, p))
  {
  }

  /** Clean requests leave the containers, the pointer and the deploy of `p` alone. */
  lemma CleanRequestIsElsewhere(s: State, a: Action, p: Name)
    requires Inv(s) && Clean(s, a, p) && p in s.db.projects
    ensures var after := Request(s, a);
      && after.phase == s.phase && after.pc == s.pc && after.result == s.result
      && p in after.db.projects && after.db.projects[p].current == s.db.projects[p].current
      && (WorksOn(s, p) <==> WorksOn(after, p))
  {
    match a
    case Create(id, q, now, config) => CreateIsElsewhere(s, id, q, now, config, p);
    case ClearRuntimeState(q) => ClearIsElsewhere(s, q, p);
    case _ =>
  }

  lemma CleanRequestKeepsApp(s: State, a: Action, p: Name, d: Id)
    requires Clean(s, a, p)
    ensures var after := Request(s, a).apps;
      (AppName(p, d) in s.apps <==> AppName(p, d) in after)
      && (AppName(p, d) in s.apps && AppName(p, d) in after ==> s.apps[AppName(p, d)] == after[AppName(p, d)])
  {
  }

  lemma RequestKeepsSafe(s: State, a: Action, p: Name)
    requires Safe(s, p) && Clean(s, a, p)
    ensures Safe(Request(s, a), p)
  {
    RequestKeepsInv(s, a);
    CleanRequestIsElsewhere(s, a, p);
    forall d { CleanRequestKeepsApp(s, a, p, d); }
    Unaffected(s, Request(s, a), p);
  }

  /** Reconciling the rows of `p` keeps its pointer, or moves it to the only app that runs. */
  lemma ReconcileRowsKeepSafe(s: State, p: Name, imageRef: string)
    requires Safe(s, p) && s.phase.Down? && p !in s.phase.reconciled
    requires Inv(s.(db := Reconciled(s, p, imageRef)))
    ensures Safe(s.(db := Reconciled(s, p, imageRef)), p)
    ensures KeepsCurrent(Reconciled(s, p, imageRef), s.apps, p)
  {
    CurrentHasRow(s.db, p);
    var after := Reconciled(s, p, imageRef);
    var kept := KeptDeployment(s.db, s.apps, p);
    if KeepsCurrent(s.db, s.apps, p) {
      assert after.projects[p].current == kept;
    } else {
      assert kept.Some? && SoleRunning(s.apps, AppName(p, kept.value));
      assert after.projects[p].current == kept;
    }
    CurrentHasRow(after, p);
  }

  lemma ReconcileElsewhereKeepsRow(s: State, p: Name, q: Name, imageRef: string)
    requires Inv(s) && p != q && p in s.db.projects
    ensures p in Reconciled(s, q, imageRef).projects && Reconciled(s, q, imageRef).projects[p] == s.db.projects[p]
  {
  }

  lemma StatusStepsKeepSafe(s: State, a: Action, p: Name)
    requires Safe(s, p) && s.phase.Down? && (a.Resync? || a.Recover?) && Inv(Restart(s, a))
    ensures Safe(Restart(s, a), p)
  {
    Unaffected(s, Restart(s, a), p);
  }

  lemma ReconcileElsewhereKeepsSafe(s: State, a: Action, p: Name)
    requires Safe(s, p) && s.phase.Down? && a.ReconcileRows? && a.project != p && Inv(Restart(s, a))
    ensures Safe(Restart(s, a), p)
  {
    ReconcileElsewhereKeepsRow(s, p, a.project, a.imageRef);
    Unaffected(s, Restart(s, a), p);
  }

  lemma RemovalsKeepSafe(s: State, a: Action, p: Name)
    requires Safe(s, p) && s.phase.Down? && Clean(s, a, p)
    requires !a.ReconcileRows? && !a.Resync? && !a.Recover? && Inv(Restart(s, a))
    ensures Safe(Restart(s, a), p)
  {
    CurrentHasRow(s.db, p);
    if (a.ReconcileStop? || a.ReconcileRemove?) && a.app.project != p {
      Unaffected(s, Restart(s, a), p);
    }
  }

  lemma RestartKeepsSafe(s: State, a: Action, p: Name)
    requires Safe(s, p) && s.phase.Down? && Clean(s, a, p)
    ensures Safe(Restart(s, a), p)
  {
    RestartKeepsInv(s, a);
    if a.ReconcileRows? {
      if a.project != p {
        ReconcileElsewhereKeepsSafe(s, a, p);
      } else if p !in s.phase.reconciled {
        ReconcileRowsKeepSafe(s, p, a.imageRef);
      }
    } else if a.Resync? || a.Recover? {
      StatusStepsKeepSafe(s, a, p);
    } else {
      RemovalsKeepSafe(s, a, p);
    }
  }

  lemma CrashKeepsSafe(s: State, p: Name)
    requires Safe(s, p)
    ensures Safe(Step(s, Crash), p)
  {
  }

  lemma {:induction false} CleanRunKeepsSafe(s: State, actions: seq<Action>, p: Name)
    requires Safe(s, p) && CleanRun(s, actions, p)
    ensures Safe(Run(s, actions), p)
    decreases |actions|
  {
    if actions != [] {
      var a := actions[0];
      CrashKeepsSafe(s, p);
      RequestKeepsSafe(s, a, p);
      if s.phase.Up? { WorkKeepsSafe(s, a, p); } else { RestartKeepsSafe(s, a, p); }
      CleanRunKeepsSafe(Step(s, a), actions[1..], p);
    }
  }

  lemma SomeAppRuns(s: State, p: Name)
    requires Safe(s, p)
    ensures exists d :: IsRunning(s.apps, AppName(p, d))
  {
    var c := s.db.projects[p].current.value;
    if s.phase.Down? && !IsRunning(s.apps, AppName(p, c)) {
      var d :| SoleRunning(s.apps, AppName(p, d));
      assert IsRunning(s.apps, AppName(p, d));
    } else if WorksOn(s, p) {
      assert IsRunning(s.apps, AppName(p, c)) || IsRunning(s.apps, AppName(p, s.pc.id));
    } else {
      assert IsRunning(s.apps, AppName(p, c));
    }
  }

  /** The project has one app container: the running app of the current and only succeeded deployment. */
  ghost predicate OneCurrentApp(s: State, p: Name, d: Id) {
    && p in s.db.projects && s.db.projects[p].current == Some(d)
    && AppsAre(s, p, map[d := true])
    && forall e :: Succeeded(s.db, p, e) <==> e == d
  }

  /**
   * From one running app that is the current deployment's, over every clean run: some app of the
   * project is running at every point; while Brain is up and the worker is elsewhere (after a restart,
   * above all) the project has exactly one app container, and it is the running app of the current and
   * only succeeded deployment; and no job is left running when the worker holds none.
   */
  lemma DeployIsCrashSafe(s: State, actions: seq<Action>, p: Name, c: Id)
    requires Inv(s) && s.phase.Up? && !WorksOn(s, p)
    requires p in s.db.projects && s.db.projects[p].current == Some(c) && AppsAre(s, p, map[c := true])
    requires CleanRun(s, actions, p)
    ensures exists d :: IsRunning(Run(s, actions).apps, AppName(p, d))
    ensures Run(s, actions).phase.Up? && !WorksOn(Run(s, actions), p) ==>
      exists d :: OneCurrentApp(Run(s, actions), p, d)
    ensures Run(s, actions).phase.Up? && !Working(Run(s, actions).pc) ==>
      forall j :: j in Run(s, actions).db.jobs ==> Run(s, actions).db.jobs[j].status != JobRunning
  {
    CleanRunKeepsSafe(s, actions, p);
    var after := Run(s, actions);
    SomeAppRuns(after, p);
    var d := after.db.projects[p].current.value;
    if after.phase.Up? && !WorksOn(after, p) {
      forall e ensures Succeeded(after.db, p, e) <==> e == d {
        assert Succeeded(after.db, p, e) <==> after.db.projects[p].current == Some(e);
      }
      assert OneCurrentApp(after, p, d);
    }
  }

  // ---- Start-up always can finish ----

  lemma {:induction false} RunOfConcat(s: State, a: seq<Action>, b: seq<Action>, p: Name)
    ensures Run(s, a + b) == Run(Run(s, a), b)
    ensures CleanRun(s, a, p) && CleanRun(Run(s, a), b, p) ==> CleanRun(s, a + b, p)
    decreases |a|
  {
    if a == [] {
      assert a + b == b;
    } else {
      RunOfConcat(Step(s, a[0]), a[1..], b, p);
      assert (a + b)[1..] == a[1..] + b;
    }
  }

  function Leftovers(s: State, p: Name, c: Id): set<AppName> {
    set app | app in s.apps && app.project == p && app.deployment != c
  }

  lemma CleanRunOfTwo(s: State, a: Action, b: Action, p: Name)
    ensures Run(s, [a, b]) == Step(Step(s, a), b)
    ensures Clean(s, a, p) && Clean(Step(s, a), b, p) ==> CleanRun(s, [a, b], p)
  {
    RunOfTwo(s, a, b);
    assert [a, b][1..] == [b];
    assert [b][1..] == [];
    assert CleanRun(Step(Step(s, a), b), [], p);
  }

  lemma RemoveLeftover(s: State, p: Name, c: Id, app: AppName)
    requires s.phase.Down? && p !in s.phase.reconciled
    requires CurrentDeployment(s.db, p) == Some(c) && IsRunning(s.apps, AppName(p, c)) && app in Leftovers(s, p, c)
    ensures Step(Step(s, ReconcileStop(app)), ReconcileRemove(app)) == s.(apps := s.apps - {app})
  {
    assert Stopped(s.apps, app) - {app} == s.apps - {app};
  }

  /** Stops and removes the leftovers of a project whose current app is running. */
  lemma {:induction false} RemoveLeftovers(s: State, p: Name, c: Id) returns (actions: seq<Action>)
    requires s.phase.Down? && p !in s.phase.reconciled
    requires CurrentDeployment(s.db, p) == Some(c) && IsRunning(s.apps, AppName(p, c))
    ensures CleanRun(s, actions, p)
    ensures var after := Run(s, actions); after == s.(apps := after.apps) && Settled(after, p)
    decreases Leftovers(s, p, c)
  {
    if Leftovers(s, p, c) == {} {
      actions := [];
      forall app: AppName | app in s.apps && app.project == p ensures app.deployment == c {
        assert app !in Leftovers(s, p, c);
      }
    } else {
      var app :| app in Leftovers(s, p, c);
      var removed := s.(apps := s.apps - {app});
      RemoveLeftover(s, p, c, app);
      CleanRunOfTwo(s, ReconcileStop(app), ReconcileRemove(app), p);
      assert Leftovers(removed, p, c) == Leftovers(s, p, c) - {app};
      var rest := RemoveLeftovers(removed, p, c);
      RunOfConcat(s, [ReconcileStop(app), ReconcileRemove(app)], rest, p);
      actions := [ReconcileStop(app), ReconcileRemove(app)] + rest;
    }
  }

  /** Gives up on the other projects, as after a runtime error of theirs. */
  lemma {:induction false} FinishOthers(s: State, p: Name, todo: set<Name>) returns (actions: seq<Action>)
    requires s.phase.Down? && p !in todo && todo <= s.db.projects.Keys
    ensures CleanRun(s, actions, p)
    ensures Run(s, actions) == s.(phase := Down(s.phase.reconciled + todo, s.phase.resynced))
    decreases todo
  {
    if todo == {} {
      actions := [];
      assert s.phase.reconciled + todo == s.phase.reconciled;
    } else {
      var q :| q in todo;
      var a := ReconcileDone(q, true);
      var rest := FinishOthers(Step(s, a), p, todo - {q});
      actions := [a] + rest;
      assert actions[1..] == rest;
      assert s.phase.reconciled + {q} + (todo - {q}) == s.phase.reconciled + todo;
    }
  }

  function RunningJobs(s: State): set<Id> {
    set j | j in s.db.jobs && s.db.jobs[j].status == JobRunning
  }

  /** Marks every interrupted job failed. */
  lemma {:induction false} RecoverJobs(s: State, p: Name) returns (actions: seq<Action>)
    requires Safe(s, p) && AllResynced(s)
    ensures CleanRun(s, actions, p)
    ensures var after := Run(s, actions); AllResynced(after) && after.pc == s.pc && RunningJobs(after) == {}
    decreases RunningJobs(s)
  {
    if RunningJobs(s) == {} {
      actions := [];
    } else {
      var j := AnyOf(RunningJobs(s));
      var next := Step(s, Recover(j));
      assert RunningJobs(next) == RunningJobs(s) - {j};
      RestartKeepsSafe(s, Recover(j), p);
      var rest := RecoverJobs(next, p);
      actions := [Recover(j)] + rest;
      assert actions[1..] == rest;
    }
  }

  lemma {:induction false} CleanRunReaches(s: State, a: seq<Action>, b: seq<Action>, p: Name)
    returns (both: seq<Action>)
    requires Safe(s, p) && CleanRun(s, a, p) && CleanRun(Run(s, a), b, p)
    ensures both == a + b && CleanRun(s, both, p) && Run(s, both) == Run(Run(s, a), b) && Safe(Run(s, both), p)
  {
    both := a + b;
    RunOfConcat(s, a, b, p);
    CleanRunKeepsSafe(s, both, p);
  }

  lemma RunOfOne(s: State, a: Action, p: Name)
    ensures Run(s, [a]) == Step(s, a)
    ensures Clean(s, a, p) ==> CleanRun(s, [a], p)
  {
    assert [a][1..] == [];
    assert CleanRun(Step(s, a), [], p);
  }

  /** The rows of the project name its running app once ReconcileRows has run. */
  lemma ReconcileRowsKeepsARunningApp(s: State, p: Name)
    requires Safe(s, p) && s.phase.Down? && p !in s.phase.reconciled
    ensures var after := Step(s, ReconcileRows(p, ""));
      Safe(after, p) && KeepsCurrent(after.db, s.apps, p) && after.apps == s.apps && after.phase == s.phase
  {
    RestartKeepsInv(s, ReconcileRows(p, ""));
    ReconcileRowsKeepSafe(s, p, "");
  }

  lemma ProjectDecides(s: State, p: Name) returns (decided: State)
    requires Safe(s, p) && s.phase.Down? && p !in s.phase.reconciled
    ensures decided == Step(s, ReconcileRows(p, "")) && Safe(decided, p) && decided.phase == s.phase
    ensures CleanRun(s, [ReconcileRows(p, "")], p) && Run(s, [ReconcileRows(p, "")]) == decided
    ensures CurrentDeployment(decided.db, p).Some?
    ensures IsRunning(decided.apps, AppName(p, CurrentDeployment(decided.db, p).value))
  {
    decided := Step(s, ReconcileRows(p, ""));
    RunOfOne(s, ReconcileRows(p, ""), p);
    ReconcileRowsKeepsARunningApp(s, p);
  }

  lemma SettledProjectIsDone(s: State, p: Name)
    requires Safe(s, p) && s.phase.Down? && Settled(s, p)
    ensures CleanRun(s, [ReconcileDone(p, false)], p)
    ensures Run(s, [ReconcileDone(p, false)]).phase == Down(s.phase.reconciled + {p}, s.phase.resynced)
  {
    RunOfOne(s, ReconcileDone(p, false), p);
  }

  /** Reconciling the project itself comes to an end. */
  lemma ProjectSettles(s: State, p: Name) returns (actions: seq<Action>)
    requires Safe(s, p) && s.phase.Down? && p !in s.phase.reconciled
    ensures CleanRun(s, actions, p) && Safe(Run(s, actions), p)
    ensures Run(s, actions).phase == Down(s.phase.reconciled + {p}, s.phase.resynced)
  {
    var decided := ProjectDecides(s, p);
    var removals := RemoveLeftovers(decided, p, CurrentDeployment(decided.db, p).value);
    actions := CleanRunReaches(s, [ReconcileRows(p, "")], removals, p);
    SettledProjectIsDone(Run(s, actions), p);
    actions := CleanRunReaches(s, actions, [ReconcileDone(p, false)], p);
  }

  lemma BootIsPossible(s: State, p: Name) returns (actions: seq<Action>)
    requires AllResynced(s) && RunningJobs(s) == {}
    ensures CleanRun(s, actions, p) && Run(s, actions).phase.Up? && Run(s, actions).pc == s.pc
  {
    var order := Listing(set j | j in s.db.jobs && Claimable(s.db, j));
    forall j | j in s.db.jobs ensures s.db.jobs[j].status != JobRunning {
      assert j !in RunningJobs(s);
    }
    actions := [Boot(order)];
    RunOfOne(s, Boot(order), p);
  }

  lemma OthersGiveUp(s: State, p: Name) returns (actions: seq<Action>)
    requires Safe(s, p) && s.phase.Down? && p in s.phase.reconciled
    ensures CleanRun(s, actions, p) && Safe(Run(s, actions), p) && AllReconciled(Run(s, actions))
  {
    actions := FinishOthers(s, p, s.db.projects.Keys - {p});
    CleanRunKeepsSafe(s, actions, p);
  }

  function StaleProjects(s: State): set<Name>
    requires s.phase.Down?
  {
    set q | q in s.db.projects && q !in s.phase.resynced
  }

  /** Syncs the status of every project. */
  lemma {:induction false} ResyncAll(s: State, p: Name) returns (actions: seq<Action>)
    requires Safe(s, p) && AllReconciled(s)
    ensures CleanRun(s, actions, p)
    ensures var after := Run(s, actions); AllResynced(after) && Safe(after, p) && after.pc == s.pc
    decreases StaleProjects(s)
  {
    if StaleProjects(s) == {} {
      actions := [];
      forall q | q in s.db.projects ensures q in s.phase.resynced {
        assert q !in StaleProjects(s);
      }
    } else {
      var q := AnyOf(StaleProjects(s));
      var next := Step(s, Resync(q));
      assert StaleProjects(next) == StaleProjects(s) - {q};
      RestartKeepsSafe(s, Resync(q), p);
      var rest := ResyncAll(next, p);
      actions := [Resync(q)] + rest;
      assert actions[1..] == rest;
    }
  }

  /** From every crash point of a clean run, start-up can be carried to its end by clean steps. */
  lemma RestartCanFinish(s: State, p: Name) returns (actions: seq<Action>)
    requires Safe(s, p) && s.phase.Down?
    ensures CleanRun(s, actions, p)
    ensures Run(s, actions).phase.Up? && Run(s, actions).pc.Idle?
  {
    actions := [];
    if p !in s.phase.reconciled {
      actions := ProjectSettles(s, p);
    }
    var more := OthersGiveUp(Run(s, actions), p);
    actions := CleanRunReaches(s, actions, more, p);
    more := ResyncAll(Run(s, actions), p);
    actions := CleanRunReaches(s, actions, more, p);
    more := RecoverJobs(Run(s, actions), p);
    actions := CleanRunReaches(s, actions, more, p);
    more := BootIsPossible(Run(s, actions), p);
    actions := CleanRunReaches(s, actions, more, p);
  }
}
