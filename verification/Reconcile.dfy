/**
 * Start-up reconciliation of one project: which app is kept, what happens to rows and containers,
 * and that doing it again changes nothing.
 */
module Reconcile {
  import opened Tables
  import opened Containers
  import opened Runtime
  import opened Store
  import ProjectStatuses

  /** Whether reconciliation has anything to do, and with which deployment it ends. */
  ghost predicate Keeps(db: DB, apps: map<AppName, bool>, p: Name, keep: Id) {
    KeptDeployment(db, apps, p) == Some(keep)
  }

  lemma RunningAppsOf(apps: map<AppName, bool>, p: Name, running: set<AppName>)
    requires running == set app | app in apps && app.project == p && apps[app]
    requires exists d :: SoleRunning(apps, AppName(p, d))
    ensures |running| == 1
  {
    var d :| SoleRunning(apps, AppName(p, d));
    assert running == {AppName(p, d)};
  }

  lemma OnlyMember(items: set<AppName>, item: AppName)
    requires |items| == 1 && item in items
    ensures items == {item}
  {
    var rest := items - {item};
    assert |rest| == 0;
  }

  function RunningApps(apps: map<AppName, bool>, p: Name): set<AppName> {
    set app | app in apps && app.project == p && apps[app]
  }

  /**
   * The decision: the app of the current deployment if it runs; if not, the only app of the project that runs; and
   * none if several run or none does.
   */
  lemma KeptDeploymentIs(db: DB, apps: map<AppName, bool>, p: Name)
    ensures var running, kept := RunningApps(apps, p), KeptDeployment(db, apps, p);
      var current := CurrentDeployment(db, p);
      if current.Some? && AppName(p, current.value) in running then kept == current
      else if |running| == 1 then kept.Some? && running == {AppName(p, kept.value)}
      else kept.None?
  {
    var running := RunningApps(apps, p);
    if exists d :: SoleRunning(apps, AppName(p, d)) {
      RunningAppsOf(apps, p, running);
      var d :| SoleRunning(apps, AppName(p, d));
      assert forall other: AppName :: other in running ==> other == AppName(p, d);
    } else if |running| == 1 {
      var app :| app in running;
      OnlyMember(running, app);
      assert forall other: AppName :: other.project == p && IsRunning(apps, other) ==> other in running;
      assert SoleRunning(apps, AppName(p, app.deployment));
    }
  }

  class Reconciler {
    const db: BrainStore
    const runtime: ContainerRuntime

    constructor (db: BrainStore, runtime: ContainerRuntime)
      ensures this.db == db && this.runtime == runtime
    {
      this.db, this.runtime := db, runtime;
    }

    /** Removes the listed apps except the kept one, in any order; stops at the first failure. */
    method RemoveOtherProjectApps(listed: set<AppName>, p: Name, keep: Id) returns (result: CallResult)
      requires listed == AppsOf(runtime.View(), p)
      modifies runtime`apps, runtime`script, runtime`history
      ensures NoFaults(old(runtime.script)) ==> result.Ok?
      ensures result.Ok? ==> runtime.apps == OnlyApp(old(runtime.apps), p, keep)
      ensures OnlyTearsDown(old(runtime.View()), runtime.View(), p)
      ensures AppName(p, keep) in old(runtime.apps) ==>
        AppName(p, keep) in runtime.apps && runtime.apps[AppName(p, keep)] == old(runtime.apps)[AppName(p, keep)]
    {
      result := Ok;
      var rest := listed;
      while rest != {}
        invariant result.Ok? && (NoFaults(old(runtime.script)) ==> NoFaults(runtime.script))
        invariant rest <= AppsOf(runtime.View(), p)
        invariant runtime.apps.Keys <= old(runtime.apps.Keys)
        invariant forall app :: app in runtime.apps ==> runtime.apps[app] == old(runtime.apps)[app]
        invariant forall app ::
          app in old(runtime.apps) && (app.project != p || app.deployment == keep || app in rest) ==>
          app in runtime.apps
        invariant forall app :: app in runtime.apps && app.project == p && app.deployment != keep ==> app in rest
        decreases rest
      {
        var app :| app in rest;
        if app.deployment != keep {
          result := runtime.RemoveProjectApp(app);
          if !result.Ok? {
            return;
          }
        }
        rest := rest - {app};
      }
    }

    /**
     * On success with an app to keep, rows and containers are those of ReconciledRows and OnlyApp; with
     * none to keep nothing changes. On failure rows changed completely or not at all, and the kept app
     * and all other projects are untouched.
     */
    method ReconcileProject(p: Name, imageRef: string) returns (ok: bool)
      modifies db, runtime`apps, runtime`script, runtime`history
      ensures var rows := ReconciledRows(old(db.View()), old(runtime.apps), p, imageRef);
        && (ok ==> rows.Some? && db.View() == rows.value)
        && (!ok ==> db.View() == old(db.View()) || (rows.Some? && db.View() == rows.value))
        && (NoFaults(old(runtime.script)) && rows.Some? ==> ok)
      ensures KeptDeployment(old(db.View()), old(runtime.apps), p).None? ==>
        db.View() == old(db.View()) && runtime.apps == old(runtime.apps)
      ensures forall keep :: Keeps(old(db.View()), old(runtime.apps), p, keep) && ok ==>
        runtime.apps == OnlyApp(old(runtime.apps), p, keep)
      ensures forall keep :: Keeps(old(db.View()), old(runtime.apps), p, keep) ==>
        IsRunning(runtime.apps, AppName(p, keep))
      ensures OnlyTearsDown(old(runtime.View()), runtime.View(), p)
    {
      var current := CurrentDeployment(db.View(), p);
      var result, listed := runtime.ListProjectApps(p);
      if !result.Ok? {
        return false;
      }
      var running := set app | app in listed && runtime.apps[app];
      if current.Some? && AppName(p, current.value) in running {
        ok := db.NormalizeProjectCurrentDeployment(p, current.value);
        if !ok {
          return;
        }
        result := RemoveOtherProjectApps(listed, p, current.value);
        return result.Ok?;
      }
      assert !KeepsCurrent(db.View(), runtime.apps, p);
      if |running| == 1 {
        var app :| app in running;
        OnlyMember(running, app);
        assert forall other: AppName :: other.project == p && IsRunning(runtime.apps, other) ==> other in running;
        assert SoleRunning(runtime.apps, AppName(p, app.deployment));
        ok := db.PromoteProjectAppRuntime(app, imageRef);
        if !ok {
          return;
        }
        result := RemoveOtherProjectApps(listed, p, app.deployment);
        return result.Ok?;
      }
      if exists d :: SoleRunning(runtime.apps, AppName(p, d)) {
        RunningAppsOf(runtime.apps, p, running);
      }
      return true;
    }
  }

  lemma NormalizeTwice(db: DB, p: Name, d: Id)
    requires Normalize(db, p, d).Some?
    ensures Normalize(Normalize(db, p, d).value, p, d) == Normalize(db, p, d)
  {
    var once := Normalize(db, p, d).value;
    var twice := Normalize(once, p, d).value;
    var middle := WithCurrent(db.(deployments := once.deployments), p, Some(d));
    assert twice.deployments == once.deployments;
    assert WithCurrent(once.(deployments := once.deployments), p, Some(d)) == once;
    ProjectStatuses.SyncAgrees(middle, p);
  }

  /**
   * A reconciliation that keeps an app leaves it as the project's only container, running, and as the
   * only succeeded and current deployment; reconciling the result again changes nothing.
   */
  lemma ReconciliationIsFixpoint(db: DB, apps: map<AppName, bool>, p: Name, imageRef: string, again: string, keep: Id)
    requires ForeignKeys(db) && Keeps(db, apps, p, keep) && ReconciledRows(db, apps, p, imageRef).Some?
    ensures var rows, left := ReconciledRows(db, apps, p, imageRef).value, OnlyApp(apps, p, keep);
      && IsRunning(left, AppName(p, keep))
      && (forall app: AppName :: app in left && app.project == p ==> app == AppName(p, keep))
      && (forall d :: Succeeded(rows, p, d) <==> d == keep) && rows.projects[p].current == Some(keep)
      && Keeps(rows, left, p, keep)
      && ReconciledRows(rows, left, p, again) == Some(rows) && OnlyApp(left, p, keep) == left
  {
    var rows, left := ReconciledRows(db, apps, p, imageRef).value, OnlyApp(apps, p, keep);
    forall app: AppName | app in left && app.project == p ensures app == AppName(p, keep) {
      assert app.deployment == keep;
    }
    assert OnlyApp(left, p, keep) == left;
    if KeepsCurrent(db, apps, p) {
      NormalizeRepairsPointer(db, p, keep);
      NormalizeTwice(db, p, keep);
    } else {
      var row := if keep in db.deployments
        then db.deployments[keep].(app := AppName(p, keep), imageRef := imageRef)
        else Deployment(p, AppName(p, keep), imageRef, DeploymentSucceeded);
      var upserted := db.(deployments := db.deployments[keep := row]);
      NormalizeRepairsPointer(upserted, p, keep);
      NormalizeTwice(upserted, p, keep);
    }
  }
}
