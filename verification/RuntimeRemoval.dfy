/** When the removal of a project's runtime can fail with the rows already cleared. */
module RuntimeRemoval {
  import opened Choice
  import opened Tables
  import opened Runtime
  import opened Store
  import opened Workflows
  import opened WorkflowStore
  import opened TeardownRetries
  import opened Cleanup

  /** Calls that all succeed. */
  function Successes(n: nat): seq<CallResult> {
    seq(n, _ => Ok)
  }

  lemma FirstSuccess(n: nat, rest: seq<CallResult>)
    requires n > 0
    ensures FirstResult(Successes(n) + rest) == Ok && RestOf(Successes(n) + rest) == Successes(n - 1) + rest
  {
    assert (Successes(n) + rest)[1..] == Successes(n - 1) + rest;
  }

  /** How many calls the removal of an app makes when all succeed. */
  function CallsFor(r: Resources, app: AppName): nat {
    if app !in r.apps then 1 else if r.apps[app] then 3 else 2
  }

  lemma AppRemovedBySuccesses(r: Resources, app: AppName, p: Name, n: nat, rest: seq<CallResult>)
    requires n >= CallsFor(r, app)
    ensures Retried(TearApp(app), p, r, Successes(n) + rest, 1) ==
      Answer(Ok, r.(apps := r.apps - {app}), Successes(n - CallsFor(r, app)) + rest)
  {
    FirstSuccess(n, rest);
    if app in r.apps {
      FirstSuccess(n - 1, rest);
      if r.apps[app] { FirstSuccess(n - 2, rest); }
      assert r.apps[app := false] - {app} == r.apps - {app};
    } else {
      assert r.apps - {app} == r.apps;
    }
  }

  function CallsForAll(order: seq<AppName>, r: Resources): nat
    decreases |order|
  {
    if order == [] then 0 else CallsFor(r, order[0]) + CallsForAll(order[1..], r.(apps := r.apps - {order[0]}))
  }

  lemma {:induction false} AppsRemovedBySuccesses(order: seq<AppName>, p: Name, r: Resources, rest: seq<CallResult>)
    ensures var a := AppsRemoved(order, p, r, Successes(CallsForAll(order, r)) + rest); a.result.Ok? && a.script == rest
    decreases |order|
  {
    var n := CallsForAll(order, r);
    if order == [] {
      assert Successes(n) + rest == rest;
    } else {
      AppRemovedBySuccesses(r, order[0], p, n, rest);
      AppsRemovedBySuccesses(order[1..], p, r.(apps := r.apps - {order[0]}), rest);
    }
  }

  /** Outcomes under which the apps go, and the database container stays. */
  lemma LateFailure(db: DB, r: Resources, order: seq<AppName>, elsewhere: Elsewhere, p: Name, options: Options)
    returns (script: seq<CallResult>)
    requires p in db.projects && options.removeDatabase && elsewhere.routesRemoved
    ensures RuntimeRemoval(db, r, script, order, elsewhere, p, options).outcome == DatabaseFailed
    ensures RuntimeRemoval(db, r, script, order, elsewhere, p, options).db == ClearRuntime(db, p).value
  {
    var n := CallsForAll(order, r);
    script := Successes(n + 1) + [Permanent];
    FirstSuccess(n + 1, [Permanent]);
    AppsRemovedBySuccesses(order, p, r, [Permanent]);
  }

  /** A removal that fails has left the rows as they were. */
  ghost predicate FailureKeepsRows(db: DB, removal: Removal) {
    !removal.outcome.Cleaned? ==> removal.db == db
  }

  /**
   * Whatever the calls come to and in whatever order the apps are listed, a removal that fails leaves the rows alone.
   */
  ghost predicate NeverHalfDone(db: DB, r: Resources, p: Name, options: Options) {
    forall script, order, elsewhere :: IsOrder(order, AppsOf(r, p)) ==>
      FailureKeepsRows(db, RuntimeRemoval(db, r, script, order, elsewhere, p, options))
  }

  /**
   * For a project with rows to clear, a failing removal is sure to leave the rows alone if and only if the database is
   * not to be removed.
   */
  lemma NeverHalfDoneIff(db: DB, r: Resources, p: Name, options: Options)
    requires p in db.projects && ClearRuntime(db, p) != Some(db)
    ensures NeverHalfDone(db, r, p, options) <==> !options.removeDatabase
  {
    if options.removeDatabase {
      var order := Listing(AppsOf(r, p));
      var elsewhere := Elsewhere(true, true);
      var script := LateFailure(db, r, order, elsewhere, p, options);
      assert !FailureKeepsRows(db, RuntimeRemoval(db, r, script, order, elsewhere, p, options));
    }
  }

  lemma FirstIsListed(order: seq<AppName>, apps: set<AppName>)
    requires IsOrder(order, apps) && order != []
    ensures order[0] in apps
  {
    assert order[0] in order;
  }

  lemma NothingListed(order: seq<AppName>, r: Resources)
    requires r.apps == map[] && IsOrder(order, AppsOf(r, "p"))
    ensures order == []
  {
    if order != [] { FirstIsListed(order, AppsOf(r, "p")); }
  }

  /**
   * The program in that situation: one current deployment, and a runtime that will not say whether the database is
   * there.
   */
  method RemovalHalfDone() returns (outcome: Outcome, before: DB, after: DB)
    ensures outcome == DatabaseFailed
    ensures "p" in before.projects && before.projects["p"].current == Some(1) && Succeeded(before, "p", 1)
    ensures "p" in after.projects && after.projects["p"].current == None && !Succeeded(after, "p", 1)
  {
    var db := new BrainStore(DB(
      map["p" := Project(ProjectRunning, Some(1))],
      map[1 := Deployment("p", AppName("p", 1), "image", DeploymentSucceeded)],
      map[1 := Job("p", JobSucceeded, 1, None)]));
    var rows := new WorkflowRows(WorkflowTables(map[], map[], map[]));
    var runtime := new ContainerRuntime(Resources(map[], {}, map["p" := true], {"p"}), [Ok, Permanent]);
    var cleaner := new ProjectCleaner(db, rows, runtime);
    before := db.View();
    ghost var resources := runtime.View();
    ghost var order;
    outcome, order := cleaner.RemoveRuntime("p", Options(true, false), Elsewhere(true, true));
    after := db.View();
    NothingListed(order, resources);
  }
}
