/** Start-up ends: a measure that every step of it makes smaller, and a step as long as it has not ended. */
module StartUp {
  import opened Choice
  import opened Tables
  import opened Containers
  import opened Engine
  import opened ProjectStatuses

  predicate IsRestart(a: Action) {
    a.ReconcileRows? || a.ReconcileStop? || a.ReconcileRemove? || a.ReconcileDone? || a.Resync? || a.Recover? || a.Boot?
  }

  /** The rows of the project already are what reconciliation makes of them. */
  ghost predicate RowsAreDone(s: State, p: Name) {
    p in s.db.projects && KeepsCurrent(s.db, s.apps, p) && s.db.projects[p].status == DeriveStatus(s.db, p)
  }

  function Unreconciled(s: State): set<Name>
    requires s.phase.Down?
  {
    s.db.projects.Keys - s.phase.reconciled
  }

  ghost function Undecided(s: State): set<Name>
    requires s.phase.Down?
  {
    set p | p in Unreconciled(s) && !RowsAreDone(s, p)
  }

  function Running(s: State): set<AppName> {
    set app | app in s.apps && s.apps[app]
  }

  function Stale(s: State): set<Name>
    requires s.phase.Down?
  {
    s.db.projects.Keys - s.phase.resynced
  }

  function Interrupted(s: State): set<Id> {
    set j | j in s.db.jobs && s.db.jobs[j].status == JobRunning
  }

  /** How many steps start-up can still make, at most. */
  ghost function Remaining(s: State): nat {
    if s.phase.Up? then 0
    else
      |Unreconciled(s)| + |Undecided(s)| + |s.apps.Keys| + |Running(s)| + |Stale(s)| + |Interrupted(s)| + 1
  }

  lemma {:induction false} SmallerSet<T>(less: set<T>, more: set<T>)
    requires less <= more
    ensures |less| <= |more| && (less != more ==> |less| < |more|)
  {
    if less != more {
      var rest := more - less;
      assert more == less + rest && rest != {};
    }
  }

  // ---- Reconciliation ----

  lemma SupersedesNothing(db: DB, p: Name, d: Id)
    requires CurrentIsSoleSucceeded(db) && p in db.projects && db.projects[p].current == Some(d)
    ensures SupersedeAllBut(db.deployments, p, Some(d)) == db.deployments
  {
    var kept := SupersedeAllBut(db.deployments, p, Some(d));
    forall e | e in db.deployments ensures kept[e] == db.deployments[e] {
      assert Succeeded(db, p, e) <==> db.projects[p].current == Some(e);
    }
  }

  /** With the pointer invariant, normalising to the deployment that is current only derives the status again. */
  lemma NormalizeCurrent(db: DB, p: Name, d: Id)
    requires CurrentIsSoleSucceeded(db) && p in db.projects && db.projects[p].current == Some(d)
    ensures Normalize(db, p, d) == Some(SyncStatus(db, p))
  {
    assert Succeeded(db, p, d);
    var kept := db.deployments[d := db.deployments[d].(status := DeploymentSucceeded)];
    assert kept == db.deployments;
    SupersedesNothing(db, p, d);
    assert db.projects[p := db.projects[p].(current := Some(d))] == db.projects;
    assert WithCurrent(db.(deployments := SupersedeAllBut(kept, p, Some(d))), p, Some(d)) == db;
  }

  lemma DoneRowsStay(s: State, p: Name, imageRef: string)
    requires Inv(s) && RowsAreDone(s, p)
    ensures Reconciled(s, p, imageRef) == s.db
  {
    NormalizeCurrent(s.db, p, CurrentDeployment(s.db, p).value);
    assert SyncStatus(s.db, p) == s.db;
  }

  /** What a reconciliation transaction makes of the project is done. */
  lemma NormalizedIsDone(s: State, upserted: DB, p: Name, d: Id)
    requires Normalize(upserted, p, d).Some? && IsRunning(s.apps, AppName(p, d))
    ensures RowsAreDone(s.(db := Normalize(upserted, p, d).value), p)
  {
    var after := Normalize(upserted, p, d).value;
    SyncAgrees(WithCurrent(upserted.(deployments := after.deployments), p, Some(d)), p);
  }

  lemma DecidedRowsAreDone(s: State, p: Name, imageRef: string)
    requires Inv(s) && p in s.db.projects && Reconciled(s, p, imageRef) != s.db
    ensures RowsAreDone(s.(db := Reconciled(s, p, imageRef)), p)
  {
    if KeepsCurrent(s.db, s.apps, p) {
      NormalizedIsDone(s, s.db, p, CurrentDeployment(s.db, p).value);
    } else {
      var d := KeptDeployment(s.db, s.apps, p).value;
      var row := if d in s.db.deployments
        then s.db.deployments[d].(app := AppName(p, d), imageRef := imageRef)
        else Deployment(p, AppName(p, d), imageRef, DeploymentSucceeded);
      NormalizedIsDone(s, s.db.(deployments := s.db.deployments[d := row]), p, d);
    }
  }

  lemma ReconciledIsLocal(s: State, p: Name, imageRef: string, q: Name)
    requires Inv(s) && p in s.db.projects && q in s.db.projects && q != p
    ensures var after := Reconciled(s, p, imageRef);
      && after.projects.Keys == s.db.projects.Keys && SameInputs(s.db, after, q)
      && s.db.deployments.Keys <= after.deployments.Keys && after.jobs == s.db.jobs
  {
  }

  lemma OtherRowsStayDone(s: State, p: Name, imageRef: string, q: Name)
    requires Inv(s) && p in s.db.projects && q != p && RowsAreDone(s, q)
    ensures RowsAreDone(s.(db := Reconciled(s, p, imageRef)), q)
  {
    ReconciledIsLocal(s, p, imageRef, q);
    SameInputsSameStatus(s.db, Reconciled(s, p, imageRef), q);
  }

  lemma KeysStay(s: State, p: Name, imageRef: string)
    requires Inv(s) && p in s.db.projects
    ensures Reconciled(s, p, imageRef).projects.Keys == s.db.projects.Keys
    ensures Reconciled(s, p, imageRef).jobs == s.db.jobs
  {
  }

  lemma ReconcileRowsShrinks(s: State, p: Name, imageRef: string)
    requires Inv(s) && s.phase.Down? && Step(s, ReconcileRows(p, imageRef)) != s
    ensures Remaining(Step(s, ReconcileRows(p, imageRef))) < Remaining(s)
  {
    var after := Step(s, ReconcileRows(p, imageRef));
    assert after == s.(db := Reconciled(s, p, imageRef)) && after.db != s.db;
    if RowsAreDone(s, p) { DoneRowsStay(s, p, imageRef); }
    DecidedRowsAreDone(s, p, imageRef);
    KeysStay(s, p, imageRef);
    forall q | q in Undecided(after) ensures q in Undecided(s) && q != p {
      if q != p && RowsAreDone(s, q) { OtherRowsStayDone(s, p, imageRef, q); }
    }
    assert p in Undecided(s);
    SmallerSet(Undecided(after), Undecided(s));
    assert Interrupted(after) == Interrupted(s);
  }

  /** Stopping or removing a leftover leaves every decision as it is. */
  lemma LeftoverIsNotKept(s: State, app: AppName, apps: map<AppName, bool>, q: Name)
    requires Leftover(s, app) && RowsAreDone(s, q)
    requires apps == Stopped(s.apps, app) || apps == s.apps - {app}
    ensures RowsAreDone(s.(apps := apps), q)
  {
  }

  lemma ReconcileStopShrinks(s: State, app: AppName)
    requires s.phase.Down? && Step(s, ReconcileStop(app)) != s
    ensures Remaining(Step(s, ReconcileStop(app))) < Remaining(s)
  {
    var after := Step(s, ReconcileStop(app));
    assert after == s.(apps := Stopped(s.apps, app)) && after.apps != s.apps;
    forall q | q in Undecided(after) ensures q in Undecided(s) {
      if RowsAreDone(s, q) { LeftoverIsNotKept(s, app, after.apps, q); }
    }
    SmallerSet(Undecided(after), Undecided(s));
    assert after.apps.Keys == s.apps.Keys;
    assert app in Running(s) && app !in Running(after);
    SmallerSet(Running(after), Running(s));
    assert Interrupted(after) == Interrupted(s);
  }

  lemma ReconcileRemoveShrinks(s: State, app: AppName)
    requires s.phase.Down? && Step(s, ReconcileRemove(app)) != s
    ensures Remaining(Step(s, ReconcileRemove(app))) < Remaining(s)
  {
    var after := Step(s, ReconcileRemove(app));
    assert after == s.(apps := s.apps - {app}) && after.apps != s.apps;
    forall q | q in Undecided(after) ensures q in Undecided(s) {
      if RowsAreDone(s, q) { LeftoverIsNotKept(s, app, after.apps, q); }
    }
    SmallerSet(Undecided(after), Undecided(s));
    assert app in s.apps.Keys && app !in after.apps.Keys;
    SmallerSet(after.apps.Keys, s.apps.Keys);
    SmallerSet(Running(after), Running(s));
    assert Interrupted(after) == Interrupted(s);
  }

  lemma AddedAgain<T>(items: set<T>, item: T)
    ensures item in items ==> items + {item} == items
  {
  }

  lemma ReconcileDoneShrinks(s: State, p: Name, failed: bool)
    requires s.phase.Down? && Step(s, ReconcileDone(p, failed)) != s
    ensures Remaining(Step(s, ReconcileDone(p, failed))) < Remaining(s)
  {
    var after := Step(s, ReconcileDone(p, failed));
    AddedAgain(s.phase.reconciled, p);
    assert p in Unreconciled(s) && p !in Unreconciled(after);
    SmallerSet(Unreconciled(after), Unreconciled(s));
    forall q | q in Undecided(after) ensures q in Undecided(s) {
      assert RowsAreDone(after, q) <==> RowsAreDone(s, q);
    }
    SmallerSet(Undecided(after), Undecided(s));
    assert Stale(after) == Stale(s) && Interrupted(after) == Interrupted(s) && Running(after) == Running(s);
  }

  // ---- Statuses, jobs and the start ----

  lemma NothingUndecided(s: State)
    requires AllReconciled(s)
    ensures Unreconciled(s) == {} && Undecided(s) == {}
  {
  }

  lemma SyncedAgain(s: State, p: Name)
    requires ResyncedAgree(s) && s.phase.Down? && p in s.db.projects
    ensures p in s.phase.resynced ==> SyncStatus(s.db, p) == s.db
  {
  }

  lemma ResyncShrinks(s: State, p: Name)
    requires Inv(s) && ResyncedAgree(s) && s.phase.Down? && Step(s, Resync(p)) != s
    ensures Remaining(Step(s, Resync(p))) < Remaining(s)
  {
    var after := Step(s, Resync(p));
    AddedAgain(s.phase.resynced, p);
    SyncedAgain(s, p);
    NothingUndecided(s);
    NothingUndecided(after);
    assert p in Stale(s) && p !in Stale(after);
    SmallerSet(Stale(after), Stale(s));
    assert Interrupted(after) == Interrupted(s) && Running(after) == Running(s);
  }

  lemma RecoverShrinks(s: State, id: Id)
    requires Inv(s) && s.phase.Down? && Step(s, Recover(id)) != s
    ensures Remaining(Step(s, Recover(id))) < Remaining(s)
  {
    var after := Step(s, Recover(id));
    NothingUndecided(s);
    NothingUndecided(after);
    assert id in Interrupted(s) && id !in Interrupted(after);
    SmallerSet(Interrupted(after), Interrupted(s));
    assert Stale(after) == Stale(s) && Running(after) == Running(s);
  }

  lemma RestartShrinks(s: State, a: Action)
    requires Inv(s) && ResyncedAgree(s) && s.phase.Down? && IsRestart(a) && Step(s, a) != s
    ensures Remaining(Step(s, a)) < Remaining(s)
  {
    match a {
      case ReconcileRows(p, imageRef) => ReconcileRowsShrinks(s, p, imageRef);
      case ReconcileStop(app) => ReconcileStopShrinks(s, app);
      case ReconcileRemove(app) => ReconcileRemoveShrinks(s, app);
      case ReconcileDone(p, failed) => ReconcileDoneShrinks(s, p, failed);
      case Resync(p) => ResyncShrinks(s, p);
      case Recover(id) => RecoverShrinks(s, id);
      case Boot(_) =>
    }
  }

  lemma UpIgnoresRestart(s: State, a: Action)
    requires s.phase.Up? && s.pc.Idle? && IsRestart(a)
    ensures Step(s, a) == s
  {
  }

  lemma RestartKeepsIdle(s: State, a: Action)
    requires s.phase.Down? && s.pc.Idle? && IsRestart(a)
    ensures Step(s, a).pc.Idle?
  {
  }

  lemma BootOfAll(s: State) returns (a: Action)
    requires AllResynced(s) && Interrupted(s) == {}
    ensures IsRestart(a) && Step(s, a) != s
  {
    var order := Listing(set j | j in s.db.jobs && Claimable(s.db, j));
    forall j | j in s.db.jobs ensures s.db.jobs[j].status != JobRunning {
      assert j !in Interrupted(s);
    }
    a := Boot(order);
    assert Step(s, a).phase.Up?;
  }

  lemma LastSteps(s: State) returns (a: Action)
    requires Inv(s) && AllResynced(s)
    ensures IsRestart(a) && Step(s, a) != s
  {
    if Interrupted(s) != {} {
      var j := AnyOf(Interrupted(s));
      a := Recover(j);
      assert j !in Interrupted(Step(s, a));
    } else {
      a := BootOfAll(s);
    }
  }

  lemma NothingMissing<T>(all: set<T>, done: set<T>)
    requires all - done == {}
    ensures all <= done
  {
    assert forall item :: item in all && item !in done ==> item in all - done;
  }

  /** As long as start-up has not ended, it has a step to make. */
  lemma StartUpGoesOn(s: State) returns (a: Action)
    requires Inv(s) && s.phase.Down?
    ensures IsRestart(a) && Step(s, a) != s
  {
    if Unreconciled(s) != {} {
      var p := AnyOf(Unreconciled(s));
      a := ReconcileDone(p, true);
      assert p in Step(s, a).phase.reconciled;
    } else {
      NothingMissing(s.db.projects.Keys, s.phase.reconciled);
      if Stale(s) != {} {
        var p := AnyOf(Stale(s));
        a := Resync(p);
        assert p in Step(s, a).phase.resynced;
      } else {
        NothingMissing(s.db.projects.Keys, s.phase.resynced);
        a := LastSteps(s);
      }
    }
  }

  /** How many of the steps change anything. */
  ghost function StepsMade(s: State, actions: seq<Action>): nat
    decreases |actions|
  {
    if actions == [] then 0
    else (if Step(s, actions[0]) != s then 1 else 0) + StepsMade(Step(s, actions[0]), actions[1..])
  }

  ghost predicate OnlyRestart(actions: seq<Action>) {
    forall i :: 0 <= i < |actions| ==> IsRestart(actions[i])
  }

  lemma {:induction false} StartUpIsBounded(s: State, actions: seq<Action>)
    requires Inv(s) && ResyncedAgree(s) && s.pc.Idle? && OnlyRestart(actions)
    ensures Inv(Run(s, actions)) && StepsMade(s, actions) + Remaining(Run(s, actions)) <= Remaining(s)
    decreases |actions|
  {
    if actions != [] {
      var a := actions[0];
      StepKeepsInv(s, a);
      StepKeepsResynced(s, a);
      if s.phase.Up? {
        UpIgnoresRestart(s, a);
      } else {
        RestartKeepsIdle(s, a);
        if Step(s, a) != s { RestartShrinks(s, a); }
      }
      StartUpIsBounded(Step(s, a), actions[1..]);
    }
  }

  /**
   * After every run that ends in a crash or in the middle of start-up: in whatever order start-up goes on with its
   * steps, whatever it gives up on and whatever images it reads, it makes no more than Remaining(s) steps that change
   * anything; and when no step of it changes anything any more, the worker has been started.
   */
  lemma StartUpEnds(before: seq<Action>, actions: seq<Action>)
    requires Run(INITIAL, before).phase.Down? && OnlyRestart(actions)
    ensures var s := Run(INITIAL, before); var end := Run(s, actions);
      && StepsMade(s, actions) + Remaining(end) <= Remaining(s)
      && ((forall a :: IsRestart(a) ==> Step(end, a) == end) ==> end.phase.Up?)
  {
    var s := Run(INITIAL, before);
    RunKeepsInv(INITIAL, before);
    RunKeepsResynced(INITIAL, before);
    StartUpIsBounded(s, actions);
    if Run(s, actions).phase.Down? {
      var a := StartUpGoesOn(Run(s, actions));
    }
  }
}
