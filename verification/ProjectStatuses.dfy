/**
 * The cached project status against the derived one: over every run of the engine the column equals
 * deriveProjectStatus, as long as runtime requests write it only when that is what it derives to.
 */
module ProjectStatuses {
  import opened Tables
  import opened Containers
  import opened Engine

  ghost predicate StatusesAgree(db: DB) {
    forall p :: p in db.projects ==> db.projects[p].status == DeriveStatus(db, p)
  }

  // ---- What a status says about the rows ----

  ghost predicate HasUnfinishedJob(db: DB, p: Name) {
    exists j :: j in db.jobs && db.jobs[j].project == p && db.jobs[j].status in {JobQueued, JobRunning}
  }

  /** The job with the greatest creation time, and of these the greatest ID, has failed. */
  ghost predicate LastJobFailed(db: DB, p: Name) {
    exists j :: j in db.jobs && db.jobs[j].project == p && db.jobs[j].status == JobFailed && ComesLast(db, p, j)
  }

  ghost predicate ComesLast(db: DB, p: Name, j: Id)
    requires j in db.jobs
  {
    forall k :: k in db.jobs && db.jobs[k].project == p ==>
      db.jobs[k].createdAt < db.jobs[j].createdAt || (db.jobs[k].createdAt == db.jobs[j].createdAt && k <= j)
  }

  /** The rows are such that `status` is what the project's status should say. */
  ghost predicate Tells(db: DB, p: Name, status: ProjectStatus)
    requires p in db.projects
  {
    match status
    case ProjectDeploying => HasUnfinishedJob(db, p)
    case ProjectStopped =>
      !HasUnfinishedJob(db, p) && db.projects[p].current.Some? && db.projects[p].status == ProjectStopped
    case ProjectRunning =>
      !HasUnfinishedJob(db, p) && db.projects[p].current.Some? && db.projects[p].status != ProjectStopped
    case ProjectFailed => !HasUnfinishedJob(db, p) && db.projects[p].current.None? && LastJobFailed(db, p)
    case ProjectIdle => !HasUnfinishedJob(db, p) && db.projects[p].current.None? && !LastJobFailed(db, p)
  }

  lemma ActiveIsUnfinished(db: DB, p: Name)
    ensures HasActiveJob(db, p) <==> HasUnfinishedJob(db, p)
  {
    assert forall j :: ActiveJob(db, p, j) <==>
      j in db.jobs && db.jobs[j].project == p && db.jobs[j].status in {JobQueued, JobRunning};
  }

  lemma LatestComesLast(db: DB, p: Name, j: Id)
    requires j in db.jobs && db.jobs[j].project == p
    ensures IsLatestJob(db, p, j) <==> ComesLast(db, p, j)
  {
  }

  lemma LatestFailedIsLastFailed(db: DB, p: Name)
    ensures LatestJobFailed(db, p) <==> LastJobFailed(db, p)
  {
    forall j | j in db.jobs && db.jobs[j].project == p ensures IsLatestJob(db, p, j) <==> ComesLast(db, p, j) {
      LatestComesLast(db, p, j);
    }
  }

  /** The derived status is the only one that tells what the rows are. */
  lemma DerivedTells(db: DB, p: Name, status: ProjectStatus)
    requires p in db.projects
    ensures Tells(db, p, status) <==> status == DeriveStatus(db, p)
  {
    ActiveIsUnfinished(db, p);
    LatestFailedIsLastFailed(db, p);
  }

  /** The status column of every project has a value if and only if the rows are such that it should. */
  ghost predicate ColumnTells(db: DB) {
    forall p, status :: p in db.projects ==> (db.projects[p].status == status <==> Tells(db, p, status))
  }

  lemma ColumnTellsIff(db: DB)
    ensures ColumnTells(db) <==> StatusesAgree(db)
  {
    forall p, status | p in db.projects ensures Tells(db, p, status) <==> status == DeriveStatus(db, p) {
      DerivedTells(db, p, status);
    }
    assert forall p :: p in db.projects ==> Tells(db, p, DeriveStatus(db, p));
  }

  ghost predicate DeployingMeansActive(db: DB) {
    forall p :: p in db.projects && db.projects[p].status == ProjectDeploying ==> HasActiveJob(db, p)
  }

  /** Rows of project `q` are the same in both tables, as far as its status reads them. */
  ghost predicate SameInputs(db: DB, after: DB, q: Name) {
    && q in db.projects && q in after.projects && db.projects[q] == after.projects[q]
    && (forall j :: j in db.jobs && db.jobs[j].project == q ==> j in after.jobs && after.jobs[j] == db.jobs[j])
    && (forall j :: j in after.jobs && after.jobs[j].project == q ==> j in db.jobs && after.jobs[j] == db.jobs[j])
  }

  lemma SameInputsSameStatus(db: DB, after: DB, q: Name)
    requires SameInputs(db, after, q)
    ensures DeriveStatus(after, q) == DeriveStatus(db, q)
    ensures HasActiveJob(after, q) <==> HasActiveJob(db, q)
  {
    assert forall j :: ActiveJob(after, q, j) <==> ActiveJob(db, q, j);
    forall j ensures IsLatestJob(after, q, j) <==> IsLatestJob(db, q, j) {
    }
  }

  lemma StatusColumnIsNotRead(db: DB, p: Name, status: ProjectStatus)
    requires p in db.projects
    ensures HasActiveJob(WithStatus(db, p, status), p) <==> HasActiveJob(db, p)
    ensures LatestJobFailed(WithStatus(db, p, status), p) <==> LatestJobFailed(db, p)
  {
    var after := WithStatus(db, p, status);
    assert forall j :: ActiveJob(after, p, j) <==> ActiveJob(db, p, j);
    forall j ensures IsLatestJob(after, p, j) <==> IsLatestJob(db, p, j) {
    }
  }

  /** Syncing makes the cached status the derived one; syncing again changes nothing. */
  lemma SyncAgrees(db: DB, p: Name)
    requires p in db.projects
    ensures SyncStatus(db, p).projects[p].status == DeriveStatus(SyncStatus(db, p), p)
    ensures SyncStatus(SyncStatus(db, p), p) == SyncStatus(db, p)
    ensures SyncStatus(db, p).projects[p].status == ProjectDeploying ==> HasActiveJob(SyncStatus(db, p), p)
  {
    StatusColumnIsNotRead(db, p, DeriveStatus(db, p));
  }

  lemma DirectWriteDerives(db: DB, p: Name, status: ProjectStatus)
    requires p in db.projects && (status == ProjectStopped || status == ProjectRunning)
    ensures DeriveStatus(WithStatus(db, p, status), p) == status <==>
      !HasActiveJob(db, p) && db.projects[p].current.Some?
  {
    StatusColumnIsNotRead(db, p, status);
  }

  /** The runtime service's direct write agrees exactly when no job is active and a deployment is current. */
  lemma DirectWriteAgreesIff(db: DB, p: Name, status: ProjectStatus)
    requires StatusesAgree(db) && p in db.projects && (status == ProjectStopped || status == ProjectRunning)
    ensures StatusesAgree(WithStatus(db, p, status)) <==> !HasActiveJob(db, p) && db.projects[p].current.Some?
  {
    var after := WithStatus(db, p, status);
    DirectWriteDerives(db, p, status);
    forall q | q in db.projects && q != p ensures after.projects[q].status == DeriveStatus(after, q) {
      SameInputsSameStatus(db, after, q);
    }
  }

  /**
   * What a promotion makes of the cached status: "running" if and only if it was not "stopped". So a stop
   * request that lands during a deploy outlives it, although the deployment it promotes is the one that runs.
   */
  lemma StatusAfterPromotionIff(db: DB, j: Id, p: Name, result: DeploymentResult)
    requires OneActiveJob(db) && PromoteJob(db, j, p, result).Some? && db.jobs[j].project == p
    ensures var status := PromoteJob(db, j, p, result).value.projects[p].status;
      && (status == ProjectRunning <==> db.projects[p].status != ProjectStopped)
      && (status == ProjectStopped <==> db.projects[p].status == ProjectStopped)
  {
    var after := PromoteJob(db, j, p, result).value;
    var middle := WithCurrent(WithJobStatus(db, j, JobSucceeded).(deployments := after.deployments), p, Some(j));
    if HasActiveJob(middle, p) {
      var k :| ActiveJob(middle, p, k);
      assert ActiveJob(db, p, k) && ActiveJob(db, p, j);
    }
  }

  /** A transaction that rewrites rows of `p` only and ends with a sync keeps both properties. */
  lemma SyncedTransactionAgrees(db: DB, middle: DB, p: Name)
    requires p in middle.projects && db.projects.Keys <= middle.projects.Keys <= db.projects.Keys + {p}
    requires forall q :: q in db.projects && q != p ==> SameInputs(db, middle, q)
    ensures StatusesAgree(db) ==> StatusesAgree(SyncStatus(middle, p))
    ensures DeployingMeansActive(db) ==> DeployingMeansActive(SyncStatus(middle, p))
  {
    var after := SyncStatus(middle, p);
    SyncAgrees(middle, p);
    forall q | q in after.projects && q != p
      ensures SameInputs(db, after, q)
      ensures DeriveStatus(after, q) == DeriveStatus(db, q) && (HasActiveJob(after, q) <==> HasActiveJob(db, q))
    {
      assert SameInputs(db, middle, q);
      SameInputsSameStatus(db, after, q);
    }
  }

  lemma ClaimAgrees(db: DB, j: Id)
    requires Claimable(db, j) && db.jobs[j].project in db.projects
    ensures StatusesAgree(db) ==> StatusesAgree(ClaimJob(db, j))
    ensures DeployingMeansActive(db) ==> DeployingMeansActive(ClaimJob(db, j))
  {
    var p := db.jobs[j].project;
    var after := ClaimJob(db, j);
    assert ActiveJob(db, p, j) && ActiveJob(after, p, j);
    forall q | q in db.projects && q != p
      ensures DeriveStatus(after, q) == DeriveStatus(db, q) && (HasActiveJob(after, q) <==> HasActiveJob(db, q))
    {
      SameInputsSameStatus(db, after, q);
    }
  }

  /** Runtime requests write the status atomically with what they read, and only with no active job. */
  ghost predicate AtomicRuntimeWrite(s: State, a: Action) {
    a.SetStatus? && s.phase.Up? && a.project in s.db.projects ==>
      !HasActiveJob(s.db, a.project) && s.db.projects[a.project].current.Some?
  }

  lemma CreateAgrees(s: State, id: Id, p: Name, now: nat, config: Option<Id>)
    ensures StatusesAgree(s.db) ==> StatusesAgree(Request(s, Create(id, p, now, config)).db)
    ensures DeployingMeansActive(s.db) ==> DeployingMeansActive(Request(s, Create(id, p, now, config)).db)
  {
    if CreateJob(s.db, id, p, now, config).Some? {
      var inserted := EnsureProject(s.db, p);
      SyncedTransactionAgrees(s.db, inserted.(jobs := inserted.jobs[id := Job(p, JobQueued, now, config)]), p);
    }
  }

  lemma ClearAgrees(s: State, p: Name)
    ensures StatusesAgree(s.db) ==> StatusesAgree(Request(s, ClearRuntimeState(p)).db)
    ensures DeployingMeansActive(s.db) ==> DeployingMeansActive(Request(s, ClearRuntimeState(p)).db)
  {
    if p in s.db.projects {
      SyncedTransactionAgrees(
        s.db, WithCurrent(s.db.(deployments := SupersedeAllBut(s.db.deployments, p, None)), p, None), p);
    }
  }

  lemma OtherRequestKeepsRows(s: State, a: Action)
    requires !a.Create? && !a.ClearRuntimeState? && !a.SetStatus?
    ensures Request(s, a).db == s.db
  {
  }

  lemma DirectWriteKeeps(s: State, p: Name, status: ProjectStatus)
    ensures StatusesAgree(s.db) && AtomicRuntimeWrite(s, SetStatus(p, status)) ==>
      StatusesAgree(Request(s, SetStatus(p, status)).db)
    ensures DeployingMeansActive(s.db) ==> DeployingMeansActive(Request(s, SetStatus(p, status)).db)
  {
    if s.phase.Up? && p in s.db.projects && (status == ProjectStopped || status == ProjectRunning) {
      if StatusesAgree(s.db) { DirectWriteAgreesIff(s.db, p, status); }
      StatusColumnIsNotRead(s.db, p, status);
      forall q | q in s.db.projects && q != p
        ensures HasActiveJob(WithStatus(s.db, p, status), q) <==> HasActiveJob(s.db, q)
      {
        SameInputsSameStatus(s.db, WithStatus(s.db, p, status), q);
      }
    }
  }

  lemma RequestAgrees(s: State, a: Action)
    ensures StatusesAgree(s.db) && AtomicRuntimeWrite(s, a) ==> StatusesAgree(Request(s, a).db)
    ensures DeployingMeansActive(s.db) ==> DeployingMeansActive(Request(s, a).db)
  {
    match a
    case Create(id, p, now, config) => CreateAgrees(s, id, p, now, config);
    case ClearRuntimeState(p) => ClearAgrees(s, p);
    case SetStatus(p, status) => DirectWriteKeeps(s, p, status);
    case _ => OtherRequestKeepsRows(s, a);
  }

  lemma FailureAgrees(s: State, j: Id)
    requires Inv(s) && FailJob(s.db, j).Some?
    ensures StatusesAgree(s.db) ==> StatusesAgree(FailJob(s.db, j).value)
    ensures DeployingMeansActive(s.db) ==> DeployingMeansActive(FailJob(s.db, j).value)
  {
    SyncedTransactionAgrees(s.db, WithJobStatus(s.db, j, JobFailed), s.db.jobs[j].project);
  }

  /** Failing a job makes the status of its project right, and touches no other project's. */
  lemma FailureIsLocal(db: DB, j: Id)
    requires FailJob(db, j).Some?
    ensures var after, p := FailJob(db, j).value, db.jobs[j].project;
      && after.projects[p].status == DeriveStatus(after, p)
      && forall q :: q in db.projects && q != p ==>
           after.projects[q] == db.projects[q] && DeriveStatus(after, q) == DeriveStatus(db, q)
  {
    var after, p := FailJob(db, j).value, db.jobs[j].project;
    SyncAgrees(WithJobStatus(db, j, JobFailed), p);
    forall q | q in db.projects && q != p ensures DeriveStatus(after, q) == DeriveStatus(db, q) {
      SameInputsSameStatus(db, after, q);
    }
  }

  lemma PromotionAgrees(s: State, j: Id, p: Name, result: DeploymentResult)
    requires Inv(s) && PromoteJob(s.db, j, p, result).Some? && s.db.jobs[j].project == p
    ensures StatusesAgree(s.db) ==> StatusesAgree(PromoteJob(s.db, j, p, result).value)
    ensures DeployingMeansActive(s.db) ==> DeployingMeansActive(PromoteJob(s.db, j, p, result).value)
  {
    var after := PromoteJob(s.db, j, p, result).value;
    var middle := WithCurrent(WithJobStatus(s.db, j, JobSucceeded).(deployments := after.deployments), p, Some(j));
    SyncedTransactionAgrees(s.db, middle, p);
  }

  lemma NormalizeAgrees(db: DB, upserted: DB, p: Name, d: Id)
    requires upserted.projects == db.projects && upserted.jobs == db.jobs && Normalize(upserted, p, d).Some?
    ensures StatusesAgree(db) ==> StatusesAgree(Normalize(upserted, p, d).value)
    ensures DeployingMeansActive(db) ==> DeployingMeansActive(Normalize(upserted, p, d).value)
  {
    var after := Normalize(upserted, p, d).value;
    SyncedTransactionAgrees(db, WithCurrent(upserted.(deployments := after.deployments), p, Some(d)), p);
  }

  lemma CommitAgrees(s: State)
    requires Inv(s) && s.phase.Up? && s.pc.Committing?
    ensures StatusesAgree(s.db) ==> StatusesAgree(Work(s, Commit).db)
    ensures DeployingMeansActive(s.db) ==> DeployingMeansActive(Work(s, Commit).db)
  {
    var p := s.db.jobs[s.pc.id].project;
    OtherWorkIsDeploy(s, Commit);
    if PromoteJob(s.db, s.pc.id, p, s.result).Some? { PromotionAgrees(s, s.pc.id, p, s.result); }
  }

  lemma OtherWorkKeepsTables(s: State, a: Action)
    requires Inv(s) && s.phase.Up?
    requires !(a.Claim? && s.pc.Holding? && Claimable(s.db, s.pc.id))
    requires !(a.MarkFailed? && s.pc.Failing?) && !(a.Commit? && s.pc.Committing?)
    ensures Work(s, a).db == s.db
  {
    if !IsQueueWork(a) {
      OtherWorkIsDeploy(s, a);
      if !s.pc.Idle? && s.pc.id in s.db.jobs {
        DeployKeepsTables(s, a, s.db.jobs[s.pc.id].project);
      }
    }
  }

  lemma WorkAgrees(s: State, a: Action)
    requires Inv(s) && s.phase.Up?
    ensures StatusesAgree(s.db) ==> StatusesAgree(Work(s, a).db)
    ensures DeployingMeansActive(s.db) ==> DeployingMeansActive(Work(s, a).db)
  {
    if a.Claim? && s.pc.Holding? && Claimable(s.db, s.pc.id) {
      ClaimAgrees(s.db, s.pc.id);
    } else if a.MarkFailed? && s.pc.Failing? {
      FailureAgrees(s, s.pc.id);
    } else if a.Commit? && s.pc.Committing? {
      CommitAgrees(s);
    } else {
      OtherWorkKeepsTables(s, a);
    }
  }

  lemma ReconcileAgrees(s: State, p: Name, imageRef: string)
    requires Inv(s) && s.phase.Down? && p in s.db.projects
    ensures StatusesAgree(s.db) ==> StatusesAgree(Reconciled(s, p, imageRef))
    ensures DeployingMeansActive(s.db) ==> DeployingMeansActive(Reconciled(s, p, imageRef))
  {
    CurrentHasRow(s.db, p);
    if KeepsCurrent(s.db, s.apps, p) {
      NormalizeAgrees(s.db, s.db, p, CurrentDeployment(s.db, p).value);
    } else if exists d :: SoleRunning(s.apps, AppName(p, d)) {
      var d :| SoleRunning(s.apps, AppName(p, d));
      var row := if d in s.db.deployments
        then s.db.deployments[d].(app := AppName(p, d), imageRef := imageRef)
        else Deployment(p, AppName(p, d), imageRef, DeploymentSucceeded);
      NormalizeAgrees(s.db, s.db.(deployments := s.db.deployments[d := row]), p, d);
    }
  }

  lemma RestartAgrees(s: State, a: Action)
    requires Inv(s) && s.phase.Down?
    ensures StatusesAgree(s.db) ==> StatusesAgree(Restart(s, a).db)
    ensures DeployingMeansActive(s.db) ==> DeployingMeansActive(Restart(s, a).db)
  {
    match a
    case ReconcileRows(p, imageRef) => if p in s.db.projects { ReconcileAgrees(s, p, imageRef); }
    case Resync(p) => if p in s.db.projects { SyncedTransactionAgrees(s.db, s.db, p); }
    case Recover(id) => if FailJob(s.db, id).Some? { FailureAgrees(s, id); }
    case _ =>
  }

  ghost predicate AtomicRuntimeWrites(s: State, actions: seq<Action>)
    decreases |actions|
  {
    actions != [] ==> AtomicRuntimeWrite(s, actions[0]) && AtomicRuntimeWrites(Step(s, actions[0]), actions[1..])
  }

  /**
   * "Deploying" implies an active job in every history; and the cached status is the derived status
   * after every step of a history whose runtime requests write atomically and with no active job.
   */
  lemma {:induction false} StatusesAgreeOverRuns(s: State, actions: seq<Action>)
    requires Inv(s)
    ensures DeployingMeansActive(s.db) ==> DeployingMeansActive(Run(s, actions).db)
    ensures StatusesAgree(s.db) && AtomicRuntimeWrites(s, actions) ==> StatusesAgree(Run(s, actions).db)
    decreases |actions|
  {
    if actions != [] {
      var a := actions[0];
      RequestAgrees(s, a);
      if s.phase.Up? { WorkAgrees(s, a); } else { RestartAgrees(s, a); }
      StepKeepsInv(s, a);
      StatusesAgreeOverRuns(Step(s, a), actions[1..]);
    }
  }

  ghost predicate IsStopped(db: DB, p: Name) {
    p in db.projects && db.projects[p].status == ProjectStopped
  }

  lemma RequestStopsNothingElse(s: State, a: Action, p: Name)
    requires a != SetStatus(p, ProjectStopped) && IsStopped(Request(s, a).db, p)
    ensures IsStopped(s.db, p)
  {
  }

  lemma WorkStopsNothing(s: State, a: Action, p: Name)
    requires Inv(s) && s.phase.Up? && IsStopped(Work(s, a).db, p)
    ensures IsStopped(s.db, p)
  {
    if !(a.Claim? && s.pc.Holding? && Claimable(s.db, s.pc.id)) && !(a.MarkFailed? && s.pc.Failing?) {
      if a.Commit? && s.pc.Committing? { OtherWorkIsDeploy(s, a); } else { OtherWorkKeepsTables(s, a); }
    }
  }

  lemma RestartStopsNothing(s: State, a: Action, p: Name)
    requires Inv(s) && s.phase.Down? && IsStopped(Restart(s, a).db, p)
    ensures IsStopped(s.db, p)
  {
  }

  lemma StepStopsNothingElse(s: State, a: Action, p: Name)
    requires Inv(s) && a != SetStatus(p, ProjectStopped) && IsStopped(Step(s, a).db, p)
    ensures IsStopped(s.db, p)
  {
    if Step(s, a) == Request(s, a) {
      RequestStopsNothingElse(s, a, p);
    } else if !a.Crash? {
      if s.phase.Up? { WorkStopsNothing(s, a, p); } else { RestartStopsNothing(s, a, p); }
    }
  }

  /** A project is only ever "stopped" because a request stopped it. */
  lemma {:induction false} StoppedIsRequested(s: State, actions: seq<Action>, p: Name)
    requires Inv(s) && IsStopped(Run(s, actions).db, p)
    ensures IsStopped(s.db, p) || SetStatus(p, ProjectStopped) in actions
    decreases |actions|
  {
    if actions != [] {
      StepKeepsInv(s, actions[0]);
      StoppedIsRequested(Step(s, actions[0]), actions[1..], p);
      if actions[0] != SetStatus(p, ProjectStopped) && IsStopped(Step(s, actions[0]).db, p) {
        StepStopsNothingElse(s, actions[0], p);
      }
    }
  }

  /**
   * From the empty state on, as long as runtime requests write like that, every project's status column says
   * whether a job is queued or running, a deployment is current, and the last job has failed.
   */
  lemma ColumnTellsOverRuns(actions: seq<Action>)
    requires AtomicRuntimeWrites(INITIAL, actions)
    ensures ColumnTells(Run(INITIAL, actions).db)
  {
    StatusesAgreeOverRuns(INITIAL, actions);
    ColumnTellsIff(Run(INITIAL, actions).db);
  }

  // ---- Start-up ----

  /** While start-up lasts, the projects that it has synced have the status they derive to. */
  ghost predicate ResyncedAgree(s: State) {
    s.phase.Down? ==> AgreeOn(s.db, s.phase.resynced)
  }

  ghost predicate AgreeOn(db: DB, names: set<Name>) {
    forall p :: p in names && p in db.projects ==> db.projects[p].status == DeriveStatus(db, p)
  }

  /** A synced transaction over rows of `p` keeps what agrees, and adds `p`. */
  lemma SyncedTransactionAdds(db: DB, middle: DB, p: Name, names: set<Name>)
    requires AgreeOn(db, names) && p in middle.projects && middle.projects.Keys == db.projects.Keys
    requires forall q :: q in db.projects && q != p ==> SameInputs(db, middle, q)
    ensures AgreeOn(SyncStatus(middle, p), names + {p})
  {
    var after := SyncStatus(middle, p);
    SyncAgrees(middle, p);
    forall q | q in after.projects && q in names && q != p ensures after.projects[q].status == DeriveStatus(after, q) {
      assert SameInputs(db, middle, q) && SameInputs(db, after, q);
      SameInputsSameStatus(db, after, q);
    }
  }

  lemma NormalizeAdds(db: DB, upserted: DB, p: Name, d: Id, names: set<Name>)
    requires AgreeOn(db, names) && upserted.projects == db.projects && upserted.jobs == db.jobs
    requires Normalize(upserted, p, d).Some?
    ensures AgreeOn(Normalize(upserted, p, d).value, names)
  {
    var after := Normalize(upserted, p, d).value;
    SyncedTransactionAdds(db, WithCurrent(upserted.(deployments := after.deployments), p, Some(d)), p, names);
  }

  lemma ReconcileKeepsResynced(s: State, p: Name, imageRef: string)
    requires Inv(s) && s.phase.Down? && p in s.db.projects && ResyncedAgree(s)
    ensures AgreeOn(Reconciled(s, p, imageRef), s.phase.resynced)
  {
    CurrentHasRow(s.db, p);
    if KeepsCurrent(s.db, s.apps, p) {
      NormalizeAdds(s.db, s.db, p, CurrentDeployment(s.db, p).value, s.phase.resynced);
    } else if exists d :: SoleRunning(s.apps, AppName(p, d)) {
      var d :| SoleRunning(s.apps, AppName(p, d));
      var row := if d in s.db.deployments
        then s.db.deployments[d].(app := AppName(p, d), imageRef := imageRef)
        else Deployment(p, AppName(p, d), imageRef, DeploymentSucceeded);
      NormalizeAdds(s.db, s.db.(deployments := s.db.deployments[d := row]), p, d, s.phase.resynced);
    }
  }

  lemma RestartKeepsResynced(s: State, a: Action)
    requires Inv(s) && s.phase.Down? && ResyncedAgree(s)
    ensures ResyncedAgree(s.(db := Restart(s, a).db, phase := Restart(s, a).phase))
  {
    match a
    case ReconcileRows(p, imageRef) => if p in s.db.projects { ReconcileKeepsResynced(s, p, imageRef); }
    case Resync(p) => if p in s.db.projects { SyncedTransactionAdds(s.db, s.db, p, s.phase.resynced); }
    case Recover(id) =>
      if FailJob(s.db, id).Some? {
        var p := s.db.jobs[id].project;
        SyncedTransactionAdds(s.db, WithJobStatus(s.db, id, JobFailed), p, s.phase.resynced);
      }
    case _ =>
  }

  lemma UpStaysUp(s: State, a: Action)
    requires s.phase.Up? && !a.Crash?
    ensures Step(s, a).phase.Up?
  {
    RequestKeepsPhase(s, a);
    WorkKeepsPhase(s, a);
  }

  lemma DownRequestsAreRefused(s: State, a: Action)
    requires s.phase.Down?
    ensures Request(s, a) == s
  {
  }

  lemma StepKeepsResynced(s: State, a: Action)
    requires Inv(s) && ResyncedAgree(s)
    ensures ResyncedAgree(Step(s, a))
  {
    if s.phase.Up? {
      if !a.Crash? { UpStaysUp(s, a); }
    } else {
      DownRequestsAreRefused(s, a);
      RestartKeepsResynced(s, a);
    }
  }

  lemma {:induction false} RunKeepsResynced(s: State, actions: seq<Action>)
    requires Inv(s) && ResyncedAgree(s)
    ensures Inv(Run(s, actions)) && ResyncedAgree(Run(s, actions))
    decreases |actions|
  {
    if actions != [] {
      StepKeepsInv(s, actions[0]);
      StepKeepsResynced(s, actions[0]);
      RunKeepsResynced(Step(s, actions[0]), actions[1..]);
    }
  }

  /**
   * Whatever runtime requests wrote before and wherever a crash fell: when start-up ends and the worker starts,
   * the cached status of every project is the derived one.
   */
  lemma StatusesAgreeAfterBoot(actions: seq<Action>, order: seq<Id>)
    requires Run(INITIAL, actions).phase.Down? && Step(Run(INITIAL, actions), Boot(order)).phase.Up?
    ensures var db := Step(Run(INITIAL, actions), Boot(order)).db; StatusesAgree(db) && ColumnTells(db)
  {
    var s := Run(INITIAL, actions);
    RunKeepsResynced(INITIAL, actions);
    assert AllResynced(s) && Step(s, Boot(order)).db == s.db;
    ColumnTellsIff(s.db);
  }
}
