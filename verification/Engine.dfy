/**
 * The deployment engine as a state machine: the tables, the app containers, the job queue, the one
 * worker and the start-up sequence. Every transaction and every container call is one step, so
 * cleanup requests, runtime requests and crashes may fall between any two of them.
 * An action that is not enabled leaves the state as it is.
 */
module Engine {
  import opened Tables
  import opened Containers

  /** Where the worker stands inside processJob and Process. */
  datatype Pc =
    | Idle
    | Holding(id: Id)                             // received from the channel, not claimed yet
    | Building(id: Id)                            // claimed; nothing created so far
    | Created(id: Id)                             // new app container exists, not started
    | Started(id: Id)                             // new app container started, readiness unknown
    | Ready(id: Id)                               // readiness probe succeeded
    | Stopping(id: Id, prev: Id, app: AppName)     // about to stop the current app
    | Removing(id: Id, prev: Id, app: AppName)     // about to delete the stopped current app
    | Undoing(id: Id)                             // removal failed: about to stop the new app
    | UndoRemoving(id: Id)                        // about to delete the new app
    | Committing(id: Id)                          // Process returned without error
    | Failing(id: Id)                             // Process or the promotion returned an error

  datatype Phase =
    | Up
    | Down(reconciled: set<Name>, resynced: set<Name>)   // process restarted, start-up not finished

  datatype State = State(
    db: DB,
    apps: map<AppName, bool>,                     // app containers; true when running
    phase: Phase,
    pc: Pc,
    result: DeploymentResult,
    channel: seq<Id>,
    senders: seq<Id>,                             // callers that are in Enqueue
    processed: seq<Id>                            // history: ids handed to Process
  )

  const QUEUE_SIZE: nat := 64

  datatype Action =
    // requests
    | Create(id: Id, project: Name, now: nat, config: Option<Id>)
    | EnqueueAgain(id: Id)
    | StopApp(app: AppName)
    | StartApp(app: AppName)
    | RemoveApp(app: AppName)
    | ClearRuntimeState(project: Name)
    | SetStatus(project: Name, status: ProjectStatus)
    // queue and worker
    | Send(index: nat)
    | Receive
    | Claim
    | BuildFails
    | CreateContainer(imageRef: string, ok: bool)
    | StartContainer(ok: bool)
    | Probe(ok: bool)
    | ReadCurrent
    | StopOld(ok: bool)
    | RemoveOld(ok: bool)
    | UndoStop(ok: bool)
    | UndoRemove(ok: bool)
    | Commit
    | MarkFailed
    // crash and start-up
    | Crash
    | ReconcileRows(project: Name, imageRef: string)
    | ReconcileStop(app: AppName)
    | ReconcileRemove(app: AppName)
    | ReconcileDone(project: Name, failed: bool)
    | Resync(project: Name)
    | Recover(id: Id)
    | Boot(order: seq<Id>)

  // ---- Requests ----

  ghost function Request(s: State, a: Action): State {
    match a
    case Create(id, p, now, config) =>
      if s.phase.Up? && CreateJob(s.db, id, p, now, config).Some?
      then s.(db := CreateJob(s.db, id, p, now, config).value, senders := s.senders + [id])
      else s
    case EnqueueAgain(id) =>
      if s.phase.Up? && id in s.db.jobs then s.(senders := s.senders + [id]) else s
    case StopApp(app) =>
      if s.phase.Up? then s.(apps := Stopped(s.apps, app)) else s
    case StartApp(app) =>
      if s.phase.Up? && app in s.apps then s.(apps := s.apps[app := true]) else s
    case RemoveApp(app) =>
      if s.phase.Up? && CanDelete(s.apps, app) then s.(apps := s.apps - {app}) else s
    case ClearRuntimeState(p) =>
      if s.phase.Up? && ClearRuntime(s.db, p).Some? then s.(db := ClearRuntime(s.db, p).value) else s
    case SetStatus(p, status) =>
      if s.phase.Up? && p in s.db.projects && (status == ProjectStopped || status == ProjectRunning)
      then s.(db := WithStatus(s.db, p, status))
      else s
    case _ => s
  }

  // ---- Queue and worker ----

  ghost function Work(s: State, a: Action): State
    requires s.phase.Up?
  {
    match a
    case Send(k) =>
      if k < |s.senders| && |s.channel| < QUEUE_SIZE
      then s.(channel := s.channel + [s.senders[k]], senders := s.senders[..k] + s.senders[k + 1..])
      else s
    case Receive =>
      if s.pc.Idle? && s.channel != [] then s.(pc := Holding(s.channel[0]), channel := s.channel[1..]) else s
    case Claim =>
      if !s.pc.Holding? then s
      else if Claimable(s.db, s.pc.id)
      then s.(db := ClaimJob(s.db, s.pc.id), pc := Building(s.pc.id), result := EMPTY_RESULT,
              processed := s.processed + [s.pc.id])
      else s.(pc := Idle)
    case MarkFailed =>
      if !s.pc.Failing? then s
      else s.(db := if FailJob(s.db, s.pc.id).Some? then FailJob(s.db, s.pc.id).value else s.db, pc := Idle)
    case _ =>
      if s.pc.Idle? || s.pc.id !in s.db.jobs then s else Deploy(s, a, s.db.jobs[s.pc.id].project)
  }

  /** The steps of Process for the job in the worker's hands, and the promotion. */
  ghost function Deploy(s: State, a: Action, p: Name): State
    requires !s.pc.Idle?
  {
    var mine := AppName(p, s.pc.id);
    match (s.pc, a)
    case (Building(id), BuildFails) => s.(pc := Failing(id))
    case (Building(id), CreateContainer(imageRef, ok)) =>
      if !ok then s.(pc := Failing(id), result := s.result.(imageRef := imageRef))
      else s.(apps := if mine in s.apps then s.apps else s.apps[mine := false],
              pc := Created(id), result := s.result.(imageRef := imageRef))
    case (Created(id), StartContainer(ok)) =>
      if ok && mine in s.apps then s.(apps := s.apps[mine := true], pc := Started(id)) else s.(pc := Failing(id))
    case (Started(id), Probe(ok)) =>
      if ok && IsRunning(s.apps, mine) then s.(pc := Ready(id)) else s.(pc := Failing(id))
    case (Ready(id), ReadCurrent) =>
      var current := CurrentDeployment(s.db, p);
      var result := s.result.(app := Some(mine));
      if current.None? || current.value == id then s.(pc := Committing(id), result := result)
      else if s.db.deployments[current.value].app == mine
      then s.(pc := Committing(id), result := result.(superseded := current))
      else s.(pc := Stopping(id, current.value, s.db.deployments[current.value].app), result := result)
    case (Stopping(id, prev, app), StopOld(ok)) =>
      if !ok then s.(pc := Undoing(id))
      else if app !in s.apps then s.(pc := Committing(id), result := s.result.(superseded := Some(prev)))
      else s.(apps := Stopped(s.apps, app), pc := Removing(id, prev, app))
    case (Removing(id, prev, app), RemoveOld(ok)) =>
      if !ok || !CanDelete(s.apps, app) then s.(pc := Undoing(id))
      else s.(apps := s.apps - {app}, pc := Committing(id), result := s.result.(superseded := Some(prev)))
    case (Undoing(id), UndoStop(ok)) =>
      if !ok || mine !in s.apps then s.(pc := Failing(id))
      else s.(apps := Stopped(s.apps, mine), pc := UndoRemoving(id))
    case (UndoRemoving(id), UndoRemove(ok)) =>
      s.(apps := if ok && CanDelete(s.apps, mine) then s.apps - {mine} else s.apps, pc := Failing(id))
    case (Committing(id), Commit) =>
      if PromoteJob(s.db, id, p, s.result).Some?
      then s.(db := PromoteJob(s.db, id, p, s.result).value, pc := Idle)
      else s.(pc := Failing(id))
    case _ => s
  }

  // ---- Crash and start-up ----

  ghost predicate AllReconciled(s: State) {
    s.phase.Down? && s.db.projects.Keys <= s.phase.reconciled
  }

  /** The status column of every project has been derived again since the last reconciliation. */
  ghost predicate AllResynced(s: State) {
    AllReconciled(s) && s.db.projects.Keys <= s.phase.resynced
  }

  /** A leftover of a project whose rows already say which running app stays. */
  predicate Leftover(s: State, app: AppName) {
    KeepsCurrent(s.db, s.apps, app.project) && app.deployment != CurrentDeployment(s.db, app.project).value
  }

  /** Nothing is left to do for the project: its kept app is alone, or its rows and apps stay as they are. */
  ghost predicate Settled(s: State, p: Name) {
    if KeepsCurrent(s.db, s.apps, p)
    then forall app: AppName :: app in s.apps && app.project == p ==> app.deployment == CurrentDeployment(s.db, p).value
    else !exists d :: SoleRunning(s.apps, AppName(p, d))
  }

  /** The rows after a reconciliation transaction; a transaction that fails leaves them alone. */
  ghost function Reconciled(s: State, p: Name, imageRef: string): DB {
    var after := ReconciledRows(s.db, s.apps, p, imageRef);
    if after.Some? then after.value else s.db
  }

  ghost function Restart(s: State, a: Action): State
    requires s.phase.Down?
  {
    match a
    case ReconcileRows(p, imageRef) =>
      if p in s.db.projects && p !in s.phase.reconciled then s.(db := Reconciled(s, p, imageRef)) else s
    case ReconcileStop(app) =>
      if app.project !in s.phase.reconciled && Leftover(s, app) then s.(apps := Stopped(s.apps, app)) else s
    case ReconcileRemove(app) =>
      if app.project !in s.phase.reconciled && Leftover(s, app) && CanDelete(s.apps, app)
      then s.(apps := s.apps - {app})
      else s
    case ReconcileDone(p, failed) =>
      if p in s.db.projects && (failed || Settled(s, p))
      then s.(phase := Down(s.phase.reconciled + {p}, s.phase.resynced))
      else s
    case Resync(p) =>
      if AllReconciled(s) && p in s.db.projects
      then s.(db := SyncStatus(s.db, p), phase := Down(s.phase.reconciled, s.phase.resynced + {p}))
      else s
    case Recover(id) =>
      if AllResynced(s) && FailJob(s.db, id).Some? then s.(db := FailJob(s.db, id).value) else s
    case Boot(order) =>
      if && AllResynced(s)
         && (forall j :: j in s.db.jobs ==> s.db.jobs[j].status != JobRunning)
         && (forall j :: j in order <==> Claimable(s.db, j))
      then s.(phase := Up, senders := order)
      else s
    case _ => s
  }

  ghost function Step(s: State, a: Action): State {
    if a.Crash? then
      s.(phase := Down({}, {}), pc := Idle, result := EMPTY_RESULT, channel := [], senders := [])
    else if a.Create? || a.EnqueueAgain? || a.StopApp? || a.StartApp? || a.RemoveApp? || a.ClearRuntimeState?
      || a.SetStatus?
    then Request(s, a)
    else if s.phase.Up? then Work(s, a)
    else Restart(s, a)
  }

  ghost function Run(s: State, actions: seq<Action>): State
    decreases |actions|
  {
    if actions == [] then s else Run(Step(s, actions[0]), actions[1..])
  }

  const INITIAL := State(DB(map[], map[], map[]), map[], Up, Idle, EMPTY_RESULT, [], [], [])

  // ---- Invariant ----

  predicate Working(pc: Pc) {
    !pc.Idle? && !pc.Holding?
  }

  /** Only jobs that left the queue have containers or deployment rows, under their own project. */
  ghost predicate RowsFollowJobs(s: State) {
    && (forall app: AppName :: app in s.apps ==>
          app.deployment in s.db.jobs && s.db.jobs[app.deployment].project == app.project
          && s.db.jobs[app.deployment].status != JobQueued)
    && (forall d :: d in s.db.deployments ==>
          && d in s.db.jobs && s.db.jobs[d].project == s.db.deployments[d].project
          && s.db.jobs[d].status != JobQueued
          && s.db.deployments[d].app == AppName(s.db.deployments[d].project, d))
  }

  /** What the worker knows about the job in its hands. */
  ghost predicate WorkerFacts(s: State) {
    Working(s.pc) ==>
      && s.phase.Up?
      && s.pc.id in s.db.jobs && s.db.jobs[s.pc.id].status == JobRunning
      && s.pc.id !in s.db.deployments
      && (s.result.superseded.Some? ==> s.pc.Committing? || s.pc.Failing?)
      && (s.pc.Stopping? || s.pc.Removing? || s.pc.Committing? ==>
           s.result.app == Some(AppName(s.db.jobs[s.pc.id].project, s.pc.id)))
      && (s.pc.Committing? ==> Expects(s, s.result.superseded))
      && (s.pc.Stopping? || s.pc.Removing? ==>
            && s.pc.app == AppName(s.db.jobs[s.pc.id].project, s.pc.prev)
            && Expects(s, Some(s.pc.prev)))
  }

  /** The deployment read as current is still current, or a cleanup cleared the pointer since. */
  ghost predicate Expects(s: State, read: Option<Id>)
    requires s.pc.Idle? || s.pc.id in s.db.jobs
  {
    s.pc.Idle? ||
    var p := s.db.jobs[s.pc.id].project;
    p in s.db.projects && (s.db.projects[p].current == None || s.db.projects[p].current == read)
  }

  ghost predicate OneActiveJob(db: DB) {
    forall p, i, j :: ActiveJob(db, p, i) && ActiveJob(db, p, j) ==> i == j
  }

  ghost predicate RunningJobIsWorkers(s: State) {
    s.phase.Up? ==> forall j :: j in s.db.jobs && s.db.jobs[j].status == JobRunning ==> Working(s.pc) && s.pc.id == j
  }

  ghost predicate Inv(s: State) {
    && (s.phase.Down? ==> s.pc.Idle?)
    && CurrentIsSoleSucceeded(s.db)
    && ForeignKeys(s.db)
    && RowsFollowJobs(s)
    && WorkerFacts(s)
    && OneActiveJob(s.db)
    && RunningJobIsWorkers(s)
  }

  lemma FewerActiveJobs(db: DB, after: DB)
    requires OneActiveJob(db)
    requires forall p, j :: ActiveJob(after, p, j) ==> ActiveJob(db, p, j)
    ensures OneActiveJob(after)
  {
    forall p, i, j | ActiveJob(after, p, i) && ActiveJob(after, p, j)
      ensures i == j
    {
      assert ActiveJob(db, p, i) && ActiveJob(db, p, j);
    }
  }

  lemma AdmissionKeepsOneActiveJob(db: DB, id: Id, p: Name, now: nat, config: Option<Id>)
    requires OneActiveJob(db) && CreateJob(db, id, p, now, config).Some?
    ensures OneActiveJob(CreateJob(db, id, p, now, config).value)
  {
    var after := CreateJob(db, id, p, now, config).value;
    forall q, i, j | ActiveJob(after, q, i) && ActiveJob(after, q, j)
      ensures i == j
    {
      assert i == id || ActiveJob(db, q, i);
      assert j == id || ActiveJob(db, q, j);
    }
  }

  /** A current pointer always joins with a row. */
  lemma CurrentHasRow(db: DB, p: Name)
    requires CurrentIsSoleSucceeded(db) && p in db.projects
    ensures CurrentDeployment(db, p) == db.projects[p].current
    ensures db.projects[p].current.Some? ==> Succeeded(db, p, db.projects[p].current.value)
  {
    if db.projects[p].current.Some? {
      assert Succeeded(db, p, db.projects[p].current.value);
    }
  }

  lemma CreateKeepsInv(s: State, id: Id, p: Name, now: nat, config: Option<Id>)
    requires Inv(s)
    ensures Inv(Request(s, Create(id, p, now, config)))
  {
    if s.phase.Up? && CreateJob(s.db, id, p, now, config).Some? {
      CreateKeepsPointer(s.db, id, p, now, config);
      AdmissionKeepsOneActiveJob(s.db, id, p, now, config);
    }
  }

  lemma ClearKeepsInv(s: State, p: Name)
    requires Inv(s)
    ensures Inv(Request(s, ClearRuntimeState(p)))
  {
    if s.phase.Up? && p in s.db.projects {
      ClearKeepsPointer(s.db, p);
      FewerActiveJobs(s.db, ClearRuntime(s.db, p).value);
    }
  }

  lemma SetStatusKeepsInv(s: State, p: Name, status: ProjectStatus)
    requires Inv(s)
    ensures Inv(Request(s, SetStatus(p, status)))
  {
    FewerActiveJobs(s.db, Request(s, SetStatus(p, status)).db);
  }

  lemma AppRequestKeepsInv(s: State, a: Action)
    requires Inv(s) && (a.StopApp? || a.StartApp? || a.RemoveApp?)
    ensures Inv(Request(s, a))
  {
  }

  lemma RequestKeepsInv(s: State, a: Action)
    requires Inv(s)
    ensures Inv(Request(s, a))
  {
    match a
    case Create(id, p, now, config) => CreateKeepsInv(s, id, p, now, config);
    case ClearRuntimeState(p) => ClearKeepsInv(s, p);
    case SetStatus(p, status) => SetStatusKeepsInv(s, p, status);
    case _ => if a.StopApp? || a.StartApp? || a.RemoveApp? { AppRequestKeepsInv(s, a); }
  }

  lemma PromotionKeepsInv(s: State, p: Name)
    requires Inv(s) && s.pc.Committing? && p == s.db.jobs[s.pc.id].project
    requires PromoteJob(s.db, s.pc.id, p, s.result).Some? && s.result.app == Some(AppName(p, s.pc.id))
    ensures Inv(s.(db := PromoteJob(s.db, s.pc.id, p, s.result).value, pc := Idle))
  {
    var after := PromoteJob(s.db, s.pc.id, p, s.result).value;
    FewerActiveJobs(s.db, after);
    PromoteKeepsPointer(s.db, s.pc.id, p, s.result);
  }

  /** Of the steps of a deploy only the commit writes rows. */
  lemma DeployKeepsTables(s: State, a: Action, p: Name)
    requires !s.pc.Idle? && !(a.Commit? && s.pc.Committing?)
    ensures Deploy(s, a, p).db == s.db
  {
  }

  /** A step of a deploy leaves the queue and the phase alone, and stays with its job or lets go of it. */
  lemma DeployStaysPut(s: State, a: Action, p: Name)
    requires !s.pc.Idle?
    ensures var after := Deploy(s, a, p);
      && after.phase == s.phase && after.channel == s.channel && after.senders == s.senders
      && after.processed == s.processed && (after.pc.Idle? ==> s.pc.Committing? && a.Commit?)
      && (!after.pc.Idle? ==> after.pc.id == s.pc.id) && (after.pc.Holding? <==> s.pc.Holding?)
  {
  }

  lemma DeployKeepsFacts(s: State, a: Action)
    requires Inv(s) && Working(s.pc) && !(a.Commit? && s.pc.Committing?)
    ensures WorkerFacts(Deploy(s, a, s.db.jobs[s.pc.id].project))
  {
    CurrentHasRow(s.db, s.db.jobs[s.pc.id].project);
  }

  lemma ProcessKeepsInv(s: State, a: Action)
    requires Inv(s) && Working(s.pc) && !(a.Commit? && s.pc.Committing?)
    ensures Inv(Deploy(s, a, s.db.jobs[s.pc.id].project))
  {
    var p := s.db.jobs[s.pc.id].project;
    DeployKeepsFacts(s, a);
    DeployKeepsTables(s, a, p);
    DeployStaysPut(s, a, p);
  }

  lemma DeployKeepsInv(s: State, a: Action)
    requires Inv(s) && Working(s.pc)
    ensures Inv(Deploy(s, a, s.db.jobs[s.pc.id].project))
  {
    var p := s.db.jobs[s.pc.id].project;
    if !(s.pc.Committing? && a.Commit?) {
      ProcessKeepsInv(s, a);
    } else if PromoteJob(s.db, s.pc.id, p, s.result).Some? {
      PromotionKeepsInv(s, p);
    }
  }

  lemma FailureKeepsInv(s: State, id: Id)
    requires Inv(s) && FailJob(s.db, id).Some? && (Working(s.pc) ==> s.pc.id == id)
    ensures Inv(s.(db := FailJob(s.db, id).value, pc := if Working(s.pc) then Idle else s.pc))
  {
    var after := FailJob(s.db, id).value;
    FewerActiveJobs(s.db, after);
    forall p, d | p in after.projects
      ensures Succeeded(after, p, d) <==> after.projects[p].current == Some(d)
    {
      assert Succeeded(s.db, p, d) <==> s.db.projects[p].current == Some(d);
    }
  }

  lemma ClaimKeepsInv(s: State)
    requires Inv(s) && s.phase.Up? && s.pc.Holding?
    ensures Inv(Work(s, Claim))
  {
    if Claimable(s.db, s.pc.id) {
      FewerActiveJobs(s.db, ClaimJob(s.db, s.pc.id));
    }
  }

  predicate IsQueueWork(a: Action) {
    a.Send? || a.Receive? || a.Claim? || a.MarkFailed?
  }

  /** Requests do not start or stop Brain. */
  lemma RequestKeepsPhase(s: State, a: Action)
    ensures Request(s, a).phase == s.phase
  {
  }

  lemma OtherWorkIsDeploy(s: State, a: Action)
    requires s.phase.Up? && !IsQueueWork(a)
    ensures Work(s, a) == if s.pc.Idle? || s.pc.id !in s.db.jobs then s else Deploy(s, a, s.db.jobs[s.pc.id].project)
  {
  }

  lemma WorkKeepsPhase(s: State, a: Action)
    requires s.phase.Up?
    ensures Work(s, a).phase.Up?
  {
    if !IsQueueWork(a) {
      OtherWorkIsDeploy(s, a);
      if !s.pc.Idle? && s.pc.id in s.db.jobs { DeployStaysPut(s, a, s.db.jobs[s.pc.id].project); }
    }
  }

  lemma NotWorkingDeploysNothing(s: State, a: Action, p: Name)
    requires s.pc.Holding?
    ensures Deploy(s, a, p) == s
  {
  }

  lemma QueueWorkKeepsInv(s: State, a: Action)
    requires Inv(s) && s.phase.Up? && IsQueueWork(a)
    ensures Inv(Work(s, a))
  {
    if s.pc.Holding? && a.Claim? {
      ClaimKeepsInv(s);
    } else if s.pc.Failing? && a.MarkFailed? {
      FailureKeepsInv(s, s.pc.id);
    }
  }

  lemma WorkKeepsInv(s: State, a: Action)
    requires Inv(s) && s.phase.Up?
    ensures Inv(Work(s, a))
  {
    if IsQueueWork(a) {
      QueueWorkKeepsInv(s, a);
    } else {
      OtherWorkIsDeploy(s, a);
      if Working(s.pc) {
        DeployKeepsInv(s, a);
      } else if s.pc.Holding? && s.pc.id in s.db.jobs {
        NotWorkingDeploysNothing(s, a, s.db.jobs[s.pc.id].project);
      }
    }
  }

  /** Rewriting one project's rows with Normalize keeps the rest of the invariant. */
  lemma NormalizeKeepsInv(s: State, upserted: DB, p: Name, d: Id)
    requires Inv(s) && s.phase.Down? && s.pc.Idle?
    requires upserted.projects == s.db.projects && upserted.jobs == s.db.jobs
    requires d in upserted.deployments && forall e :: e in s.db.deployments && e != d ==>
      e in upserted.deployments && upserted.deployments[e] == s.db.deployments[e]
    requires forall e :: e in upserted.deployments && e != d ==> e in s.db.deployments
    requires d in s.db.deployments ==> upserted.deployments[d].project == s.db.deployments[d].project
    requires RowsFollowJobs(s.(db := upserted)) && Normalize(upserted, p, d).Some?
    ensures Inv(s.(db := Normalize(upserted, p, d).value))
  {
    var after := Normalize(upserted, p, d).value;
    NormalizeRepairsPointer(upserted, p, d);
    FewerActiveJobs(s.db, after);
    forall q, e | q in after.projects
      ensures Succeeded(after, q, e) <==> after.projects[q].current == Some(e)
    {
      if q != p {
        assert Succeeded(upserted, q, e) <==> Succeeded(s.db, q, e);
      }
    }
  }

  lemma ReconcileKeepsInv(s: State, p: Name, imageRef: string)
    requires Inv(s) && s.phase.Down? && s.pc.Idle? && p in s.db.projects
    ensures Inv(s.(db := Reconciled(s, p, imageRef)))
  {
    CurrentHasRow(s.db, p);
    if KeepsCurrent(s.db, s.apps, p) {
      NormalizeKeepsInv(s, s.db, p, CurrentDeployment(s.db, p).value);
    } else if exists d :: SoleRunning(s.apps, AppName(p, d)) {
      var d :| SoleRunning(s.apps, AppName(p, d));
      var row := if d in s.db.deployments
        then s.db.deployments[d].(app := AppName(p, d), imageRef := imageRef)
        else Deployment(p, AppName(p, d), imageRef, DeploymentSucceeded);
      NormalizeKeepsInv(s, s.db.(deployments := s.db.deployments[d := row]), p, d);
    }
  }

  lemma ResyncKeepsInv(s: State, p: Name)
    requires Inv(s) && s.phase.Down?
    ensures Inv(Restart(s, Resync(p)))
  {
    if p in s.db.projects { FewerActiveJobs(s.db, SyncStatus(s.db, p)); }
  }

  lemma RestartKeepsRows(s: State, a: Action)
    requires Inv(s) && s.phase.Down? && !a.ReconcileRows? && !a.Recover? && !a.Resync?
    ensures Inv(Restart(s, a))
  {
  }

  lemma RestartKeepsInv(s: State, a: Action)
    requires Inv(s) && s.phase.Down?
    ensures Inv(Restart(s, a))
  {
    match a
    case ReconcileRows(p, imageRef) =>
      if p in s.db.projects { ReconcileKeepsInv(s, p, imageRef); }
    case Recover(id) =>
      if FailJob(s.db, id).Some? { FailureKeepsInv(s, id); }
    case Resync(p) => ResyncKeepsInv(s, p);
    case _ => RestartKeepsRows(s, a);
  }

  lemma StepKeepsInv(s: State, a: Action)
    requires Inv(s)
    ensures Inv(Step(s, a))
  {
    RequestKeepsInv(s, a);
    if s.phase.Up? {
      WorkKeepsInv(s, a);
    } else {
      RestartKeepsInv(s, a);
    }
  }

  lemma {:induction false} RunKeepsInv(s: State, actions: seq<Action>)
    requires Inv(s)
    ensures Inv(Run(s, actions))
    decreases |actions|
  {
    if actions != [] {
      StepKeepsInv(s, actions[0]);
      RunKeepsInv(Step(s, actions[0]), actions[1..]);
    }
  }

  /**
   * In every reachable state, with cleanups and crashes between any two steps, a project's current
   * pointer names its only succeeded deployment or there is none, and at most one of its jobs is active.
   */
  lemma PointerAgreesOverRuns(actions: seq<Action>)
    ensures var s := Run(INITIAL, actions);
      CurrentIsSoleSucceeded(s.db) && ForeignKeys(s.db) && OneActiveJob(s.db)
  {
    RunKeepsInv(INITIAL, actions);
  }

  /** A deployment row does not go away, and keeps its project and its app. */
  ghost predicate RowPersists(before: DB, after: DB, d: Id) {
    d in before.deployments ==>
      && d in after.deployments && after.deployments[d].project == before.deployments[d].project
      && after.deployments[d].app == before.deployments[d].app
  }

  /** Its image may only change when start-up adopts a running app. */
  ghost predicate ImagePersists(before: DB, after: DB, d: Id) {
    d in before.deployments ==>
      d in after.deployments && after.deployments[d].imageRef == before.deployments[d].imageRef
  }

  lemma ReconcileKeepsRow(s: State, p: Name, imageRef: string, d: Id)
    requires Inv(s) && s.phase.Down? && p in s.db.projects
    ensures RowPersists(s.db, Reconciled(s, p, imageRef), d)
  {
  }

  lemma RestartKeepsRow(s: State, a: Action, d: Id)
    requires Inv(s) && s.phase.Down?
    ensures RowPersists(s.db, Restart(s, a).db, d)
    ensures !a.ReconcileRows? ==> ImagePersists(s.db, Restart(s, a).db, d)
  {
    if a.ReconcileRows? && a.project in s.db.projects { ReconcileKeepsRow(s, a.project, a.imageRef, d); }
  }

  lemma ClearKeepsRow(db: DB, p: Name, d: Id)
    requires ClearRuntime(db, p).Some?
    ensures RowPersists(db, ClearRuntime(db, p).value, d) && ImagePersists(db, ClearRuntime(db, p).value, d)
  {
  }

  lemma RequestKeepsRow(s: State, a: Action, d: Id)
    ensures RowPersists(s.db, Request(s, a).db, d) && ImagePersists(s.db, Request(s, a).db, d)
  {
    if a.ClearRuntimeState? {
      if a.project in s.db.projects { ClearKeepsRow(s.db, a.project, d); }
    } else {
      assert Request(s, a).db.deployments == s.db.deployments;
    }
  }

  lemma PromoteKeepsRow(db: DB, j: Id, p: Name, result: DeploymentResult, d: Id)
    requires PromoteJob(db, j, p, result).Some?
    ensures var after := PromoteJob(db, j, p, result).value; RowPersists(db, after, d) && ImagePersists(db, after, d)
  {
  }

  lemma WorkKeepsRow(s: State, a: Action, d: Id)
    requires Inv(s) && s.phase.Up?
    ensures RowPersists(s.db, Work(s, a).db, d) && ImagePersists(s.db, Work(s, a).db, d)
  {
    if !IsQueueWork(a) {
      OtherWorkIsDeploy(s, a);
      if !s.pc.Idle? && s.pc.id in s.db.jobs {
        var p := s.db.jobs[s.pc.id].project;
        if !(a.Commit? && s.pc.Committing?) {
          DeployKeepsTables(s, a, p);
        } else if PromoteJob(s.db, s.pc.id, p, s.result).Some? {
          PromoteKeepsRow(s.db, s.pc.id, p, s.result, d);
        }
      }
    }
  }

  lemma StepKeepsRow(s: State, a: Action, d: Id)
    requires Inv(s)
    ensures RowPersists(s.db, Step(s, a).db, d)
    ensures !a.ReconcileRows? ==> ImagePersists(s.db, Step(s, a).db, d)
  {
    RequestKeepsRow(s, a, d);
    if s.phase.Up? {
      WorkKeepsRow(s, a, d);
    } else {
      RestartKeepsRow(s, a, d);
    }
  }

  /**
   * Over every run no deployment row disappears or changes its project or app, and none changes its image unless a
   * start-up adopts a running app.
   */
  lemma {:induction false} DeploymentsPersist(s: State, actions: seq<Action>, d: Id)
    requires Inv(s)
    ensures RowPersists(s.db, Run(s, actions).db, d)
    ensures (forall a :: a in actions ==> !a.ReconcileRows?) ==> ImagePersists(s.db, Run(s, actions).db, d)
    decreases |actions|
  {
    if actions != [] {
      StepKeepsInv(s, actions[0]);
      StepKeepsRow(s, actions[0], d);
      DeploymentsPersist(Step(s, actions[0]), actions[1..], d);
    }
  }

  lemma {:induction false} RunThen(s: State, actions: seq<Action>, a: Action)
    ensures Run(s, actions + [a]) == Step(Run(s, actions), a)
    decreases |actions|
  {
    if actions == [] {
      assert [a][1..] == [] && [] + [a] == [a];
      assert Run(Step(s, a), []) == Step(s, a);
    } else {
      assert (actions + [a])[1..] == actions[1..] + [a];
      RunThen(Step(s, actions[0]), actions[1..], a);
    }
  }

  /** Run by run of the two steps that end a failed promotion. */
  lemma RunOfTwo(s: State, a: Action, b: Action)
    ensures Run(s, [a, b]) == Step(Step(s, a), b)
  {
    assert [a, b][1..] == [b];
    assert [b][1..] == [];
    assert Run(Step(s, a), [b]) == Run(Step(Step(s, a), b), []);
  }

  lemma PromotableIff(s: State, p: Name)
    requires Inv(s) && s.pc.Committing? && p == s.db.jobs[s.pc.id].project
    ensures Promotable(s.db, s.pc.id, p, s.result) <==>
      s.result.imageRef != "" && s.db.projects[p].current == s.result.superseded
  {
    if s.result.superseded.Some? {
      assert Succeeded(s.db, p, s.result.superseded.value) <==> s.db.projects[p].current == s.result.superseded;
    }
  }

  lemma PromotionRows(s: State, p: Name)
    requires Inv(s) && s.pc.Committing? && p == s.db.jobs[s.pc.id].project
    requires Promotable(s.db, s.pc.id, p, s.result)
    ensures PromotedRows(s.db, PromoteJob(s.db, s.pc.id, p, s.result).value, s.pc.id, p, AppName(p, s.pc.id),
                         s.result.imageRef, s.result.superseded)
  {
  }

  lemma FailedPromotionMarksJobOnly(s: State, p: Name)
    requires Inv(s) && s.pc.Failing? && p == s.db.jobs[s.pc.id].project
    ensures var failed := Step(s, MarkFailed);
      && failed.db.deployments == s.db.deployments && failed.apps == s.apps
      && failed.db.projects[p].current == s.db.projects[p].current
      && failed.db.projects == s.db.projects[p := failed.db.projects[p]]
      && failed.db.jobs == s.db.jobs[s.pc.id := s.db.jobs[s.pc.id].(status := JobFailed)]
  {
  }

  lemma CommitStep(s: State, p: Name)
    requires Inv(s) && s.pc.Committing? && p == s.db.jobs[s.pc.id].project
    ensures Step(s, Commit) ==
      if Promotable(s.db, s.pc.id, p, s.result)
      then s.(db := PromoteJob(s.db, s.pc.id, p, s.result).value, pc := Idle)
      else s.(pc := Failing(s.pc.id))
  {
    OtherWorkIsDeploy(s, Commit);
  }

  /**
   * The promotion goes through exactly when the pointer still is what Process read (and the image has a
   * name). Otherwise nothing is written, and marking the job failed then leaves pointer and rows alone.
   */
  lemma PromotionCommitsIff(s: State, p: Name)
    requires Inv(s) && s.pc.Committing? && p == s.db.jobs[s.pc.id].project
    ensures Step(s, Commit).pc.Idle? <==> s.result.imageRef != "" && s.db.projects[p].current == s.result.superseded
    ensures Step(s, Commit).pc.Idle? ==>
      PromotedRows(
        s.db, Step(s, Commit).db, s.pc.id, p, AppName(p, s.pc.id), s.result.imageRef, s.db.projects[p].current)
    ensures !Step(s, Commit).pc.Idle? ==>
      && Step(s, Commit) == s.(pc := Failing(s.pc.id))
      && var failed := Run(s, [Commit, MarkFailed]).db;
         && failed.deployments == s.db.deployments
         && failed.projects[p].current == s.db.projects[p].current
         && failed.jobs == s.db.jobs[s.pc.id := s.db.jobs[s.pc.id].(status := JobFailed)]
  {
    PromotableIff(s, p);
    CommitStep(s, p);
    if Promotable(s.db, s.pc.id, p, s.result) {
      PromotionRows(s, p);
    } else {
      RunOfTwo(s, Commit, MarkFailed);
      FailedPromotionMarksJobOnly(s.(pc := Failing(s.pc.id)), p);
    }
  }
}
