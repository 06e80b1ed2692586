/**
 * The control-plane tables and the transactions over them.
 *
 * A transaction is a function from the tables before it to the tables after its commit; `None`
 * stands for a rollback. Ids are opaque keys with a total order, and creation times are keys of a
 * total order too. The class in Store.dfy runs the same transactions statement by statement.
 */
module Tables {
  type Name = string
  type Id = int

  datatype Option<+T> = None | Some(value: T)

  datatype JobStatus = JobQueued | JobRunning | JobSucceeded | JobFailed
  datatype DeploymentStatus = DeploymentSucceeded | DeploymentSuperseded
  datatype ProjectStatus = ProjectIdle | ProjectDeploying | ProjectRunning | ProjectStopped | ProjectFailed

  /** The app container name "ovek-<project>-app-<deployment>". */
  datatype AppName = AppName(project: Name, deployment: Id)

  datatype Project = Project(status: ProjectStatus, current: Option<Id>)
  datatype Deployment = Deployment(project: Name, app: AppName, imageRef: string, status: DeploymentStatus)
  /** `config` is the configuration revision that the job pins. */
  datatype Job = Job(project: Name, status: JobStatus, createdAt: nat, config: Option<Id>)

  datatype DB = DB(projects: map<Name, Project>, deployments: map<Id, Deployment>, jobs: map<Id, Job>)

  /** What a finished deploy hands to the promotion. */
  datatype DeploymentResult = DeploymentResult(imageRef: string, app: Option<AppName>, superseded: Option<Id>)

  const EMPTY_RESULT := DeploymentResult("", None, None)

  // ---- Reading the tables ----

  ghost predicate ActiveJob(db: DB, p: Name, j: Id) {
    j in db.jobs && db.jobs[j].project == p && (db.jobs[j].status == JobQueued || db.jobs[j].status == JobRunning)
  }

  ghost predicate HasActiveJob(db: DB, p: Name) {
    exists j :: ActiveJob(db, p, j)
  }

  /** Row `a` comes before row `b` in the order "created_at DESC, id DESC". */
  predicate Newer(jobs: map<Id, Job>, a: Id, b: Id)
    requires a in jobs && b in jobs
  {
    jobs[a].createdAt > jobs[b].createdAt || (jobs[a].createdAt == jobs[b].createdAt && a > b)
  }

  ghost predicate IsLatestJob(db: DB, p: Name, j: Id) {
    && j in db.jobs && db.jobs[j].project == p
    && forall k :: k in db.jobs && db.jobs[k].project == p && k != j ==> Newer(db.jobs, j, k)
  }

  ghost predicate LatestJobFailed(db: DB, p: Name) {
    exists j :: IsLatestJob(db, p, j) && db.jobs[j].status == JobFailed
  }

  ghost predicate Succeeded(db: DB, p: Name, d: Id) {
    d in db.deployments && db.deployments[d].project == p && db.deployments[d].status == DeploymentSucceeded
  }

  /** The joined row of `projects.current_deployment_id`, if there is one. */
  function CurrentDeployment(db: DB, p: Name): Option<Id> {
    if p in db.projects && db.projects[p].current.Some? && db.projects[p].current.value in db.deployments
    then db.projects[p].current
    else None
  }

  // ---- Project status ----

  ghost function DeriveStatus(db: DB, p: Name): ProjectStatus
    requires p in db.projects
  {
    if HasActiveJob(db, p) then ProjectDeploying
    else if db.projects[p].current.Some? && db.projects[p].status == ProjectStopped then ProjectStopped
    else if db.projects[p].current.Some? then ProjectRunning
    else if LatestJobFailed(db, p) then ProjectFailed
    else ProjectIdle
  }

  function WithStatus(db: DB, p: Name, status: ProjectStatus): DB
    requires p in db.projects
  {
    db.(projects := db.projects[p := db.projects[p].(status := status)])
  }

  ghost function SyncStatus(db: DB, p: Name): DB
    requires p in db.projects
  {
    WithStatus(db, p, DeriveStatus(db, p))
  }

  function WithCurrent(db: DB, p: Name, current: Option<Id>): DB
    requires p in db.projects
  {
    db.(projects := db.projects[p := db.projects[p].(current := current)])
  }

  function WithJobStatus(db: DB, j: Id, status: JobStatus): DB
    requires j in db.jobs
  {
    db.(jobs := db.jobs[j := db.jobs[j].(status := status)])
  }

  /** Every succeeded deployment of `p` except `keep` becomes superseded. */
  function SupersedeAllBut(deployments: map<Id, Deployment>, p: Name, keep: Option<Id>): (r: map<Id, Deployment>)
    ensures r.Keys == deployments.Keys
  {
    map d | d in deployments ::
      if deployments[d].project == p && Some(d) != keep && deployments[d].status == DeploymentSucceeded
      then deployments[d].(status := DeploymentSuperseded)
      else deployments[d]
  }

  // ---- Transactions ----

  /** INSERT OR IGNORE INTO projects. */
  function EnsureProject(db: DB, p: Name): DB {
    if p in db.projects then db else db.(projects := db.projects[p := Project(ProjectIdle, None)])
  }

  /** Admission: refused while the project has an active job or the id is taken. */
  ghost function CreateJob(db: DB, j: Id, p: Name, now: nat, config: Option<Id>): Option<DB> {
    if HasActiveJob(db, p) || j in db.jobs then None
    else
      var inserted := EnsureProject(db, p);
      Some(SyncStatus(inserted.(jobs := inserted.jobs[j := Job(p, JobQueued, now, config)]), p))
  }

  predicate Claimable(db: DB, j: Id) {
    j in db.jobs && db.jobs[j].status == JobQueued
  }

  function ClaimJob(db: DB, j: Id): DB {
    if Claimable(db, j) then WithJobStatus(db, j, JobRunning) else db
  }

  ghost function FailJob(db: DB, j: Id): Option<DB> {
    if j in db.jobs && db.jobs[j].status == JobRunning && db.jobs[j].project in db.projects
    then Some(SyncStatus(WithJobStatus(db, j, JobFailed), db.jobs[j].project))
    else None
  }

  predicate Promotable(db: DB, j: Id, p: Name, result: DeploymentResult) {
    && j in db.jobs && db.jobs[j].status == JobRunning
    && (result.superseded.Some? ==>
          && result.superseded.value in db.deployments
          && db.deployments[result.superseded.value].project == p
          && db.deployments[result.superseded.value].status == DeploymentSucceeded)
    && result.imageRef != "" && result.app.Some?
    && j !in db.deployments && p in db.projects
  }

  /** The promotion: job, superseded row, new row and current pointer move together or not at all. */
  ghost function PromoteJob(db: DB, j: Id, p: Name, result: DeploymentResult): Option<DB> {
    if !Promotable(db, j, p, result) then None
    else
      var finished := WithJobStatus(db, j, JobSucceeded);
      var cleared := if result.superseded.None? then finished.deployments else
        finished.deployments[result.superseded.value :=
          finished.deployments[result.superseded.value].(status := DeploymentSuperseded)];
      var inserted := cleared[j := Deployment(p, result.app.value, result.imageRef, DeploymentSucceeded)];
      Some(SyncStatus(WithCurrent(finished.(deployments := inserted), p, Some(j)), p))
  }

  /** Project cleanup: no succeeded deployment and no current one. */
  ghost function ClearRuntime(db: DB, p: Name): Option<DB> {
    if p !in db.projects then None
    else Some(SyncStatus(WithCurrent(db.(deployments := SupersedeAllBut(db.deployments, p, None)), p, None), p))
  }

  /** Makes an existing row of the project its only succeeded and its current deployment. */
  ghost function Normalize(db: DB, p: Name, d: Id): Option<DB> {
    if d !in db.deployments || db.deployments[d].project != p || p !in db.projects then None
    else
      var kept := db.deployments[d := db.deployments[d].(status := DeploymentSucceeded)];
      Some(SyncStatus(WithCurrent(db.(deployments := SupersedeAllBut(kept, p, Some(d))), p, Some(d)), p))
  }

  /** Adopts a running app: upserts its row by id, then normalizes. */
  ghost function AdoptRuntime(db: DB, app: AppName, imageRef: string): Option<DB> {
    if app.project !in db.projects then None
    else
      var row := if app.deployment in db.deployments
        then db.deployments[app.deployment].(app := app, imageRef := imageRef)
        else Deployment(app.project, app, imageRef, DeploymentSucceeded);
      Normalize(db.(deployments := db.deployments[app.deployment := row]), app.project, app.deployment)
  }

  // ---- The same, row by row ----

  /** Of the deployments of `p` only `keep` has succeeded, and everything else in the rows is as before. */
  ghost predicate OnlyKeptSucceeded(before: map<Id, Deployment>, after: map<Id, Deployment>, p: Name,
          keep: Option<Id>)
  {
    && after.Keys == before.Keys
    && forall d :: d in before ==>
      if before[d].project != p then after[d] == before[d]
      else after[d] == before[d].(status := if Some(d) == keep then DeploymentSucceeded else DeploymentSuperseded)
  }

  /** Of the projects only `p` may have changed, and it points to `current`. */
  ghost predicate OnlyPointerMoved(before: DB, after: DB, p: Name, current: Option<Id>) {
    && after.projects.Keys == before.projects.Keys && p in after.projects && after.projects[p].current == current
    && forall q :: q in before.projects && q != p ==> after.projects[q] == before.projects[q]
  }

  /** A new job row; and its project's row, if there was none. */
  ghost predicate AdmittedRows(before: DB, after: DB, j: Id, p: Name, job: Job) {
    && after.jobs == before.jobs[j := job] && after.deployments == before.deployments
    && after.projects.Keys == before.projects.Keys + {p}
    && after.projects[p].current == (if p in before.projects then before.projects[p].current else None)
    && forall q :: q in before.projects && q != p ==> after.projects[q] == before.projects[q]
  }

  ghost predicate FailedRows(before: DB, after: DB, j: Id) {
    && j in before.jobs && before.jobs[j].project in before.projects
    && after.jobs == before.jobs[j := before.jobs[j].(status := JobFailed)] && after.deployments == before.deployments
    && OnlyPointerMoved(before, after, before.jobs[j].project, before.projects[before.jobs[j].project].current)
  }

  /** The job has succeeded, its deployment is there, and the one that it supersedes is still there as superseded. */
  ghost predicate PromotedRows(before: DB, after: DB, j: Id, p: Name, app: AppName, imageRef: string,
          superseded: Option<Id>)
  {
    && j in before.jobs && after.jobs == before.jobs[j := before.jobs[j].(status := JobSucceeded)]
    && after.deployments.Keys == before.deployments.Keys + {j} && j !in before.deployments
    && after.deployments[j] == Deployment(p, app, imageRef, DeploymentSucceeded)
    && (forall d :: d in before.deployments ==>
         after.deployments[d] ==
         if superseded == Some(d) then before.deployments[d].(status := DeploymentSuperseded)
         else before.deployments[d])
    && OnlyPointerMoved(before, after, p, Some(j))
  }

  /** The running app has a row with its image, and it is the only one of its project that has succeeded. */
  ghost predicate AdoptedRows(before: DB, after: DB, app: AppName, imageRef: string) {
    var p, d := app.project, app.deployment;
    && after.jobs == before.jobs && OnlyPointerMoved(before, after, p, Some(d))
    && d in after.deployments && after.deployments[d] == Deployment(p, app, imageRef, DeploymentSucceeded)
    && OnlyKeptSucceeded(before.deployments - {d}, after.deployments - {d}, p, None)
  }

  // ---- The pointer invariant ----

  /** Every project's current pointer names its only succeeded deployment, and is null exactly when there is none. */
  ghost predicate CurrentIsSoleSucceeded(db: DB) {
    forall p, d :: p in db.projects ==> (Succeeded(db, p, d) <==> db.projects[p].current == Some(d))
  }

  /** Rows refer to rows that exist: the schema's foreign keys. */
  ghost predicate ForeignKeys(db: DB) {
    && (forall d :: d in db.deployments ==> db.deployments[d].project in db.projects)
    && (forall j :: j in db.jobs ==> db.jobs[j].project in db.projects)
  }

  lemma CreateKeepsPointer(db: DB, j: Id, p: Name, now: nat, config: Option<Id>)
    requires CurrentIsSoleSucceeded(db) && ForeignKeys(db) && CreateJob(db, j, p, now, config).Some?
    ensures var after := CreateJob(db, j, p, now, config).value; CurrentIsSoleSucceeded(after) && ForeignKeys(after)
  {
    var after := CreateJob(db, j, p, now, config).value;
    forall q, d | q in after.projects
      ensures Succeeded(after, q, d) <==> after.projects[q].current == Some(d)
    {
      assert Succeeded(after, q, d) <==> Succeeded(db, q, d);
      assert q in db.projects || (q == p && !Succeeded(db, q, d));
    }
  }

  /** A promotion that expects a superseded row, or that finds no current one, keeps the invariant. */
  lemma PromoteKeepsPointer(db: DB, j: Id, p: Name, result: DeploymentResult)
    requires CurrentIsSoleSucceeded(db) && ForeignKeys(db) && PromoteJob(db, j, p, result).Some?
    requires result.superseded.None? ==> db.projects[p].current.None?
    ensures var after := PromoteJob(db, j, p, result).value;
      CurrentIsSoleSucceeded(after) && ForeignKeys(after) && after.projects[p].current == Some(j)
  {
    var after := PromoteJob(db, j, p, result).value;
    forall q, d | q in after.projects
      ensures Succeeded(after, q, d) <==> after.projects[q].current == Some(d)
    {
      assert Succeeded(db, q, d) <==> db.projects[q].current == Some(d);
      if result.superseded.Some? {
        assert Succeeded(db, p, result.superseded.value);
      }
    }
  }

  lemma ClearKeepsPointer(db: DB, p: Name)
    requires CurrentIsSoleSucceeded(db) && ForeignKeys(db) && p in db.projects
    ensures var after := ClearRuntime(db, p).value;
      CurrentIsSoleSucceeded(after) && ForeignKeys(after) && after.projects[p].current == None
  {
    var after := ClearRuntime(db, p).value;
    forall q, d | q in after.projects
      ensures Succeeded(after, q, d) <==> after.projects[q].current == Some(d)
    {
      assert Succeeded(db, q, d) <==> db.projects[q].current == Some(d);
    }
  }

  /** Normalizing repairs the pointer of its project, whatever the rows said before. */
  lemma NormalizeRepairsPointer(db: DB, p: Name, d: Id)
    requires ForeignKeys(db) && Normalize(db, p, d).Some?
    ensures var after := Normalize(db, p, d).value;
      && ForeignKeys(after) && after.projects[p].current == Some(d)
      && (forall e :: Succeeded(after, p, e) <==> e == d)
      && (forall q, e :: q != p ==> (Succeeded(after, q, e) <==> Succeeded(db, q, e)))
      && after.projects.Keys == db.projects.Keys
      && (forall q :: q in db.projects && q != p ==> after.projects[q] == db.projects[q])
      && after.jobs == db.jobs && after.deployments.Keys == db.deployments.Keys
  {
  }
}
