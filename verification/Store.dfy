/**
 * The transactions of the control plane, statement by statement, over mutable tables. A failed
 * statement rolls the tables back. Each method's contract is the transaction in Tables.dfy.
 */
module Store {
  import opened Choice
  import opened Tables
  import ConfigHistory
  import ConfigStore
  import ProjectStatuses

  /** Some running job of the project is not among the remaining ones. */
  ghost predicate HadRunningJob(db: DB, p: Name, remaining: set<Id>) {
    exists j :: j in db.jobs && db.jobs[j].project == p && db.jobs[j].status == JobRunning && j !in remaining
  }

  /** The projects of the recovered jobs have derived statuses, and the other projects are unchanged. */
  ghost predicate Recovered(before: DB, after: DB, remaining: set<Id>) {
    && after.projects.Keys == before.projects.Keys
    && forall p :: p in before.projects ==>
      if HadRunningJob(before, p, remaining) then after.projects[p].status == DeriveStatus(after, p)
      else after.projects[p] == before.projects[p]
  }

  /** The running jobs that are not among the remaining ones have failed, and the others are unchanged. */
  ghost predicate OnlyFailed(before: map<Id, Job>, after: map<Id, Job>, remaining: set<Id>) {
    && after.Keys == before.Keys
    && forall j :: j in before ==>
      after[j] ==
      if before[j].status == JobRunning && j !in remaining then before[j].(status := JobFailed) else before[j]
  }

  lemma OneMoreFailed(before: map<Id, Job>, middle: map<Id, Job>, remaining: set<Id>, j: Id)
    requires OnlyFailed(before, middle, remaining) && j in remaining && j in before && before[j].status == JobRunning
    ensures OnlyFailed(before, middle[j := middle[j].(status := JobFailed)], remaining - {j})
  {
  }

  lemma OneMoreRecovered(db: DB, p: Name, remaining: set<Id>, j: Id)
    requires j in remaining && j in db.jobs && db.jobs[j].status == JobRunning
    ensures HadRunningJob(db, p, remaining - {j}) <==> HadRunningJob(db, p, remaining) || p == db.jobs[j].project
  {
  }

  lemma FailureRecovers(before: DB, middle: DB, j: Id, remaining: set<Id>)
    requires Recovered(before, middle, remaining) && FailJob(middle, j).Some?
    requires j in remaining && j in before.jobs && before.jobs[j].status == JobRunning
    requires middle.jobs[j].project == before.jobs[j].project
    ensures Recovered(before, FailJob(middle, j).value, remaining - {j})
  {
    ProjectStatuses.FailureIsLocal(middle, j);
    forall p | p in before.projects ensures HadRunningJob(before, p, remaining - {j}) <==>
      HadRunningJob(before, p, remaining) || p == before.jobs[j].project
    {
      OneMoreRecovered(before, p, remaining, j);
    }
  }

  class BrainStore {
    var projects: map<Name, Project>
    var deployments: map<Id, Deployment>
    var jobs: map<Id, Job>

    constructor (tables: DB)
      ensures View() == tables
    {
      projects, deployments, jobs := tables.projects, tables.deployments, tables.jobs;
    }

    function View(): DB
      reads this
    {
      DB(projects, deployments, jobs)
    }

    method Rollback(saved: DB)
      modifies this
      ensures View() == saved
    {
      projects, deployments, jobs := saved.projects, saved.deployments, saved.jobs;
    }

    // ---- Queries ----

    /** SELECT ... WHERE status IN (queued, running) ORDER BY created_at ASC LIMIT 1. */
    method FindActiveDeploymentJob(p: Name) returns (found: Option<Id>)
      ensures found.Some? <==> HasActiveJob(View(), p)
      ensures found.Some? ==> ActiveJob(View(), p, found.value)
      ensures forall j :: found.Some? && ActiveJob(View(), p, j) ==> jobs[found.value].createdAt <= jobs[j].createdAt
    {
      found := None;
      var rest := jobs.Keys;
      while rest != {}
        invariant rest <= jobs.Keys
        invariant found.Some? ==> ActiveJob(View(), p, found.value)
        invariant forall j :: ActiveJob(View(), p, j) && j !in rest ==>
          found.Some? && jobs[found.value].createdAt <= jobs[j].createdAt
        decreases rest
      {
        var j := Pick(rest);
        var row := jobs[j];
        if row.project == p && (row.status == JobQueued || row.status == JobRunning) {
          if found.None? || row.createdAt < jobs[found.value].createdAt {
            found := Some(j);
          }
        }
        rest := rest - {j};
      }
    }

    /** SELECT status ... ORDER BY created_at DESC, id DESC LIMIT 1. */
    method LatestJob(p: Name) returns (latest: Option<Id>)
      ensures latest.Some? ==> IsLatestJob(View(), p, latest.value)
      ensures latest.None? ==> forall j :: j in jobs ==> jobs[j].project != p
    {
      latest := None;
      var rest := jobs.Keys;
      while rest != {}
        invariant rest <= jobs.Keys
        invariant latest.Some? ==> latest.value in jobs && jobs[latest.value].project == p
        invariant forall j :: j in jobs && j !in rest && jobs[j].project == p ==>
          latest.Some? && (j == latest.value || Newer(jobs, latest.value, j))
        decreases rest
      {
        var j := Pick(rest);
        if jobs[j].project == p && (latest.None? || Newer(jobs, j, latest.value)) {
          latest := Some(j);
        }
        rest := rest - {j};
      }
    }

    method DeriveProjectStatus(p: Name) returns (status: Option<ProjectStatus>)
      ensures status == if p in projects then Some(DeriveStatus(View(), p)) else None
      ensures p in projects ==> ProjectStatuses.Tells(View(), p, status.value)
    {
      if p !in projects {
        return None;
      }
      var active := FindActiveDeploymentJob(p);
      var latest := LatestJob(p);
      assert latest.Some? ==> (LatestJobFailed(View(), p) <==> jobs[latest.value].status == JobFailed);
      if active.Some? {
        status := Some(ProjectDeploying);
      } else if projects[p].current.Some? && projects[p].status == ProjectStopped {
        status := Some(ProjectStopped);
      } else if projects[p].current.Some? {
        status := Some(ProjectRunning);
      } else if latest.Some? && jobs[latest.value].status == JobFailed {
        status := Some(ProjectFailed);
      } else {
        status := Some(ProjectIdle);
      }
      ProjectStatuses.DerivedTells(View(), p, status.value);
    }

    // ---- Statements ----

    method SetProjectStatus(p: Name, status: ProjectStatus) returns (ok: bool)
      modifies this`projects
      ensures ok <==> p in old(projects)
      ensures View() == if ok then WithStatus(old(View()), p, status) else old(View())
    {
      ok := p in projects;
      if ok {
        projects := projects[p := projects[p].(status := status)];
      }
    }

    method SyncProjectStatus(p: Name) returns (ok: bool)
      modifies this`projects
      ensures ok <==> p in old(projects)
      ensures View() == if ok then SyncStatus(old(View()), p) else old(View())
    {
      var status := DeriveProjectStatus(p);
      if status.None? {
        return false;
      }
      ok := SetProjectStatus(p, status.value);
    }

    method SetProjectCurrentDeployment(p: Name, d: Id) returns (ok: bool)
      modifies this`projects
      ensures ok <==> p in old(projects)
      ensures View() == if ok then SyncStatus(WithCurrent(old(View()), p, Some(d)), p) else old(View())
    {
      if p !in projects {
        return false;
      }
      projects := projects[p := projects[p].(current := Some(d))];
      ok := SyncProjectStatus(p);
    }

    // ---- Transactions ----

    /**
     * Admits a job, which pins the latest configuration revision of its project, and answers that revision; or
     * changes nothing and answers the id of the active job that stands in the way, if one does.
     */
    method CreateQueuedJob(j: Id, p: Name, now: nat, configs: ConfigStore.ProjectConfigStore)
      returns (ok: bool, active: Option<Id>, pinned: Option<Id>)
      modifies this
      ensures ok <==> CreateJob(old(View()), j, p, now, pinned).Some?
      ensures ok <==> active.None? && j !in old(jobs)
      ensures ok ==> AdmittedRows(old(View()), View(), j, p, Job(p, JobQueued, now, pinned))
      ensures View() == if ok then CreateJob(old(View()), j, p, now, pinned).value else old(View())
      ensures active.Some? <==> HasActiveJob(old(View()), p)
      ensures active.Some? ==> ActiveJob(old(View()), p, active.value)
      ensures ok && pinned.None? ==> !ConfigHistory.HasRevision(configs.Db(), p)
      ensures pinned.Some? ==> ConfigHistory.IsLatest(configs.Db(), p, pinned.value)
    {
      var saved := View();
      active, pinned := None, None;
      if p !in projects {
        projects := projects[p := Project(ProjectIdle, None)];
      }
      assert forall k :: ActiveJob(View(), p, k) <==> ActiveJob(saved, p, k);
      active := FindActiveDeploymentJob(p);
      if active.Some? || j in jobs {
        Rollback(saved);
        return false, active, None;
      }
      pinned := configs.LatestProjectConfigRevisionID(p);
      jobs := jobs[j := Job(p, JobQueued, now, pinned)];
      ok := SyncProjectStatus(p);
    }

    method ClaimQueuedJob(j: Id) returns (claimed: bool)
      modifies this`jobs
      ensures claimed <==> Claimable(old(View()), j)
      ensures View() == ClaimJob(old(View()), j)
    {
      claimed := j in jobs && jobs[j].status == JobQueued;
      if claimed {
        jobs := jobs[j := jobs[j].(status := JobRunning)];
      }
    }

    method MarkJobFailed(j: Id) returns (ok: bool)
      modifies this
      ensures ok <==> FailJob(old(View()), j).Some?
      ensures ok <==> j in old(jobs) && old(jobs)[j].status == JobRunning && old(jobs)[j].project in old(projects)
      ensures ok ==> FailedRows(old(View()), View(), j)
      ensures View() == if ok then FailJob(old(View()), j).value else old(View())
    {
      var saved := View();
      if j !in jobs || jobs[j].status != JobRunning {
        return false;
      }
      var p := jobs[j].project;
      jobs := jobs[j := jobs[j].(status := JobFailed)];
      ok := SyncProjectStatus(p);
      if !ok {
        Rollback(saved);
      }
    }

    method MarkSupersededDeployment(p: Name, d: Option<Id>) returns (ok: bool)
      modifies this`deployments
      ensures ok <==> (d.Some? ==> Succeeded(old(View()), p, d.value))
      ensures deployments == if !ok || d.None? then old(deployments) else
        old(deployments)[d.value := old(deployments)[d.value].(status := DeploymentSuperseded)]
    {
      if d.None? {
        return true;
      }
      ok := d.value in deployments && deployments[d.value].project == p &&
        deployments[d.value].status == DeploymentSucceeded;
      if ok {
        deployments := deployments[d.value := deployments[d.value].(status := DeploymentSuperseded)];
      }
    }

    method InsertSucceededDeployment(j: Id, p: Name, result: DeploymentResult) returns (ok: bool)
      modifies this`deployments
      ensures ok <==> result.imageRef != "" && result.app.Some? && j !in old(deployments) && p in projects
      ensures deployments == if !ok then old(deployments) else
        old(deployments)[j := Deployment(p, result.app.value, result.imageRef, DeploymentSucceeded)]
    {
      ok := result.imageRef != "" && result.app.Some? && j !in deployments && p in projects;
      if ok {
        deployments := deployments[j := Deployment(p, result.app.value, result.imageRef, DeploymentSucceeded)];
      }
    }

    method MarkJobSucceeded(j: Id, p: Name, result: DeploymentResult) returns (ok: bool)
      modifies this
      ensures ok <==> PromoteJob(old(View()), j, p, result).Some?
      ensures ok <==>
        && j in old(jobs) && old(jobs)[j].status == JobRunning && j !in old(deployments) && p in old(projects)
        && result.imageRef != "" && result.app.Some?
        && (result.superseded.Some? ==> Succeeded(old(View()), p, result.superseded.value))
      ensures ok ==>
        PromotedRows(old(View()), View(), j, p, result.app.value, result.imageRef, result.superseded)
      ensures View() == if ok then PromoteJob(old(View()), j, p, result).value else old(View())
    {
      var saved := View();
      if j !in jobs || jobs[j].status != JobRunning {
        return false;
      }
      jobs := jobs[j := jobs[j].(status := JobSucceeded)];
      ok := MarkSupersededDeployment(p, result.superseded);
      if ok {
        ok := InsertSucceededDeployment(j, p, result);
      }
      if ok {
        ok := SetProjectCurrentDeployment(p, j);
      }
      if !ok {
        Rollback(saved);
      }
    }

    method ClearProjectRuntimeState(p: Name) returns (ok: bool)
      modifies this
      ensures ok <==> ClearRuntime(old(View()), p).Some?
      ensures ok <==> p in old(projects)
      ensures jobs == old(jobs)
      ensures ok ==>
        OnlyKeptSucceeded(old(deployments), deployments, p, None) && OnlyPointerMoved(old(View()), View(), p, None)
      ensures View() == if ok then ClearRuntime(old(View()), p).value else old(View())
    {
      var saved := View();
      deployments := SupersedeAllBut(deployments, p, None);
      if p in projects {
        projects := projects[p := projects[p].(current := None)];
      }
      ok := SyncProjectStatus(p);
      if !ok {
        Rollback(saved);
      }
    }

    method NormalizeProjectCurrentDeployment(p: Name, d: Id) returns (ok: bool)
      modifies this
      ensures ok <==> Normalize(old(View()), p, d).Some?
      ensures ok <==> d in old(deployments) && old(deployments)[d].project == p && p in old(projects)
      ensures jobs == old(jobs)
      ensures ok ==> OnlyKeptSucceeded(old(deployments), deployments, p, Some(d))
      ensures ok ==> OnlyPointerMoved(old(View()), View(), p, Some(d))
      ensures View() == if ok then Normalize(old(View()), p, d).value else old(View())
    {
      var saved := View();
      if d !in deployments || deployments[d].project != p {
        return false;
      }
      deployments := deployments[d := deployments[d].(status := DeploymentSucceeded)];
      deployments := SupersedeAllBut(deployments, p, Some(d));
      ok := SetProjectCurrentDeployment(p, d);
      if !ok {
        Rollback(saved);
      }
    }

    method PromoteProjectAppRuntime(app: AppName, imageRef: string) returns (ok: bool)
      modifies this
      ensures ok <==> AdoptRuntime(old(View()), app, imageRef).Some?
      ensures ok <==>
        app.project in old(projects) &&
        (app.deployment in old(deployments) ==> old(deployments)[app.deployment].project == app.project)
      ensures ok ==> AdoptedRows(old(View()), View(), app, imageRef)
      ensures View() == if ok then AdoptRuntime(old(View()), app, imageRef).value else old(View())
    {
      var saved := View();
      var p, d := app.project, app.deployment;
      if p !in projects {
        return false;
      }
      if d in deployments {
        deployments := deployments[d := deployments[d].(app := app, imageRef := imageRef)];
      } else {
        deployments := deployments[d := Deployment(p, app, imageRef, DeploymentSucceeded)];
      }
      ok := NormalizeProjectCurrentDeployment(p, d);
      if !ok {
        Rollback(saved);
      }
    }

    /** Fails every job that a crash left running; a failed update stops the recovery. */
    method RecoverInterruptedJobs() returns (ok: bool)
      modifies this
      ensures old(ForeignKeys(View())) ==> ok
      ensures jobs.Keys == old(jobs.Keys) && deployments == old(deployments) && projects.Keys == old(projects.Keys)
      ensures forall j :: ok && j in jobs ==>
        jobs[j] == if old(jobs)[j].status == JobRunning then old(jobs)[j].(status := JobFailed) else old(jobs)[j]
      ensures exists rest: set<Id> :: OnlyFailed(old(jobs), jobs, rest)
      ensures forall p :: p in projects ==> projects[p].current == old(projects)[p].current
      ensures forall p :: ok && p in projects ==>
        if HadRunningJob(old(View()), p, {}) then projects[p].status == DeriveStatus(View(), p)
        else projects[p] == old(projects)[p]
    {
      var rest := set j | j in jobs && jobs[j].status == JobRunning;
      ok := true;
      while rest != {}
        invariant OnlyFailed(old(jobs), jobs, rest) && deployments == old(deployments)
        invariant projects.Keys == old(projects.Keys)
        invariant rest <= jobs.Keys && forall j :: j in rest ==> old(jobs)[j].status == JobRunning
        invariant forall p :: p in projects ==> projects[p].current == old(projects)[p].current
        invariant Recovered(old(View()), View(), rest)
        decreases rest
      {
        var j := Pick(rest);
        ghost var before := View();
        ok := MarkJobFailed(j);
        if !ok {
          return;
        }
        OneMoreFailed(old(jobs), before.jobs, rest, j);
        FailureRecovers(old(View()), before, j, rest);
        rest := rest - {j};
      }
    }
  }
}
