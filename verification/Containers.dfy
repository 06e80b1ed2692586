/**
 * App containers and what start-up reconciliation decides about them. A container is known by its
 * name, which carries its project and deployment labels, and by whether it is running.
 */
module Containers {
  import opened Tables

  function Stopped(apps: map<AppName, bool>, app: AppName): map<AppName, bool> {
    if app in apps then apps[app := false] else apps
  }

  predicate IsRunning(apps: map<AppName, bool>, app: AppName) {
    app in apps && apps[app]
  }

  /** Deleting a container needs it stopped; a missing one is not an error. */
  predicate CanDelete(apps: map<AppName, bool>, app: AppName) {
    app in apps ==> !apps[app]
  }

  ghost predicate SoleRunning(apps: map<AppName, bool>, app: AppName) {
    && IsRunning(apps, app)
    && forall other: AppName :: other.project == app.project && IsRunning(apps, other) ==> other == app
  }

  /** The current deployment's app is among the running ones. */
  predicate KeepsCurrent(db: DB, apps: map<AppName, bool>, p: Name) {
    CurrentDeployment(db, p).Some? && IsRunning(apps, AppName(p, CurrentDeployment(db, p).value))
  }

  /** The deployment whose app reconciliation keeps: the current one if it runs, else the only one that runs. */
  ghost function KeptDeployment(db: DB, apps: map<AppName, bool>, p: Name): Option<Id> {
    if KeepsCurrent(db, apps, p) then CurrentDeployment(db, p)
    else if exists d :: SoleRunning(apps, AppName(p, d)) then (var d :| SoleRunning(apps, AppName(p, d)); Some(d))
    else None
  }

  /** The rows after reconciliation; None when its transaction fails. */
  ghost function ReconciledRows(db: DB, apps: map<AppName, bool>, p: Name, imageRef: string): Option<DB> {
    var kept := KeptDeployment(db, apps, p);
    if kept.None? then Some(db)
    else if KeepsCurrent(db, apps, p) then Normalize(db, p, kept.value)
    else AdoptRuntime(db, AppName(p, kept.value), imageRef)
  }

  /** The containers after reconciliation: of the project, only the kept one. */
  function OnlyApp(apps: map<AppName, bool>, p: Name, keep: Id): map<AppName, bool> {
    map app | app in apps && (app.project != p || app.deployment == keep) :: apps[app]
  }
}
