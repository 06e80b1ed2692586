/** What jobs and workflow runs pin at their admission is what they resolve later, whatever happens in between. */
module ConfigPins {
  import opened Tables
  import opened ConfigHistory
  import Engine
  import EngineQueue
  import Workflows

  /** What an admission pins: a latest revision, and nothing only if the project has none. */
  ghost predicate PinsLatest(db: ConfigDb, project: string, pin: Option<Id>) {
    match pin
    case None => !HasRevision(db, project)
    case Some(id) => IsLatest(db, project, id)
  }

  /** What ResolveRuntimeConfig finds for a pin. */
  function SettingsOf(db: ConfigDb, project: string, pin: Option<Id>): map<string, Setting> {
    match pin
    case None => map[]
    case Some(id) => Settings(View(db, project, id))
  }

  /** A pin made after `k` requests gives the settings of that time after any number of further requests. */
  lemma PinKeepsSettings(dbs: seq<ConfigDb>, ops: seq<Mutation>, k: nat, n: nat, project: string, pin: Option<Id>)
    requires IsHistory(dbs, ops) && ClockAdvances(dbs, ops, project) && k <= n <= |ops|
    requires PinsLatest(dbs[k], project, pin)
    ensures SettingsOf(dbs[n], project, pin) == Folded(ops, k, project)
  {
    match pin
    case None => NoRevisionNoSettings(dbs, ops, k, project);
    case Some(id) => PinnedRevisionKeepsItsSettings(dbs, ops, k, n, project, id);
  }

  /**
   * A job that is admitted after `k` configuration requests is deployed with the settings these add up to: whatever
   * Brain does between the admission and the deployment, crashes included, and however the configuration changes
   * meanwhile.
   */
  lemma JobKeepsItsSettings(dbs: seq<ConfigDb>, ops: seq<Mutation>, k: nat, n: nat, s: Engine.State, job: Id,
          project: Name, now: nat, pin: Option<Id>, actions: seq<Engine.Action>)
    requires IsHistory(dbs, ops) && ClockAdvances(dbs, ops, project) && k <= n <= |ops|
    requires PinsLatest(dbs[k], project, pin)
    requires s.phase.Up? && CreateJob(s.db, job, project, now, pin).Some?
    ensures var jobs := Engine.Run(Engine.Step(s, Engine.Create(job, project, now, pin)), actions).db.jobs;
      job in jobs && SettingsOf(dbs[n], project, jobs[job].config) == Folded(ops, k, project)
  {
    var admitted := Engine.Step(s, Engine.Create(job, project, now, pin));
    assert admitted.db.jobs[job].config == pin;
    EngineQueue.PinsStay(admitted, actions, job);
    PinKeepsSettings(dbs, ops, k, n, project, pin);
  }

  /** The same for workflow runs that a request creates, as long as no cleanup deletes them. */
  lemma RunKeepsItsSettings(dbs: seq<ConfigDb>, ops: seq<Mutation>, k: nat, n: nat, m: Workflows.Manager, run: Id,
          w: Workflows.Workflow, key: string, pin: Option<Id>, actions: seq<Workflows.Action>)
    requires IsHistory(dbs, ops) && ClockAdvances(dbs, ops, w.project) && k <= n <= |ops|
    requires PinsLatest(dbs[k], w.project, pin)
    requires m.up && run !in m.used && Workflows.AnswerOf(m.t, run, w, key).Created?
    ensures var runs := Workflows.Run(Workflows.Step(m, Workflows.CreateRun(run, w, key, pin)), actions).t.runs;
      run in runs ==> SettingsOf(dbs[n], w.project, runs[run].config) == Folded(ops, k, w.project)
  {
    var admitted := Workflows.Step(m, Workflows.CreateRun(run, w, key, pin));
    assert admitted.t.runs[run].config == pin;
    Workflows.PinsStay(admitted, actions, run);
    PinKeepsSettings(dbs, ops, k, n, w.project, pin);
  }

  /** And for runs that a tick queues. */
  lemma TickedRunKeepsItsSettings(dbs: seq<ConfigDb>, ops: seq<Mutation>, k: nat, n: nat, m: Workflows.Manager, run: Id,
          w: Workflows.Workflow, pin: Option<Id>, actions: seq<Workflows.Action>)
    requires IsHistory(dbs, ops) && ClockAdvances(dbs, ops, w.project) && k <= n <= |ops|
    requires PinsLatest(dbs[k], w.project, pin)
    requires m.up && run !in m.used && w in m.t.caps && Workflows.ActiveRuns(m.t, w) == {}
    ensures var runs := Workflows.Run(Workflows.Step(m, Workflows.Tick(run, w, pin)), actions).t.runs;
      run in runs ==> SettingsOf(dbs[n], w.project, runs[run].config) == Folded(ops, k, w.project)
  {
    var admitted := Workflows.Step(m, Workflows.Tick(run, w, pin));
    assert admitted.t.runs[run].config == pin;
    Workflows.PinsStay(admitted, actions, run);
    PinKeepsSettings(dbs, ops, k, n, w.project, pin);
  }
}
