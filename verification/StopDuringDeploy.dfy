/** A run of the engine in which a stop request lands in the middle of a deploy. */
module StopDuringDeploy {
  import opened Tables
  import opened Containers
  import opened Engine
  import opened EngineSteps
  import opened ProjectStatuses

  const P: Name := "p"

  /** Deploy `id` has come to its readiness, over what was there in `s`. */
  ghost predicate DeployedUpToReady(s: State, t: State, id: Id, now: nat) {
    && t.phase.Up? && t.pc == Ready(id) && t.channel == [] && t.senders == []
    && t.db.jobs == s.db.jobs[id := Job(P, JobRunning, now, None)] && t.db.deployments == s.db.deployments
    && P in t.db.projects
    && t.db.projects[P].current == (if P in s.db.projects then s.db.projects[P].current else None)
    && t.apps == s.apps[AppName(P, id) := true] && t.result == DeploymentResult("image", None, None)
  }

  /** A run whose direct status writes, so far, were made only with no active job. */
  ghost predicate Reached(actions: seq<Action>, s: State) {
    Run(INITIAL, actions) == s && AtomicRuntimeWrites(INITIAL, actions)
  }

  lemma {:induction false} AtomicThen(s: State, actions: seq<Action>, a: Action)
    requires AtomicRuntimeWrites(s, actions) && AtomicRuntimeWrite(Run(s, actions), a)
    ensures AtomicRuntimeWrites(s, actions + [a])
    decreases |actions|
  {
    if actions == [] {
      assert [] + [a] == [a] && [a][1..] == [];
      assert AtomicRuntimeWrites(Step(s, a), []);
    } else {
      assert (actions + [a])[0] == actions[0] && (actions + [a])[1..] == actions[1..] + [a];
      AtomicThen(Step(s, actions[0]), actions[1..], a);
    }
  }

  /** One more step of a run that is being written down. */
  lemma Then(actions: seq<Action>, s: State, a: Action) returns (more: seq<Action>, t: State)
    requires Reached(actions, s) && AtomicRuntimeWrite(s, a)
    ensures more == actions + [a] && t == Step(s, a) && Reached(more, t)
  {
    RunThen(INITIAL, actions, a);
    AtomicThen(INITIAL, actions, a);
    more, t := actions + [a], Step(s, a);
  }

  lemma CreateStep(s: State, id: Id, now: nat)
    requires s.phase.Up? && id !in s.db.jobs && !HasActiveJob(s.db, P)
    ensures var t := Step(s, Create(id, P, now, None));
      && t == s.(db := t.db, senders := s.senders + [id])
      && t.db.jobs == s.db.jobs[id := Job(P, JobQueued, now, None)] && t.db.deployments == s.db.deployments
      && P in t.db.projects
      && t.db.projects[P].current == (if P in s.db.projects then s.db.projects[P].current else None)
  {
  }

  /** Create, enqueue and claim: the job is in the worker's hands. */
  lemma Claimed(actions: seq<Action>, s: State, id: Id, now: nat) returns (more: seq<Action>, t: State)
    requires Reached(actions, s)
    requires s.phase.Up? && s.pc == Idle && s.channel == [] && s.senders == []
    requires id !in s.db.jobs && !HasActiveJob(s.db, P)
    ensures Reached(more, t) && t.phase.Up? && t.pc == Building(id) && t.channel == [] && t.senders == []
    ensures t.db.jobs == s.db.jobs[id := Job(P, JobRunning, now, None)] && t.db.deployments == s.db.deployments
    ensures P in t.db.projects
    ensures t.db.projects[P].current == (if P in s.db.projects then s.db.projects[P].current else None)
    ensures t.apps == s.apps && t.result == EMPTY_RESULT
  {
    CreateStep(s, id, now);
    more, t := Then(actions, s, Create(id, P, now, None));
    var created := t;
    SendStep(t, 0);
    more, t := Then(more, t, Send(0));
    assert t == created.(channel := [id], senders := []);
    ReceiveStep(t);
    more, t := Then(more, t, Receive);
    assert t == created.(channel := [], senders := [], pc := Holding(id));
    ClaimStep(t, id);
    more, t := Then(more, t, Claim);
  }

  lemma Opening(actions: seq<Action>, s: State, id: Id, now: nat) returns (more: seq<Action>, t: State)
    requires Reached(actions, s)
    requires s.phase.Up? && s.pc == Idle && s.channel == [] && s.senders == []
    requires id !in s.db.jobs && !HasActiveJob(s.db, P) && AppName(P, id) !in s.apps
    ensures Reached(more, t) && DeployedUpToReady(s, t, id, now)
  {
    more, t := Claimed(actions, s, id, now);
    CreateContainerStep(t, id, P, "image", true);
    more, t := Then(more, t, CreateContainer("image", true));
    StartContainerStep(t, id, P, true);
    more, t := Then(more, t, StartContainer(true));
    assert t.apps == s.apps[AppName(P, id) := true];
    ProbeStep(t, id, P, true);
    more, t := Then(more, t, Probe(true));
  }

  const FIRST: Deployment := Deployment(P, AppName(P, 1), "image", DeploymentSucceeded)

  /** A project with one deployment, running. */
  ghost predicate FirstIsDeployed(s: State) {
    && s.phase.Up? && s.pc == Idle && s.channel == [] && s.senders == []
    && s.db.jobs == map[1 := Job(P, JobSucceeded, 1, None)] && s.db.deployments == map[1 := FIRST]
    && P in s.db.projects && s.db.projects[P].current == Some(1) && s.apps == map[AppName(P, 1) := true]
  }

  lemma FirstPromotion(s: State)
    requires s.phase.Up? && s.pc == Committing(1) && s.channel == [] && s.senders == []
    requires s.db.jobs == map[1 := Job(P, JobRunning, 1, None)] && s.db.deployments == map[]
    requires P in s.db.projects && s.apps == map[AppName(P, 1) := true]
    requires s.result == DeploymentResult("image", Some(AppName(P, 1)), None)
    ensures Promotable(s.db, 1, P, s.result)
    ensures FirstIsDeployed(s.(db := PromoteJob(s.db, 1, P, s.result).value, pc := Idle))
  {
    var after := PromoteJob(s.db, 1, P, s.result).value;
    assert after.jobs == map[1 := Job(P, JobSucceeded, 1, None)];
    assert after.deployments == map[1 := FIRST];
  }

  lemma FirstDeploy() returns (actions: seq<Action>, s: State)
    ensures Reached(actions, s) && FirstIsDeployed(s)
  {
    actions, s := Opening([], INITIAL, 1, 1);
    assert s.db.jobs == map[1 := Job(P, JobRunning, 1, None)] && s.apps == map[AppName(P, 1) := true];
    ReadCurrentStep(s, 1, P);
    actions, s := Then(actions, s, ReadCurrent);
    RunKeepsInv(INITIAL, actions);
    FirstPromotion(s);
    CommitStep(s, P);
    actions, s := Then(actions, s, Commit);
  }

  /** The second deploy is ready. */
  ghost predicate SecondIsReady(s: State) {
    && s.phase.Up? && s.pc == Ready(2) && s.result == DeploymentResult("image", None, None)
    && s.db.jobs == map[1 := Job(P, JobSucceeded, 1, None), 2 := Job(P, JobRunning, 2, None)]
    && s.db.deployments == map[1 := FIRST] && P in s.db.projects && s.db.projects[P].current == Some(1)
  }

  /** A stop request has stopped the first app in the middle of the second deploy, and will write the status next. */
  ghost predicate StopIsUnderWay(s: State) {
    SecondIsReady(s) && s.apps == map[AppName(P, 1) := false, AppName(P, 2) := true]
  }

  lemma SecondDeploy() returns (actions: seq<Action>, s: State)
    ensures Reached(actions, s) && StopIsUnderWay(s)
  {
    actions, s := FirstDeploy();
    assert forall j :: !ActiveJob(s.db, P, j);
    actions, s := Opening(actions, s, 2, 2);
    assert s.apps == map[AppName(P, 1) := true, AppName(P, 2) := true];
    actions, s := Then(actions, s, StopApp(AppName(P, 1)));
  }

  lemma StopDisagrees(s: State)
    requires StopIsUnderWay(s) && StatusesAgree(s.db)
    ensures !StatusesAgree(Step(s, SetStatus(P, ProjectStopped)).db)
  {
    assert ActiveJob(s.db, P, 2);
    DirectWriteAgreesIff(s.db, P, ProjectStopped);
  }

  /** Before the status write of the stop request all statuses agree, and after it one does not. */
  lemma DirectWriteCanDisagree() returns (actions: seq<Action>)
    ensures StopIsUnderWay(Run(INITIAL, actions))
    ensures StatusesAgree(Run(INITIAL, actions).db)
    ensures !StatusesAgree(Run(INITIAL, actions + [SetStatus(P, ProjectStopped)]).db)
  {
    var s;
    actions, s := SecondDeploy();
    StatusesAgreeOverRuns(INITIAL, actions);
    RunThen(INITIAL, actions, SetStatus(P, ProjectStopped));
    StopDisagrees(s);
  }

  lemma StoppedMeanwhile() returns (before: seq<Action>, s: State)
    ensures StopIsUnderWay(Run(INITIAL, before)) && Run(INITIAL, before + [SetStatus(P, ProjectStopped)]) == s
    ensures StopIsUnderWay(s) && s.db.projects[P].status == ProjectStopped
  {
    var ready;
    before, ready := SecondDeploy();
    RunThen(INITIAL, before, SetStatus(P, ProjectStopped));
    s := Step(ready, SetStatus(P, ProjectStopped));
  }

  lemma Superseding(actions: seq<Action>, s: State) returns (more: seq<Action>, t: State)
    requires Run(INITIAL, actions) == s && StopIsUnderWay(s)
    ensures more == actions + [ReadCurrent] + [StopOld(true)] + [RemoveOld(true)]
    ensures Run(INITIAL, more) == t && t.phase.Up? && t.pc == Committing(2) && t.db == s.db
    ensures t.result == DeploymentResult("image", Some(AppName(P, 2)), Some(1)) && t.apps == map[AppName(P, 2) := true]
  {
    ReadCurrentStep(s, 2, P);
    RunThen(INITIAL, actions, ReadCurrent);
    more, t := actions + [ReadCurrent], Step(s, ReadCurrent);
    StopOldStep(t, 2, P, true);
    RunThen(INITIAL, more, StopOld(true));
    more, t := more + [StopOld(true)], Step(t, StopOld(true));
    assert t.apps == s.apps;
    RemoveOldStep(t, 2, P, true);
    RunThen(INITIAL, more, RemoveOld(true));
    more, t := more + [RemoveOld(true)], Step(t, RemoveOld(true));
    assert s.apps - {AppName(P, 1)} == map[AppName(P, 2) := true];
  }

  lemma SecondPromotion(db: DB, result: DeploymentResult)
    requires db.jobs == map[1 := Job(P, JobSucceeded, 1, None), 2 := Job(P, JobRunning, 2, None)] && OneActiveJob(db)
    requires db.deployments == map[1 := FIRST] && P in db.projects && db.projects[P] == Project(ProjectStopped, Some(1))
    requires result == DeploymentResult("image", Some(AppName(P, 2)), Some(1))
    ensures Promotable(db, 2, P, result)
    ensures var after := PromoteJob(db, 2, P, result).value;
      P in after.projects && after.projects[P] == Project(ProjectStopped, Some(2)) && !HasActiveJob(after, P)
  {
    StatusAfterPromotionIff(db, 2, P, result);
    var after := PromoteJob(db, 2, P, result).value;
    assert after.jobs == map[1 := Job(P, JobSucceeded, 1, None), 2 := Job(P, JobSucceeded, 2, None)];
  }

  /**
   * From the initial state: deploy 1 is promoted, job 2 is claimed, a stop request lands in the middle of its deploy,
   * and job 2 is promoted. In the end app 2 runs, no job is active, and the status is "stopped".
   */
  lemma StoppedButRunning() returns (before: seq<Action>, actions: seq<Action>)
    ensures StopIsUnderWay(Run(INITIAL, before))
    ensures actions == before + [SetStatus(P, ProjectStopped), ReadCurrent, StopOld(true), RemoveOld(true), Commit]
    ensures var s := Run(INITIAL, actions);
      && s.phase.Up? && s.pc == Idle && P in s.db.projects && s.db.projects[P] == Project(ProjectStopped, Some(2))
      && IsRunning(s.apps, AppName(P, 2)) && !HasActiveJob(s.db, P)
  {
    var s;
    before, s := StoppedMeanwhile();
    actions, s := Superseding(before + [SetStatus(P, ProjectStopped)], s);
    RunKeepsInv(INITIAL, actions);
    SecondPromotion(s.db, s.result);
    CommitStep(s, P);
    RunThen(INITIAL, actions, Commit);
    actions := actions + [Commit];
  }
}
