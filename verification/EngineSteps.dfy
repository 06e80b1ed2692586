/** What the engine does at each place, one lemma for each action of the worker. */
module EngineSteps {
  import opened Tables
  import opened Containers
  import opened Engine

  /** The worker is at job `j` of project `p`. */
  predicate Deploying(s: State, j: Id, p: Name) {
    s.phase.Up? && Working(s.pc) && s.pc.id == j && j in s.db.jobs && s.db.jobs[j].project == p
  }

  lemma BuildFailsStep(s: State, j: Id, p: Name)
    requires Deploying(s, j, p) && s.pc == Building(j)
    ensures Step(s, BuildFails) == s.(pc := Failing(j))
  {
  }

  lemma SendStep(s: State, k: nat)
    requires s.phase.Up? && k < |s.senders| && |s.channel| < QUEUE_SIZE
    ensures Step(s, Send(k)) ==
      s.(channel := s.channel + [s.senders[k]], senders := s.senders[..k] + s.senders[k + 1..])
  {
  }

  lemma CreateContainerStep(s: State, j: Id, p: Name, imageRef: string, ok: bool)
    requires Deploying(s, j, p) && s.pc == Building(j)
    ensures Step(s, CreateContainer(imageRef, ok)) ==
      if !ok then s.(pc := Failing(j), result := s.result.(imageRef := imageRef))
      else s.(apps := if AppName(p, j) in s.apps then s.apps else s.apps[AppName(p, j) := false],
              pc := Created(j), result := s.result.(imageRef := imageRef))
  {
  }

  lemma StartContainerStep(s: State, j: Id, p: Name, ok: bool)
    requires Deploying(s, j, p) && s.pc == Created(j) && AppName(p, j) in s.apps
    ensures Step(s, StartContainer(ok)) ==
      if ok then s.(apps := s.apps[AppName(p, j) := true], pc := Started(j)) else s.(pc := Failing(j))
  {
  }

  lemma ProbeStep(s: State, j: Id, p: Name, ok: bool)
    requires Deploying(s, j, p) && s.pc == Started(j) && (ok ==> IsRunning(s.apps, AppName(p, j)))
    ensures Step(s, Probe(ok)) == s.(pc := if ok then Ready(j) else Failing(j))
  {
  }

  lemma ReadCurrentStep(s: State, j: Id, p: Name)
    requires Deploying(s, j, p) && s.pc == Ready(j)
    ensures var current := CurrentDeployment(s.db, p); var result := s.result.(app := Some(AppName(p, j)));
      Step(s, ReadCurrent) ==
        if current.None? || current.value == j then s.(pc := Committing(j), result := result)
        else if s.db.deployments[current.value].app == AppName(p, j)
        then s.(pc := Committing(j), result := result.(superseded := current))
        else s.(pc := Stopping(j, current.value, s.db.deployments[current.value].app), result := result)
  {
  }

  lemma StopOldStep(s: State, j: Id, p: Name, ok: bool)
    requires Deploying(s, j, p) && s.pc.Stopping?
    ensures Step(s, StopOld(ok)) ==
      if !ok then s.(pc := Undoing(j))
      else if s.pc.app !in s.apps then s.(pc := Committing(j), result := s.result.(superseded := Some(s.pc.prev)))
      else s.(apps := Stopped(s.apps, s.pc.app), pc := Removing(j, s.pc.prev, s.pc.app))
  {
  }

  lemma RemoveOldStep(s: State, j: Id, p: Name, ok: bool)
    requires Deploying(s, j, p) && s.pc.Removing? && CanDelete(s.apps, s.pc.app)
    ensures Step(s, RemoveOld(ok)) ==
      if !ok then s.(pc := Undoing(j))
      else s.(apps := s.apps - {s.pc.app}, pc := Committing(j), result := s.result.(superseded := Some(s.pc.prev)))
  {
  }

  lemma UndoStopStep(s: State, j: Id, p: Name, ok: bool)
    requires Deploying(s, j, p) && s.pc == Undoing(j)
    ensures Step(s, UndoStop(ok)) ==
      if !ok || AppName(p, j) !in s.apps then s.(pc := Failing(j))
      else s.(apps := Stopped(s.apps, AppName(p, j)), pc := UndoRemoving(j))
  {
  }

  lemma UndoRemoveStep(s: State, j: Id, p: Name, ok: bool)
    requires Deploying(s, j, p) && s.pc == UndoRemoving(j)
    ensures Step(s, UndoRemove(ok)) ==
      s.(apps := if ok && CanDelete(s.apps, AppName(p, j)) then s.apps - {AppName(p, j)} else s.apps, pc := Failing(j))
  {
  }

  lemma ClaimStep(s: State, j: Id)
    requires s.phase.Up? && s.pc == Holding(j)
    ensures Step(s, Claim) ==
      if Claimable(s.db, j)
      then s.(db := ClaimJob(s.db, j), pc := Building(j), result := EMPTY_RESULT, processed := s.processed + [j])
      else s.(pc := Idle)
  {
  }

  lemma MarkFailedStep(s: State, j: Id, p: Name)
    requires Inv(s) && Deploying(s, j, p) && s.pc == Failing(j)
    ensures FailJob(s.db, j).Some? && Step(s, MarkFailed) == s.(db := FailJob(s.db, j).value, pc := Idle)
  {
  }

  lemma ReceiveStep(s: State)
    requires s.phase.Up? && s.pc == Idle && s.channel != []
    ensures Step(s, Receive) == s.(pc := Holding(s.channel[0]), channel := s.channel[1..])
  {
  }
}
