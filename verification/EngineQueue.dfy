/**
 * The job manager runs the shared queue protocol: every step of the engine is a step of the queue,
 * or leaves it alone. What holds for every run of the queue therefore holds for the engine.
 */
module EngineQueue {
  import opened Tables
  import opened Engine
  import Q = WorkQueue

  function StageOf(status: JobStatus): Q.Stage {
    match status
    case JobQueued => Q.Waiting
    case JobRunning => Q.Taken
    case JobSucceeded => Q.Finished
    case JobFailed => Q.Finished
  }

  function HandOf(pc: Pc): Q.Hand {
    match pc
    case Idle => Q.Free
    case Holding(id) => Q.Held(id)
    case _ => Q.Busy(pc.id)
  }

  function RowsOf(jobs: map<Id, Job>): map<Id, Q.Stage> {
    map j | j in jobs :: StageOf(jobs[j].status)
  }

  function QueueOf(s: State): Q.Queue {
    Q.Queue(RowsOf(s.db.jobs), s.phase.Up?, s.channel, s.senders, HandOf(s.pc), s.processed, s.db.jobs.Keys)
  }

  /** The queue step that an engine step amounts to. */
  ghost function Image(s: State, a: Action): Q.QueueAction {
    match a
    case Create(id, p, now, config) =>
      if CreateJob(s.db, id, p, now, config).Some? then Q.Insert(id, Q.Waiting) else Q.Stutter
    case EnqueueAgain(id) => Q.EnqueueAgain(id)
    case Send(k) => if s.phase.Up? then Q.Send(k) else Q.Stutter
    case Receive => if s.phase.Up? then Q.Receive else Q.Stutter
    case Claim => if s.phase.Up? then Q.Claim else Q.Stutter
    case MarkFailed => if s.pc.Failing? then Q.Finish else Q.Stutter
    case Commit =>
      if s.pc.Committing? && Working(s.pc) && Step(s, a).pc.Idle? then Q.Finish else Q.Stutter
    case Crash => Q.Crash
    case Recover(id) => if s.phase.Down? && AllResynced(s) then Q.Recover(id) else Q.Stutter
    case Boot(order) => if s.phase.Down? && AllResynced(s) then Q.Boot(order) else Q.Stutter
    case _ => Q.Stutter
  }

  lemma RowsAfterUpdate(jobs: map<Id, Job>, j: Id, row: Job)
    ensures RowsOf(jobs[j := row]) == RowsOf(jobs)[j := StageOf(row.status)]
  {
  }

  lemma RequestRefinesQueue(s: State, a: Action)
    requires Inv(s)
    ensures var image := if a.Create? || a.EnqueueAgain? then Image(s, a) else Q.Stutter;
      QueueOf(Request(s, a)) == Q.Next(QueueOf(s), image)
  {
    if a.Create? {
      RowsAfterUpdate(s.db.jobs, a.id, Job(a.project, JobQueued, a.now, a.config));
    }
  }

  lemma CommitRefinesQueue(s: State)
    requires Inv(s) && s.pc.Committing?
    ensures var after := Deploy(s, Commit, s.db.jobs[s.pc.id].project);
      QueueOf(after) == if after.pc.Idle? then Q.Next(QueueOf(s), Q.Finish) else QueueOf(s)
  {
    RowsAfterUpdate(s.db.jobs, s.pc.id, s.db.jobs[s.pc.id].(status := JobSucceeded));
  }

  lemma DeployRefinesQueue(s: State, a: Action)
    requires Inv(s) && Working(s.pc)
    ensures var after := Deploy(s, a, s.db.jobs[s.pc.id].project);
      QueueOf(after) == if after.pc.Idle? then Q.Next(QueueOf(s), Q.Finish) else QueueOf(s)
  {
    if s.pc.Committing? && a.Commit? {
      CommitRefinesQueue(s);
    } else {
      DeployKeepsTables(s, a, s.db.jobs[s.pc.id].project);
      DeployStaysPut(s, a, s.db.jobs[s.pc.id].project);
    }
  }

  lemma MarkFailedRefinesQueue(s: State)
    requires Inv(s) && s.phase.Up? && s.pc.Failing?
    ensures QueueOf(Work(s, MarkFailed)) == Q.Next(QueueOf(s), Q.Finish)
  {
    RowsAfterUpdate(s.db.jobs, s.pc.id, s.db.jobs[s.pc.id].(status := JobFailed));
  }

  lemma ClaimRefinesQueue(s: State)
    requires Inv(s) && s.phase.Up? && s.pc.Holding?
    ensures QueueOf(Work(s, Claim)) == Q.Next(QueueOf(s), Q.Claim)
  {
    if Claimable(s.db, s.pc.id) {
      RowsAfterUpdate(s.db.jobs, s.pc.id, s.db.jobs[s.pc.id].(status := JobRunning));
    }
  }

  lemma WorkRefinesQueue(s: State, a: Action)
    requires Inv(s) && s.phase.Up?
    requires a.Send? || a.Receive? || a.Claim? || a.MarkFailed?
    ensures QueueOf(Work(s, a)) == Q.Next(QueueOf(s), Image(s, a))
  {
    if a.Claim? && s.pc.Holding? {
      ClaimRefinesQueue(s);
    } else if a.MarkFailed? && s.pc.Failing? {
      MarkFailedRefinesQueue(s);
    }
  }

  lemma RecoverRefinesQueue(s: State, id: Id)
    requires Inv(s) && s.phase.Down? && AllResynced(s)
    ensures QueueOf(Restart(s, Recover(id))) == Q.Next(QueueOf(s), Image(s, Recover(id)))
  {
    if FailJob(s.db, id).Some? {
      RowsAfterUpdate(s.db.jobs, id, s.db.jobs[id].(status := JobFailed));
    }
  }

  lemma BootRefinesQueue(s: State, order: seq<Id>)
    requires Inv(s) && s.phase.Down? && AllResynced(s)
    ensures QueueOf(Restart(s, Boot(order))) == Q.Next(QueueOf(s), Image(s, Boot(order)))
  {
    var q := QueueOf(s);
    assert forall j :: j in s.db.jobs ==> (q.rows[j] == Q.Taken <==> s.db.jobs[j].status == JobRunning);
    assert forall j :: Claimable(s.db, j) <==> j in q.rows && q.rows[j] == Q.Waiting;
  }

  predicate IsRequest(a: Action) {
    a.Create? || a.EnqueueAgain? || a.StopApp? || a.StartApp? || a.RemoveApp? || a.ClearRuntimeState? || a.SetStatus?
  }

  lemma RestartRefinesQueue(s: State, a: Action)
    requires Inv(s) && s.phase.Down? && !a.Recover? && !a.Boot? && !a.Crash? && !IsRequest(a)
    ensures QueueOf(Restart(s, a)) == Q.Next(QueueOf(s), Image(s, a))
  {
  }

  lemma DownStepIsRestart(s: State, a: Action)
    requires s.phase.Down? && !a.Crash? && !IsRequest(a)
    ensures Step(s, a) == Restart(s, a)
  {
  }

  lemma EarlyRestartIsRefused(s: State, a: Action)
    requires s.phase.Down? && (a.Recover? || a.Boot?) && !AllResynced(s)
    ensures QueueOf(Restart(s, a)) == Q.Next(QueueOf(s), Image(s, a))
  {
  }

  lemma DownStepRefinesQueue(s: State, a: Action)
    requires Inv(s) && s.phase.Down? && !a.Crash? && !IsRequest(a)
    ensures QueueOf(Step(s, a)) == Q.Next(QueueOf(s), Image(s, a))
  {
    DownStepIsRestart(s, a);
    if (a.Recover? || a.Boot?) && !AllResynced(s) {
      EarlyRestartIsRefused(s, a);
    } else if a.Recover? {
      RecoverRefinesQueue(s, a.id);
    } else if a.Boot? {
      BootRefinesQueue(s, a.order);
    } else {
      RestartRefinesQueue(s, a);
    }
  }

  /** Among the steps of Process and the promotion, only a commit that goes through is a step of the queue. */
  lemma DeployImage(s: State, a: Action)
    requires Inv(s) && s.phase.Up? && Working(s.pc) && !a.Crash? && !IsRequest(a) && !IsQueueWork(a)
    ensures Image(s, a) == if Deploy(s, a, s.db.jobs[s.pc.id].project).pc.Idle? then Q.Finish else Q.Stutter
  {
    OtherWorkIsDeploy(s, a);
    assert Step(s, a) == Work(s, a);
  }

  lemma IdleImage(s: State, a: Action)
    requires Inv(s) && s.phase.Up? && !Working(s.pc) && !a.Crash? && !IsRequest(a) && !IsQueueWork(a)
    ensures Image(s, a) == Q.Stutter && Work(s, a) == s
  {
    OtherWorkIsDeploy(s, a);
    if s.pc.Holding? && s.pc.id in s.db.jobs {
      NotWorkingDeploysNothing(s, a, s.db.jobs[s.pc.id].project);
    }
  }

  lemma UpWorkRefinesQueue(s: State, a: Action)
    requires Inv(s) && s.phase.Up? && !a.Crash? && !IsRequest(a)
    ensures QueueOf(Work(s, a)) == Q.Next(QueueOf(s), Image(s, a))
  {
    if IsQueueWork(a) {
      WorkRefinesQueue(s, a);
    } else if Working(s.pc) {
      OtherWorkIsDeploy(s, a);
      DeployRefinesQueue(s, a);
      DeployImage(s, a);
    } else {
      IdleImage(s, a);
    }
  }

  lemma UpStepIsWork(s: State, a: Action)
    requires s.phase.Up? && !a.Crash? && !IsRequest(a)
    ensures Step(s, a) == Work(s, a)
  {
  }

  /** Every engine step is the queue step that Image names. */
  lemma StepRefinesQueue(s: State, a: Action)
    requires Inv(s)
    ensures QueueOf(Step(s, a)) == Q.Next(QueueOf(s), Image(s, a))
  {
    if IsRequest(a) {
      RequestRefinesQueue(s, a);
    } else if !a.Crash? && s.phase.Down? {
      DownStepRefinesQueue(s, a);
    } else if !a.Crash? {
      UpStepIsWork(s, a);
      UpWorkRefinesQueue(s, a);
    }
  }

  ghost function Images(s: State, actions: seq<Action>): seq<Q.QueueAction>
    decreases |actions|
  {
    if actions == [] then [] else [Image(s, actions[0])] + Images(Step(s, actions[0]), actions[1..])
  }

  lemma {:induction false} RunRefinesQueue(s: State, actions: seq<Action>)
    requires Inv(s)
    ensures QueueOf(Run(s, actions)) == Q.Run(QueueOf(s), Images(s, actions))
    decreases |actions|
  {
    if actions != [] {
      StepRefinesQueue(s, actions[0]);
      StepKeepsInv(s, actions[0]);
      RunRefinesQueue(Step(s, actions[0]), actions[1..]);
      assert Images(s, actions)[1..] == Images(Step(s, actions[0]), actions[1..]);
    }
  }

  /**
   * Over every interleaving of creates, duplicate enqueues, cleanups, crashes and restarts, no job id
   * reaches Process twice, and while Brain is up every queued job is in the channel, with a blocked
   * sender, or in the worker's hands.
   */
  lemma NoJobLostNoneRunTwice(actions: seq<Action>)
    ensures var s := Run(INITIAL, actions);
      && Q.NoRepeats(s.processed)
      && (s.phase.Up? ==> forall j :: Claimable(s.db, j) ==> j in s.channel || j in s.senders || s.pc == Holding(j))
      && |s.channel| <= 64
  {
    var s := Run(INITIAL, actions);
    RunRefinesQueue(INITIAL, actions);
    Q.RunKeepsInv(QueueOf(INITIAL), Images(INITIAL, actions));
    forall j | s.phase.Up? && Claimable(s.db, j)
      ensures j in s.channel || j in s.senders || s.pc == Holding(j)
    {
      assert Q.IsWaiting(QueueOf(s), j);
    }
  }

  predicate Terminal(db: DB, j: Id) {
    j in db.jobs && (db.jobs[j].status == JobSucceeded || db.jobs[j].status == JobFailed)
  }

  ghost predicate KeepsRow(db: DB, after: DB, j: Id)
    requires j in db.jobs
  {
    j in after.jobs && after.jobs[j] == db.jobs[j]
  }

  lemma RequestKeepsTerminalRow(s: State, a: Action, j: Id)
    requires Terminal(s.db, j)
    ensures KeepsRow(s.db, Request(s, a).db, j)
  {
  }

  lemma WorkKeepsTerminalRow(s: State, a: Action, j: Id)
    requires Terminal(s.db, j) && s.phase.Up?
    ensures KeepsRow(s.db, Work(s, a).db, j)
  {
    if !IsQueueWork(a) {
      OtherWorkIsDeploy(s, a);
    }
  }

  lemma RestartKeepsTerminalRow(s: State, a: Action, j: Id)
    requires Terminal(s.db, j) && s.phase.Down?
    ensures KeepsRow(s.db, Restart(s, a).db, j)
  {
  }

  lemma StepKeepsTerminalRow(s: State, a: Action, j: Id)
    requires Terminal(s.db, j)
    ensures KeepsRow(s.db, Step(s, a).db, j)
  {
    if IsRequest(a) {
      RequestKeepsTerminalRow(s, a, j);
    } else if !a.Crash? && s.phase.Up? {
      UpStepIsWork(s, a);
      WorkKeepsTerminalRow(s, a, j);
    } else if !a.Crash? {
      RestartKeepsTerminalRow(s, a, j);
    }
  }

  /** A succeeded or failed job row never changes again. */
  lemma {:induction false} TerminalRowsStay(s: State, actions: seq<Action>, j: Id)
    requires Inv(s) && Terminal(s.db, j)
    ensures j in Run(s, actions).db.jobs && Run(s, actions).db.jobs[j] == s.db.jobs[j]
    decreases |actions|
  {
    if actions != [] {
      StepKeepsTerminalRow(s, actions[0], j);
      StepKeepsInv(s, actions[0]);
      TerminalRowsStay(Step(s, actions[0]), actions[1..], j);
    }
  }

  lemma RestartKeepsOrFails(s: State, a: Action, j: Id)
    requires s.phase.Down? && j in s.db.jobs && s.db.jobs[j].status == JobRunning
    ensures j in Restart(s, a).db.jobs
    ensures Restart(s, a).db.jobs[j] == s.db.jobs[j].(status := JobFailed) ||
      (Restart(s, a).phase.Down? && Restart(s, a).db.jobs[j] == s.db.jobs[j])
  {
  }

  /** A job that a crash leaves running has failed when Brain is up again, and stays so. */
  lemma {:induction false} InterruptedJobFails(s: State, actions: seq<Action>, j: Id)
    requires Inv(s) && s.phase.Down? && j in s.db.jobs && s.db.jobs[j].status == JobRunning
    ensures var t := Run(s, actions);
      t.phase.Up? ==> j in t.db.jobs && t.db.jobs[j] == s.db.jobs[j].(status := JobFailed)
    decreases |actions|
  {
    if actions != [] {
      var next := Step(s, actions[0]);
      StepKeepsInv(s, actions[0]);
      RestartKeepsOrFails(s, actions[0], j);
      if next.phase.Down? && next.db.jobs[j] == s.db.jobs[j] {
        InterruptedJobFails(next, actions[1..], j);
      } else {
        TerminalRowsStay(next, actions[1..], j);
      }
    }
  }

  // ---- Draining ----

  predicate IsWork(a: Action) {
    !IsRequest(a) && !a.Crash? && !a.ReconcileRows? && !a.ReconcileStop? && !a.ReconcileRemove? && !a.ReconcileDone?
    && !a.Resync? && !a.Recover? && !a.Boot?
  }

  function PcRank(pc: Pc): nat {
    match pc
    case Idle => 0
    case Holding(_) => 0
    case Building(_) => 10
    case Created(_) => 9
    case Started(_) => 8
    case Ready(_) => 7
    case Stopping(_, _, _) => 6
    case Removing(_, _, _) => 5
    case Undoing(_) => 4
    case UndoRemoving(_) => 3
    case Committing(_) => 2
    case Failing(_) => 1
  }

  /** Steps of the worker that remain possible, at most. */
  function Backlog(s: State): nat {
    16 * Q.Measure(QueueOf(s)) + PcRank(s.pc)
  }

  lemma DeployAdvances(s: State, a: Action)
    requires Inv(s) && Working(s.pc) && Deploy(s, a, s.db.jobs[s.pc.id].project) != s
    ensures PcRank(Deploy(s, a, s.db.jobs[s.pc.id].project).pc) < PcRank(s.pc)
  {
  }

  lemma QueueWorkShrinksBacklog(s: State, a: Action)
    requires Inv(s) && s.phase.Up? && IsQueueWork(a) && Step(s, a) != s
    ensures Backlog(Step(s, a)) < Backlog(s)
  {
    StepRefinesQueue(s, a);
  }

  lemma DeployShrinksBacklog(s: State, a: Action)
    requires Inv(s) && s.phase.Up? && IsWork(a) && !IsQueueWork(a) && Working(s.pc) && Step(s, a) != s
    ensures Backlog(Step(s, a)) < Backlog(s)
  {
    UpStepIsWork(s, a);
    OtherWorkIsDeploy(s, a);
    DeployAdvances(s, a);
    DeployRefinesQueue(s, a);
  }

  lemma WorkShrinksBacklog(s: State, a: Action)
    requires Inv(s) && s.phase.Up? && IsWork(a) && Step(s, a) != s
    ensures Backlog(Step(s, a)) < Backlog(s)
  {
    if IsQueueWork(a) {
      QueueWorkShrinksBacklog(s, a);
    } else if Working(s.pc) {
      DeployShrinksBacklog(s, a);
    } else {
      UpStepIsWork(s, a);
      IdleImage(s, a);
    }
  }

  /** A step that is possible wherever the worker stands. */
  function NextMove(pc: Pc): (a: Action)
    requires Working(pc)
    ensures IsWork(a)
  {
    match pc
    case Building(_) => BuildFails
    case Created(_) => StartContainer(false)
    case Started(_) => Probe(false)
    case Ready(_) => ReadCurrent
    case Stopping(_, _, _) => StopOld(false)
    case Removing(_, _, _) => RemoveOld(false)
    case Undoing(_) => UndoStop(false)
    case UndoRemoving(_) => UndoRemove(false)
    case Committing(_) => Commit
    case Failing(_) => MarkFailed
  }

  lemma DeployIsPossible(s: State)
    requires Inv(s) && Working(s.pc) && !s.pc.Failing?
    ensures Deploy(s, NextMove(s.pc), s.db.jobs[s.pc.id].project).pc != s.pc
  {
  }

  lemma WorkIsPossible(s: State) returns (a: Action)
    requires Inv(s) && Q.QueueInv(QueueOf(s)) && s.phase.Up? && Backlog(s) > 0
    ensures IsWork(a) && Step(s, a) != s
  {
    if Working(s.pc) {
      a := NextMove(s.pc);
      if !s.pc.Failing? { DeployIsPossible(s); }
    } else if s.pc.Holding? {
      a := Claim;
    } else if s.channel != [] {
      a := Receive;
    } else {
      a := Send(0);
      assert |Step(s, a).channel| > |s.channel|;
    }
  }

  lemma WorkKeepsPin(s: State, a: Action, j: Id)
    requires s.phase.Up? && j in s.db.jobs
    ensures var jobs := Work(s, a).db.jobs;
      j in jobs && jobs[j].config == s.db.jobs[j].config && jobs[j].project == s.db.jobs[j].project
  {
    if !IsQueueWork(a) {
      OtherWorkIsDeploy(s, a);
    }
  }

  lemma WorkKeepsJobs(s: State, a: Action)
    requires s.phase.Up?
    ensures s.db.jobs.Keys <= Work(s, a).db.jobs.Keys && Work(s, a).phase.Up?
  {
    WorkKeepsPhase(s, a);
    forall j | j in s.db.jobs ensures j in Work(s, a).db.jobs {
      WorkKeepsPin(s, a, j);
    }
  }

  /** No step deletes a job row. */
  lemma StepKeepsJobs(s: State, a: Action)
    ensures s.db.jobs.Keys <= Step(s, a).db.jobs.Keys
    ensures s.phase.Up? && IsWork(a) ==> Step(s, a).phase.Up?
  {
    if !IsRequest(a) && !a.Crash? && s.phase.Up? {
      UpStepIsWork(s, a);
      WorkKeepsJobs(s, a);
    }
  }

  /** What may happen beside the worker: cleanups, runtime requests and direct status writes, but no new work. */
  predicate IsAside(a: Action) {
    IsRequest(a) && !a.Create? && !a.EnqueueAgain?
  }

  ghost predicate NoNewWork(actions: seq<Action>) {
    forall i :: 0 <= i < |actions| ==> IsWork(actions[i]) || IsAside(actions[i])
  }

  /** How many of the steps are work that changes anything. */
  ghost function WorkDone(s: State, actions: seq<Action>): nat
    decreases |actions|
  {
    if actions == [] then 0
    else
      (if IsWork(actions[0]) && Step(s, actions[0]) != s then 1 else 0) + WorkDone(Step(s, actions[0]), actions[1..])
  }

  lemma AsideKeepsBacklog(s: State, a: Action)
    requires Inv(s) && s.phase.Up? && IsAside(a)
    ensures Step(s, a).phase.Up? && Backlog(Step(s, a)) == Backlog(s)
  {
    RequestRefinesQueue(s, a);
  }

  lemma WorkStepIsBounded(s: State, a: Action)
    requires Inv(s) && Q.QueueInv(QueueOf(s)) && s.phase.Up? && (IsWork(a) || IsAside(a))
    ensures var after := Step(s, a);
      && Inv(after) && Q.QueueInv(QueueOf(after)) && after.phase.Up?
      && (if IsWork(a) && after != s then 1 else 0) + Backlog(after) <= Backlog(s)
  {
    StepRefinesQueue(s, a);
    StepKeepsInv(s, a);
    Q.NextKeepsInv(QueueOf(s), Image(s, a));
    if IsAside(a) {
      AsideKeepsBacklog(s, a);
    } else {
      StepKeepsJobs(s, a);
      if Step(s, a) != s { WorkShrinksBacklog(s, a); }
    }
  }

  lemma {:induction false} WorkIsBounded(s: State, actions: seq<Action>)
    requires Inv(s) && Q.QueueInv(QueueOf(s)) && s.phase.Up? && NoNewWork(actions)
    ensures var end := Run(s, actions);
      && Inv(end) && Q.QueueInv(QueueOf(end)) && end.phase.Up?
      && WorkDone(s, actions) + Backlog(end) <= Backlog(s)
    decreases |actions|
  {
    if actions != [] {
      WorkStepIsBounded(s, actions[0]);
      WorkIsBounded(Step(s, actions[0]), actions[1..]);
    }
  }

  lemma ImageIsNoNewWork(s: State, a: Action)
    requires IsWork(a) || IsAside(a)
    ensures Q.IsWork(Image(s, a)) || Q.IsAside(Image(s, a))
  {
  }

  lemma {:induction false} ImagesAreNoNewWork(s: State, actions: seq<Action>)
    requires NoNewWork(actions)
    ensures Q.NoNewWork(Images(s, actions))
    decreases |actions|
  {
    if actions != [] {
      ImageIsNoNewWork(s, actions[0]);
      ImagesAreNoNewWork(Step(s, actions[0]), actions[1..]);
    }
  }

  lemma RequestKeepsPin(s: State, a: Action, j: Id)
    requires j in s.db.jobs
    ensures j in Request(s, a).db.jobs && Request(s, a).db.jobs[j] == s.db.jobs[j]
  {
  }

  /** The configuration revision that a job pinned at its admission is the one it keeps. */
  lemma StepKeepsPin(s: State, a: Action, j: Id)
    requires j in s.db.jobs
    ensures j in Step(s, a).db.jobs
    ensures Step(s, a).db.jobs[j].config == s.db.jobs[j].config && Step(s, a).db.jobs[j].project == s.db.jobs[j].project
  {
    if !IsRequest(a) && !a.Crash? && s.phase.Up? {
      UpStepIsWork(s, a);
      WorkKeepsPin(s, a, j);
    } else if IsRequest(a) {
      RequestKeepsPin(s, a, j);
    }
  }

  lemma {:induction false} PinsStay(s: State, actions: seq<Action>, j: Id)
    requires j in s.db.jobs
    ensures j in Run(s, actions).db.jobs
    ensures Run(s, actions).db.jobs[j].config == s.db.jobs[j].config
    ensures Run(s, actions).db.jobs[j].project == s.db.jobs[j].project
    decreases |actions|
  {
    if actions != [] {
      StepKeepsPin(s, actions[0], j);
      PinsStay(Step(s, actions[0]), actions[1..], j);
    }
  }

  /** With an empty backlog, every job that was queued has reached Process, and no job is queued or running. */
  lemma EmptyBacklogMeansDone(s: State, actions: seq<Action>)
    requires Inv(s) && Q.QueueInv(QueueOf(s)) && s.phase.Up? && NoNewWork(actions) && Backlog(Run(s, actions)) == 0
    ensures forall j :: j in Run(s, actions).db.jobs ==> Terminal(Run(s, actions).db, j)
    ensures forall j :: Claimable(s.db, j) ==> j in Run(s, actions).processed
  {
    var end := Run(s, actions);
    WorkIsBounded(s, actions);
    Q.EmptyBacklogIsDone(QueueOf(end));
    RunRefinesQueue(s, actions);
    ImagesAreNoNewWork(s, actions);
    forall j | Claimable(s.db, j) ensures j in end.processed {
      Q.WorkProcessesWaiting(QueueOf(s), Images(s, actions), j);
      PinsStay(s, actions, j);
    }
  }

  /**
   * Without new work and crashes, and with cleanups, runtime requests and status writes at any point: the worker makes
   * no more than Backlog(s) effective steps, whatever the container calls answer, and when no step of it changes
   * anything any more, every job that was queued has reached Process, and no job is queued or running.
   */
  lemma WorkerDrainsQueue(s: State, actions: seq<Action>)
    requires Inv(s) && Q.QueueInv(QueueOf(s)) && s.phase.Up? && NoNewWork(actions)
    ensures WorkDone(s, actions) + Backlog(Run(s, actions)) <= Backlog(s)
    ensures (forall a :: IsWork(a) ==> Step(Run(s, actions), a) == Run(s, actions)) ==>
      && (forall j :: j in Run(s, actions).db.jobs ==> Terminal(Run(s, actions).db, j))
      && (forall j :: Claimable(s.db, j) ==> j in Run(s, actions).processed)
  {
    WorkIsBounded(s, actions);
    if Backlog(Run(s, actions)) > 0 {
      var a := WorkIsPossible(Run(s, actions));
    } else {
      EmptyBacklogMeansDone(s, actions);
    }
  }
}
