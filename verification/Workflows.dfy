/**
 * Workflow definitions and runs: the transactions, and the workflow manager as a state machine on
 * top of the shared queue. Idempotency keys and trigger types are trimmed before they get here.
 */
module Workflows {
  import opened Tables
  import Q = WorkQueue

  datatype Workflow = Workflow(project: Name, name: Name)

  datatype RunStatus =
    RunQueued | RunPreparing | RunRunning | RunSucceeded | RunFailed | RunSkipped | RunCanceled | RunTimedOut

  /** `config` is the configuration revision that the run pins; a skipped run pins none. */
  datatype WorkflowRun = WorkflowRun(workflow: Workflow, status: RunStatus, key: string, config: Option<Id>)

  datatype WorkflowTables = WorkflowTables(
    caps: map<Workflow, int>,           // workflows and their queue_cap
    runs: map<Id, WorkflowRun>,
    tokens: map<Id, Workflow>
  )

  const DEFAULT_CAP := 64

  function EffectiveCap(cap: int): int {
    if cap <= 0 then DEFAULT_CAP else cap
  }

  predicate IsActive(status: RunStatus) {
    status == RunQueued || status == RunPreparing || status == RunRunning
  }

  function ActiveRuns(t: WorkflowTables, w: Workflow): set<Id> {
    set r | r in t.runs && t.runs[r].workflow == w && IsActive(t.runs[r].status)
  }

  ghost predicate HasKey(t: WorkflowTables, r: Id, w: Workflow, key: string) {
    r in t.runs && t.runs[r].workflow == w && t.runs[r].key == key
  }

  // ---- Transactions; None is a rollback ----

  function Upsert(t: WorkflowTables, w: Workflow, cap: int): WorkflowTables {
    t.(caps := t.caps[w := EffectiveCap(cap)])
  }

  /** A definition that runs still refer to cannot go: the foreign key stops the delete. */
  ghost function DeleteDefinition(t: WorkflowTables, w: Workflow): Option<WorkflowTables> {
    if w !in t.caps || exists r :: r in t.runs && t.runs[r].workflow == w then None
    else Some(t.(caps := t.caps - {w}, tokens := map k | k in t.tokens && t.tokens[k] != w :: t.tokens[k]))
  }

  /** The cap of `w` and its tokens are gone, and nothing else has changed. */
  ghost predicate DefinitionGone(before: WorkflowTables, after: WorkflowTables, w: Workflow) {
    && after.runs == before.runs
    && (forall v :: v in after.caps <==> v in before.caps && v != w)
    && (forall v :: v in after.caps ==> after.caps[v] == before.caps[v])
    && (forall k :: k in after.tokens <==> k in before.tokens && before.tokens[k] != w)
    && (forall k :: k in after.tokens ==> after.tokens[k] == before.tokens[k])
  }

  datatype CreateAnswer = NotFound | QueueFull | Existing(id: Id) | Created(id: Id)

  /** The answer of createQueuedWorkflowRunWithOptions for a fresh id `r`. */
  ghost function AnswerOf(t: WorkflowTables, r: Id, w: Workflow, key: string): CreateAnswer {
    if w !in t.caps then NotFound
    else if key != "" && exists e :: HasKey(t, e, w, key) then (var e :| HasKey(t, e, w, key); Existing(e))
    else if |ActiveRuns(t, w)| >= EffectiveCap(t.caps[w]) then QueueFull
    else Created(r)
  }

  ghost function AfterCreate(t: WorkflowTables, r: Id, w: Workflow, key: string, config: Option<Id>): WorkflowTables {
    if AnswerOf(t, r, w, key).Created? then t.(runs := t.runs[r := WorkflowRun(w, RunQueued, key, config)]) else t
  }

  function TickedRun(t: WorkflowTables, w: Workflow, config: Option<Id>): WorkflowRun {
    if ActiveRuns(t, w) == {} then WorkflowRun(w, RunQueued, "", config) else WorkflowRun(w, RunSkipped, "", None)
  }

  /** What a scheduled tick inserts: a queued run when nothing is active, else a skipped one. */
  ghost function AfterTick(t: WorkflowTables, r: Id, w: Workflow, config: Option<Id>): WorkflowTables {
    if w !in t.caps then t
    else t.(runs := t.runs[r := TickedRun(t, w, config)])
  }

  function WithRunStatus(t: WorkflowTables, r: Id, status: RunStatus): WorkflowTables
    requires r in t.runs
  {
    t.(runs := t.runs[r := t.runs[r].(status := status)])
  }

  predicate ClaimableRun(t: WorkflowTables, r: Id) {
    r in t.runs && t.runs[r].status == RunQueued
  }

  /** Success needs a running row; failure and timeout also accept a preparing one. */
  function MarkRun(t: WorkflowTables, r: Id, status: RunStatus): WorkflowTables {
    if r in t.runs && (t.runs[r].status == RunRunning || (status != RunSucceeded && t.runs[r].status == RunPreparing))
    then WithRunStatus(t, r, status)
    else t
  }

  function RunsOf(t: WorkflowTables, p: Name): set<Id> {
    set r | r in t.runs && t.runs[r].workflow.project == p
  }

  function ClearWorkflows(t: WorkflowTables, p: Name): WorkflowTables {
    WorkflowTables(
      map w | w in t.caps && w.project != p :: t.caps[w],
      t.runs - RunsOf(t, p),
      map k | k in t.tokens && t.tokens[k].project != p :: t.tokens[k])
  }

  // ---- The manager ----

  /** All answers to successful creates with one key: the run ids returned, and how often one was created. */
  datatype Answers = Answers(ids: set<Id>, created: nat)

  datatype Manager = Manager(
    t: WorkflowTables,
    up: bool,
    channel: seq<Id>,
    senders: seq<Id>,
    hand: Q.Hand,
    processed: seq<Id>,
    used: set<Id>,                  // history: ids of all runs ever inserted
    answers: map<(Workflow, string), Answers>, // history: keyed creates since the project's last cleanup
    largestCap: map<Workflow, int>  // history: the largest queue_cap a workflow ever had
  )

  datatype Action =
    | UpsertWorkflow(workflow: Workflow, cap: int)
    | DeleteWorkflow(workflow: Workflow)
    | CreateRun(id: Id, workflow: Workflow, key: string, config: Option<Id>)
    | Tick(id: Id, workflow: Workflow, config: Option<Id>)
    | EnqueueAgain(id: Id)
    | ClearProject(project: Name)
    | Send(index: nat)
    | Receive
    | Claim
    | Finish(status: RunStatus)
    | Crash
    | Recover(id: Id)
    | Boot(order: seq<Id>)

  function RaisedCap(m: Manager, w: Workflow, cap: int): int {
    if w in m.largestCap && m.largestCap[w] >= EffectiveCap(cap) then m.largestCap[w] else EffectiveCap(cap)
  }

  function Record(answers: map<(Workflow, string), Answers>, w: Workflow, key: string, id: Id, created: bool):
    map<(Workflow, string), Answers>
  {
    var before := if (w, key) in answers then answers[(w, key)] else Answers({}, 0);
    answers[(w, key) := Answers(before.ids + {id}, before.created + if created then 1 else 0)]
  }

  ghost function Request(m: Manager, a: Action): Manager
    requires m.up
  {
    match a
    case UpsertWorkflow(w, cap) =>
      m.(t := Upsert(m.t, w, cap), largestCap := m.largestCap[w := RaisedCap(m, w, cap)])
    case DeleteWorkflow(w) =>
      if DeleteDefinition(m.t, w).Some? then m.(t := DeleteDefinition(m.t, w).value) else m
    case CreateRun(id, w, key, config) =>
      if id in m.used then m
      else
        var answer := AnswerOf(m.t, id, w, key);
        var answered :=
          if (answer.Existing? || answer.Created?) && key != ""
          then m.(answers := Record(m.answers, w, key, answer.id, answer.Created?))
          else m;
        if answer.Created?
        then answered.(t := AfterCreate(m.t, id, w, key, config), used := m.used + {id}, senders := m.senders + [id])
        else answered
    case Tick(id, w, config) =>
      if id in m.used || w !in m.t.caps then m
      else m.(t := AfterTick(m.t, id, w, config), used := m.used + {id},
              senders := if ActiveRuns(m.t, w) == {} then m.senders + [id] else m.senders)
    case EnqueueAgain(id) => if id in m.used then m.(senders := m.senders + [id]) else m
    case ClearProject(p) =>
      m.(t := ClearWorkflows(m.t, p), answers := map k | k in m.answers && k.0.project != p :: m.answers[k])
    case _ => m
  }

  function Work(m: Manager, a: Action): Manager
    requires m.up
  {
    match a
    case Send(k) =>
      if k < |m.senders| && |m.channel| < Q.CAPACITY
      then m.(channel := m.channel + [m.senders[k]], senders := m.senders[..k] + m.senders[k + 1..])
      else m
    case Receive =>
      if m.hand == Q.Free && m.channel != [] then m.(hand := Q.Held(m.channel[0]), channel := m.channel[1..]) else m
    case Claim =>
      if !m.hand.Held? then m
      else if ClaimableRun(m.t, m.hand.id)
      then m.(t := WithRunStatus(m.t, m.hand.id, RunRunning), hand := Q.Busy(m.hand.id),
              processed := m.processed + [m.hand.id])
      else m.(hand := Q.Free)
    case Finish(status) =>
      if m.hand.Busy? && (status == RunSucceeded || status == RunFailed || status == RunTimedOut)
      then m.(t := MarkRun(m.t, m.hand.id, status), hand := Q.Free)
      else m
    case _ => m
  }

  ghost function Restart(m: Manager, a: Action): Manager
    requires !m.up
  {
    match a
    case Recover(id) => m.(t := MarkRun(m.t, id, RunFailed))
    case Boot(order) =>
      if && (forall r :: r in m.t.runs ==> m.t.runs[r].status != RunPreparing && m.t.runs[r].status != RunRunning)
         && (forall r :: r in order <==> ClaimableRun(m.t, r))
      then m.(up := true, senders := order)
      else m
    case _ => m
  }

  predicate IsRequest(a: Action) {
    a.UpsertWorkflow? || a.DeleteWorkflow? || a.CreateRun? || a.Tick? || a.EnqueueAgain? || a.ClearProject?
  }

  ghost function Step(m: Manager, a: Action): Manager {
    if a.Crash? then m.(up := false, channel := [], senders := [], hand := Q.Free)
    else if !m.up then Restart(m, a)
    else if IsRequest(a) then Request(m, a)
    else Work(m, a)
  }

  ghost function Run(m: Manager, actions: seq<Action>): Manager
    decreases |actions|
  {
    if actions == [] then m else Run(Step(m, actions[0]), actions[1..])
  }

  const INITIAL := Manager(WorkflowTables(map[], map[], map[]), true, [], [], Q.Free, [], {}, map[], map[])

  // ---- Refinement of the queue ----

  function StageOf(status: RunStatus): Q.Stage {
    if status == RunQueued then Q.Waiting
    else if status == RunPreparing || status == RunRunning then Q.Taken
    else Q.Finished
  }

  function StagesOf(runs: map<Id, WorkflowRun>): map<Id, Q.Stage> {
    map r | r in runs :: StageOf(runs[r].status)
  }

  function QueueOf(m: Manager): Q.Queue {
    Q.Queue(StagesOf(m.t.runs), m.up, m.channel, m.senders, m.hand, m.processed, m.used)
  }

  ghost function Image(m: Manager, a: Action): Q.QueueAction {
    match a
    case CreateRun(id, w, key, config) =>
      if m.up && AnswerOf(m.t, id, w, key).Created? then Q.Insert(id, Q.Waiting) else Q.Stutter
    case Tick(id, w, config) =>
      if m.up && w in m.t.caps
      then Q.Insert(id, if ActiveRuns(m.t, w) == {} then Q.Waiting else Q.Finished) else Q.Stutter
    case EnqueueAgain(id) => if m.up then Q.EnqueueAgain(id) else Q.Stutter
    case ClearProject(p) => if m.up then Q.Delete(RunsOf(m.t, p)) else Q.Stutter
    case Send(k) => if m.up then Q.Send(k) else Q.Stutter
    case Receive => if m.up then Q.Receive else Q.Stutter
    case Claim => if m.up then Q.Claim else Q.Stutter
    case Finish(status) => if m.up && Step(m, a) != m then Q.Finish else Q.Stutter
    case Crash => Q.Crash
    case Recover(id) => Q.Recover(id)
    case Boot(order) => Q.Boot(order)
    case _ => Q.Stutter
  }

  lemma StagesAfterUpdate(runs: map<Id, WorkflowRun>, r: Id, row: WorkflowRun)
    ensures StagesOf(runs[r := row]) == StagesOf(runs)[r := StageOf(row.status)]
  {
  }

  lemma CreateRefinesQueue(m: Manager, id: Id, w: Workflow, key: string, config: Option<Id>)
    requires Q.QueueInv(QueueOf(m)) && m.up
    ensures QueueOf(Request(m, CreateRun(id, w, key, config))) ==
      Q.Next(QueueOf(m), Image(m, CreateRun(id, w, key, config)))
  {
    StagesAfterUpdate(m.t.runs, id, WorkflowRun(w, RunQueued, key, config));
  }

  lemma TickRefinesQueue(m: Manager, id: Id, w: Workflow, config: Option<Id>)
    requires Q.QueueInv(QueueOf(m)) && m.up
    ensures QueueOf(Request(m, Tick(id, w, config))) == Q.Next(QueueOf(m), Image(m, Tick(id, w, config)))
  {
    StagesAfterUpdate(m.t.runs, id, TickedRun(m.t, w, config));
  }

  lemma ClearRefinesQueue(m: Manager, p: Name)
    requires m.up
    ensures QueueOf(Request(m, ClearProject(p))) == Q.Next(QueueOf(m), Image(m, ClearProject(p)))
  {
    assert StagesOf(m.t.runs - RunsOf(m.t, p)) == StagesOf(m.t.runs) - RunsOf(m.t, p);
  }

  lemma RequestRefinesQueue(m: Manager, a: Action)
    requires Q.QueueInv(QueueOf(m)) && m.up && IsRequest(a)
    ensures QueueOf(Request(m, a)) == Q.Next(QueueOf(m), Image(m, a))
  {
    match a
    case CreateRun(id, w, key, config) => CreateRefinesQueue(m, id, w, key, config);
    case Tick(id, w, config) => TickRefinesQueue(m, id, w, config);
    case ClearProject(p) => ClearRefinesQueue(m, p);
    case _ =>
  }

  lemma WorkRefinesQueue(m: Manager, a: Action)
    requires Q.QueueInv(QueueOf(m)) && NothingPreparing(m.t)
    requires m.up && !IsRequest(a) && !a.Crash? && !a.Recover? && !a.Boot?
    ensures QueueOf(Work(m, a)) == Q.Next(QueueOf(m), Image(m, a))
  {
    match a
    case Claim =>
      if m.hand.Held? && ClaimableRun(m.t, m.hand.id) {
        StagesAfterUpdate(m.t.runs, m.hand.id, m.t.runs[m.hand.id].(status := RunRunning));
      }
    case Finish(status) =>
      if m.hand.Busy? && m.hand.id in m.t.runs {
        assert QueueOf(m).rows[m.hand.id] == Q.Taken;
        StagesAfterUpdate(m.t.runs, m.hand.id, m.t.runs[m.hand.id].(status := status));
      }
    case _ =>
  }

  lemma RecoverRefinesQueue(m: Manager, id: Id)
    requires !m.up
    ensures QueueOf(Restart(m, Recover(id))) == Q.Next(QueueOf(m), Q.Recover(id))
  {
    if id in m.t.runs {
      StagesAfterUpdate(m.t.runs, id, m.t.runs[id].(status := RunFailed));
    }
  }

  lemma BootRefinesQueue(m: Manager, order: seq<Id>)
    requires Q.QueueInv(QueueOf(m)) && !m.up
    ensures QueueOf(Restart(m, Boot(order))) == Q.Next(QueueOf(m), Q.Boot(order))
  {
    var q := QueueOf(m);
    assert forall r :: r in m.t.runs ==> q.rows[r] == StageOf(m.t.runs[r].status);
    assert forall r :: ClaimableRun(m.t, r) <==> r in q.rows && q.rows[r] == Q.Waiting;
  }

  lemma RestartRefinesQueue(m: Manager, a: Action)
    requires Q.QueueInv(QueueOf(m)) && !m.up && (a.Recover? || a.Boot?)
    ensures QueueOf(Restart(m, a)) == Q.Next(QueueOf(m), Image(m, a))
  {
    match a
    case Recover(id) => RecoverRefinesQueue(m, id);
    case Boot(order) => BootRefinesQueue(m, order);
  }

  /** Every step of the workflow manager is the queue step that Image names. */
  lemma StepRefinesQueue(m: Manager, a: Action)
    requires Q.QueueInv(QueueOf(m)) && NothingPreparing(m.t)
    ensures QueueOf(Step(m, a)) == Q.Next(QueueOf(m), Image(m, a))
  {
    if a.Crash? {
    } else if !m.up && (a.Recover? || a.Boot?) {
      RestartRefinesQueue(m, a);
    } else if m.up && IsRequest(a) {
      RequestRefinesQueue(m, a);
    } else if m.up && !a.Recover? && !a.Boot? {
      WorkRefinesQueue(m, a);
    }
  }

  // ---- Invariant ----

  /** No statement writes the status "preparing". */
  ghost predicate NothingPreparing(t: WorkflowTables) {
    forall r :: r in t.runs ==> t.runs[r].status != RunPreparing
  }

  /** The unique index on (project, workflow, key). */
  ghost predicate KeysAreUnique(t: WorkflowTables) {
    forall r, e, w, key :: HasKey(t, r, w, key) && HasKey(t, e, w, key) && key != "" ==> r == e
  }

  /** Every workflow's active runs are within the largest cap it ever had. */
  ghost predicate CapsHold(m: Manager) {
    && m.t.caps.Keys <= m.largestCap.Keys
    && (forall w :: w in m.t.caps ==> 0 < m.t.caps[w] <= m.largestCap[w])
    && (forall r :: r in m.t.runs ==> m.t.runs[r].workflow in m.t.caps)
    && (forall w :: w in m.largestCap ==> |ActiveRuns(m.t, w)| <= m.largestCap[w])
  }

  /** A key was answered exactly when a row carries it; all its answers name that row, and one created it. */
  ghost predicate AnswersHold(m: Manager) {
    && (forall r, w, key :: HasKey(m.t, r, w, key) && key != "" ==> (w, key) in m.answers)
    && (forall w, key :: (w, key) in m.answers ==> key != "" && AnswerHolds(m, w, key))
  }

  ghost predicate AnswerHolds(m: Manager, w: Workflow, key: string)
    requires (w, key) in m.answers
  {
    m.answers[(w, key)].created == 1 && exists r :: HasKey(m.t, r, w, key) && m.answers[(w, key)].ids == {r}
  }

  ghost predicate Inv(m: Manager) {
    && Q.QueueInv(QueueOf(m)) && NothingPreparing(m.t) && KeysAreUnique(m.t) && CapsHold(m) && AnswersHold(m)
  }

  lemma FewerActiveRuns(before: WorkflowTables, after: WorkflowTables, w: Workflow)
    requires ActiveRuns(after, w) <= ActiveRuns(before, w)
    ensures |ActiveRuns(after, w)| <= |ActiveRuns(before, w)|
  {
    var gone := ActiveRuns(before, w) - ActiveRuns(after, w);
    assert ActiveRuns(before, w) == ActiveRuns(after, w) + gone;
  }

  lemma OneMoreActiveRun(t: WorkflowTables, r: Id, run: WorkflowRun, w: Workflow)
    requires r !in t.runs
    ensures var after := t.(runs := t.runs[r := run]);
      ActiveRuns(after, w) == ActiveRuns(t, w) + (if run.workflow == w && IsActive(run.status) then {r} else {})
  {
  }

  /** Changes of one run's status that keep it active or close it leave every count bounded. */
  lemma StatusChangeKeepsRest(m: Manager, r: Id, status: RunStatus)
    requires r in m.t.runs && status != RunPreparing && status != RunQueued && IsActive(m.t.runs[r].status)
    requires NothingPreparing(m.t) && KeysAreUnique(m.t) && CapsHold(m) && AnswersHold(m)
    ensures var after := m.(t := WithRunStatus(m.t, r, status));
      NothingPreparing(after.t) && KeysAreUnique(after.t) && CapsHold(after) && AnswersHold(after)
  {
    var after := m.(t := WithRunStatus(m.t, r, status));
    forall w { FewerActiveRuns(m.t, after.t, w); }
    forall e, w, key ensures HasKey(after.t, e, w, key) <==> HasKey(m.t, e, w, key) {}
  }

  /** Inserting a fresh run keeps the caps, when an active one still fits under its workflow's cap. */
  lemma InsertKeepsCaps(m: Manager, id: Id, run: WorkflowRun)
    requires CapsHold(m) && id !in m.t.runs && run.workflow in m.t.caps
    requires IsActive(run.status) ==> |ActiveRuns(m.t, run.workflow)| < m.t.caps[run.workflow]
    ensures CapsHold(m.(t := m.t.(runs := m.t.runs[id := run])))
  {
    forall v { OneMoreActiveRun(m.t, id, run, v); }
  }

  /** Inserting a fresh run keeps keys unique, when no row has its key. */
  lemma InsertKeepsKeys(t: WorkflowTables, id: Id, run: WorkflowRun)
    requires KeysAreUnique(t) && NothingPreparing(t) && id !in t.runs && run.status != RunPreparing
    requires run.key != "" ==> !exists e :: HasKey(t, e, run.workflow, run.key)
    ensures var after := t.(runs := t.runs[id := run]);
      && KeysAreUnique(after) && NothingPreparing(after)
      && (forall r, v, k :: HasKey(after, r, v, k) <==>
           HasKey(t, r, v, k) || (r == id && v == run.workflow && k == run.key))
  {
    var after := t.(runs := t.runs[id := run]);
    forall r, v, k ensures HasKey(after, r, v, k) <==>
      HasKey(t, r, v, k) || (r == id && v == run.workflow && k == run.key) {}
  }

  /** A new keyed row and its first answer, "created". */
  lemma FirstAnswerHolds(m: Manager, id: Id, w: Workflow, key: string, config: Option<Id>)
    requires AnswersHold(m) && KeysAreUnique(m.t) && NothingPreparing(m.t) && id !in m.t.runs
    requires key != "" ==> !exists e :: HasKey(m.t, e, w, key)
    ensures AnswersHold(m.(t := m.t.(runs := m.t.runs[id := WorkflowRun(w, RunQueued, key, config)]),
                           answers := if key != "" then Record(m.answers, w, key, id, true) else m.answers))
  {
    InsertKeepsKeys(m.t, id, WorkflowRun(w, RunQueued, key, config));
    var after := m.(t := m.t.(runs := m.t.runs[id := WorkflowRun(w, RunQueued, key, config)]),
                    answers := if key != "" then Record(m.answers, w, key, id, true) else m.answers);
    forall v, k | (v, k) in after.answers
      ensures k != "" && AnswerHolds(after, v, k)
    {
      if v == w && k == key {
        assert HasKey(after.t, id, w, key);
      } else {
        assert AnswerHolds(m, v, k);
      }
    }
  }

  /** Another answer with the key of an existing row names that row. */
  lemma RepeatedAnswerHolds(m: Manager, e: Id, w: Workflow, key: string)
    requires AnswersHold(m) && KeysAreUnique(m.t) && key != "" && HasKey(m.t, e, w, key)
    ensures AnswersHold(m.(answers := Record(m.answers, w, key, e, false)))
  {
    var after := m.(answers := Record(m.answers, w, key, e, false));
    forall v, k | (v, k) in after.answers
      ensures k != "" && AnswerHolds(after, v, k)
    {
      assert (w, key) in m.answers && AnswerHolds(m, v, k);
      if v == w && k == key {
        assert m.answers[(w, key)].ids == {e};
      }
    }
  }

  lemma CreateKeepsAnswers(m: Manager, id: Id, w: Workflow, key: string, config: Option<Id>)
    requires Inv(m) && m.up && id !in m.used
    ensures AnswersHold(Request(m, CreateRun(id, w, key, config)))
  {
    var after := Request(m, CreateRun(id, w, key, config));
    var answer := AnswerOf(m.t, id, w, key);
    if answer.Created? {
      FirstAnswerHolds(m, id, w, key, config);
    } else if answer.Existing? {
      RepeatedAnswerHolds(m, answer.id, w, key);
    }
    assert forall v, k :: (v, k) in after.answers && AnswerHolds(m.(t := after.t, answers := after.answers), v, k) ==>
      AnswerHolds(after, v, k);
  }

  lemma CreateKeepsInv(m: Manager, id: Id, w: Workflow, key: string, config: Option<Id>)
    requires Inv(m) && m.up
    ensures Inv(Request(m, CreateRun(id, w, key, config)))
  {
    RequestRefinesQueue(m, CreateRun(id, w, key, config));
    Q.NextKeepsInv(QueueOf(m), Image(m, CreateRun(id, w, key, config)));
    if id !in m.used {
      CreateKeepsAnswers(m, id, w, key, config);
      if AnswerOf(m.t, id, w, key).Created? {
        InsertKeepsCaps(m, id, WorkflowRun(w, RunQueued, key, config));
        InsertKeepsKeys(m.t, id, WorkflowRun(w, RunQueued, key, config));
      }
    }
  }

  lemma TickKeepsInv(m: Manager, id: Id, w: Workflow, config: Option<Id>)
    requires Inv(m) && m.up
    ensures Inv(Request(m, Tick(id, w, config)))
  {
    RequestRefinesQueue(m, Tick(id, w, config));
    Q.NextKeepsInv(QueueOf(m), Image(m, Tick(id, w, config)));
    if id !in m.used && w in m.t.caps {
      var after := Request(m, Tick(id, w, config));
      InsertKeepsCaps(m, id, after.t.runs[id]);
      InsertKeepsKeys(m.t, id, after.t.runs[id]);
      forall v, k | (v, k) in m.answers ensures AnswerHolds(after, v, k) {
        assert AnswerHolds(m, v, k);
      }
    }
  }

  lemma ClearKeepsInv(m: Manager, p: Name)
    requires Inv(m) && m.up
    ensures Inv(Request(m, ClearProject(p)))
  {
    var after := Request(m, ClearProject(p));
    RequestRefinesQueue(m, ClearProject(p));
    Q.NextKeepsInv(QueueOf(m), Image(m, ClearProject(p)));
    forall v { FewerActiveRuns(m.t, after.t, v); }
    forall r, v, k ensures HasKey(after.t, r, v, k) <==> HasKey(m.t, r, v, k) && v.project != p {}
  }

  lemma DefinitionsKeepInv(m: Manager, a: Action)
    requires Inv(m) && m.up && (a.UpsertWorkflow? || a.DeleteWorkflow? || a.EnqueueAgain?)
    ensures Inv(Request(m, a))
  {
    var after := Request(m, a);
    RequestRefinesQueue(m, a);
    Q.NextKeepsInv(QueueOf(m), Image(m, a));
    assert after.t.runs == m.t.runs;
    assert forall w :: ActiveRuns(after.t, w) == ActiveRuns(m.t, w);
    forall r, v, k ensures HasKey(after.t, r, v, k) <==> HasKey(m.t, r, v, k) {}
    if a.UpsertWorkflow? && a.workflow !in m.t.caps {
      assert ActiveRuns(m.t, a.workflow) == {} by {
        forall r ensures r !in ActiveRuns(m.t, a.workflow) {
          assert r in m.t.runs ==> m.t.runs[r].workflow in m.t.caps;
        }
      }
    }
  }

  lemma WorkKeepsInv(m: Manager, a: Action)
    requires Inv(m) && m.up && !IsRequest(a) && !a.Crash? && !a.Recover? && !a.Boot?
    ensures Inv(Work(m, a))
  {
    WorkRefinesQueue(m, a);
    Q.NextKeepsInv(QueueOf(m), Image(m, a));
    if a.Claim? && m.hand.Held? && ClaimableRun(m.t, m.hand.id) {
      StatusChangeKeepsRest(m, m.hand.id, RunRunning);
    } else if a.Finish? && Work(m, a).hand != m.hand && m.hand.id in m.t.runs
         && m.t.runs[m.hand.id].status == RunRunning {
      StatusChangeKeepsRest(m, m.hand.id, a.status);
    }
  }

  lemma RestartKeepsInv(m: Manager, a: Action)
    requires Inv(m) && !m.up && (a.Recover? || a.Boot?)
    ensures Inv(Restart(m, a))
  {
    RestartRefinesQueue(m, a);
    Q.NextKeepsInv(QueueOf(m), Image(m, a));
    if a.Recover? && a.id in m.t.runs && m.t.runs[a.id].status == RunRunning {
      StatusChangeKeepsRest(m, a.id, RunFailed);
    }
  }

  lemma StepKeepsInv(m: Manager, a: Action)
    requires Inv(m)
    ensures Inv(Step(m, a))
  {
    if a.Crash? {
      StepRefinesQueue(m, a);
      Q.NextKeepsInv(QueueOf(m), Image(m, a));
    } else if !m.up {
      if a.Recover? || a.Boot? { RestartKeepsInv(m, a); }
    } else {
      match a
      case CreateRun(id, w, key, config) => CreateKeepsInv(m, id, w, key, config);
      case Tick(id, w, config) => TickKeepsInv(m, id, w, config);
      case ClearProject(p) => ClearKeepsInv(m, p);
      case Recover(_) =>
      case Boot(_) =>
      case _ => if IsRequest(a) { DefinitionsKeepInv(m, a); } else { WorkKeepsInv(m, a); }
    }
  }

  lemma {:induction false} RunKeepsInv(m: Manager, actions: seq<Action>)
    requires Inv(m)
    ensures Inv(Run(m, actions))
    decreases |actions|
  {
    if actions != [] {
      StepKeepsInv(m, actions[0]);
      RunKeepsInv(Step(m, actions[0]), actions[1..]);
    }
  }

  // ---- Definitions ----

  /** Nothing among `actions` redefines or removes `w`. */
  ghost predicate LeavesDefinition(actions: seq<Action>, w: Workflow) {
    forall a :: a in actions ==>
      !(a.UpsertWorkflow? && a.workflow == w) && a != DeleteWorkflow(w) && a != ClearProject(w.project)
  }

  lemma StepKeepsCap(m: Manager, a: Action, w: Workflow)
    requires w in m.t.caps && LeavesDefinition([a], w)
    ensures w in Step(m, a).t.caps && Step(m, a).t.caps[w] == m.t.caps[w]
  {
    assert a in [a];
  }

  lemma {:induction false} CapStays(m: Manager, actions: seq<Action>, w: Workflow)
    requires w in m.t.caps && LeavesDefinition(actions, w)
    ensures w in Run(m, actions).t.caps && Run(m, actions).t.caps[w] == m.t.caps[w]
    decreases |actions|
  {
    if actions != [] {
      assert actions[0] in actions;
      StepKeepsCap(m, actions[0], w);
      CapStays(Step(m, actions[0]), actions[1..], w);
    }
  }

  /** Until a workflow is redefined or removed, its cap is the one that was asked for, or 64 if that is not positive. */
  lemma UpsertedCapStays(m: Manager, w: Workflow, cap: int, actions: seq<Action>)
    requires m.up && LeavesDefinition(actions, w)
    ensures var after := Run(Step(m, UpsertWorkflow(w, cap)), actions).t;
      w in after.caps && after.caps[w] == if cap > 0 then cap else 64
  {
    CapStays(Step(m, UpsertWorkflow(w, cap)), actions, w);
  }

  /** A definition goes, with its tokens and nothing else, if and only if it is there and no run refers to it. */
  lemma DefinitionGoesIff(m: Manager, w: Workflow)
    requires m.up && w in m.t.caps
    ensures var after := Step(m, DeleteWorkflow(w)).t;
      if exists r :: r in m.t.runs && m.t.runs[r].workflow == w then after == m.t else DefinitionGone(m.t, after, w)
  {
  }

  // ---- What holds over whole histories ----

  /**
   * Over every history, all successful creates with one key since the project's last cleanup returned
   * the same run id, exactly one of them created it, and exactly one row carries the key.
   */
  lemma KeyedCreatesAgree(actions: seq<Action>, w: Workflow, key: string)
    requires (w, key) in Run(INITIAL, actions).answers
    ensures var m := Run(INITIAL, actions);
      && m.answers[(w, key)].created == 1
      && exists r :: m.answers[(w, key)].ids == {r} && HasKey(m.t, r, w, key)
           && forall e :: HasKey(m.t, e, w, key) ==> e == r
  {
    var m := Run(INITIAL, actions);
    RunKeepsInv(INITIAL, actions);
    assert AnswerHolds(m, w, key);
  }

  lemma StepKeepsKeyedRow(m: Manager, a: Action, r: Id, w: Workflow, key: string)
    requires Inv(m) && HasKey(m.t, r, w, key) && a != ClearProject(w.project)
    ensures HasKey(Step(m, a).t, r, w, key)
  {
  }

  /**
   * Until the project is cleaned up, a create with a known key returns the run that carries it, however
   * many steps lie between: also when the queue is full by then, or the run has long finished.
   */
  lemma {:induction false} KnownKeyIsAnswered(m: Manager, actions: seq<Action>, newId: Id, r: Id, w: Workflow,
          key: string)
    requires Inv(m) && HasKey(m.t, r, w, key) && key != ""
    requires ClearProject(w.project) !in actions
    ensures AnswerOf(Run(m, actions).t, newId, w, key) == Existing(r)
    decreases |actions|
  {
    if actions != [] {
      StepKeepsInv(m, actions[0]);
      StepKeepsKeyedRow(m, actions[0], r, w, key);
      KnownKeyIsAnswered(Step(m, actions[0]), actions[1..], newId, r, w, key);
    }
  }

  /** A workflow never has more queued, preparing and running runs than the largest cap it ever had. */
  lemma QueueBound(actions: seq<Action>, w: Workflow)
    requires w in Run(INITIAL, actions).largestCap
    ensures var m := Run(INITIAL, actions); |ActiveRuns(m.t, w)| <= m.largestCap[w]
  {
    RunKeepsInv(INITIAL, actions);
  }

  /** At or above the present cap no create inserts anything; below it, a new create adds exactly its own run. */
  lemma CreateRespectsCap(t: WorkflowTables, r: Id, w: Workflow, key: string, config: Option<Id>)
    requires r !in t.runs && w in t.caps
    ensures |ActiveRuns(t, w)| >= EffectiveCap(t.caps[w]) ==> AfterCreate(t, r, w, key, config) == t
    ensures AfterCreate(t, r, w, key, config) != t ==>
      ActiveRuns(AfterCreate(t, r, w, key, config), w) == ActiveRuns(t, w) + {r}
    ensures AfterCreate(t, r, w, key, config) == t <==>
      (key != "" && exists e :: HasKey(t, e, w, key)) || |ActiveRuns(t, w)| >= EffectiveCap(t.caps[w])
  {
    assert AnswerOf(t, r, w, key).Created? ==> r in AfterCreate(t, r, w, key, config).runs;
    OneMoreActiveRun(t, r, WorkflowRun(w, RunQueued, key, config), w);
  }

  /** A tick queues its run exactly when nothing is active; otherwise the run is born skipped, and stays so. */
  lemma TickSkipsOnOverlap(t: WorkflowTables, r: Id, w: Workflow, config: Option<Id>)
    requires r !in t.runs && w in t.caps
    ensures ActiveRuns(AfterTick(t, r, w, config), w) == if ActiveRuns(t, w) == {} then {r} else ActiveRuns(t, w)
    ensures ActiveRuns(t, w) != {} ==> StageOf(AfterTick(t, r, w, config).runs[r].status) == Q.Finished
  {
    OneMoreActiveRun(t, r, AfterTick(t, r, w, config).runs[r], w);
  }

  ghost function Images(m: Manager, actions: seq<Action>): seq<Q.QueueAction>
    decreases |actions|
  {
    if actions == [] then [] else [Image(m, actions[0])] + Images(Step(m, actions[0]), actions[1..])
  }

  lemma {:induction false} RunRefinesQueue(m: Manager, actions: seq<Action>)
    requires Inv(m)
    ensures QueueOf(Run(m, actions)) == Q.Run(QueueOf(m), Images(m, actions))
    decreases |actions|
  {
    if actions != [] {
      StepRefinesQueue(m, actions[0]);
      StepKeepsInv(m, actions[0]);
      RunRefinesQueue(Step(m, actions[0]), actions[1..]);
      assert Images(m, actions)[1..] == Images(Step(m, actions[0]), actions[1..]);
    }
  }

  /** No run id reaches Process twice; while Brain is up, no queued run is lost. */
  lemma NoRunLostNoneRunTwice(actions: seq<Action>)
    ensures var m := Run(INITIAL, actions);
      && Q.NoRepeats(m.processed)
      && (m.up ==> forall r :: ClaimableRun(m.t, r) ==> r in m.channel || r in m.senders || m.hand == Q.Held(r))
      && |m.channel| <= 64
  {
    var m := Run(INITIAL, actions);
    RunRefinesQueue(INITIAL, actions);
    Q.RunKeepsInv(QueueOf(INITIAL), Images(INITIAL, actions));
    forall r | m.up && ClaimableRun(m.t, r)
      ensures r in m.channel || r in m.senders || m.hand == Q.Held(r)
    {
      assert Q.IsWaiting(QueueOf(m), r);
    }
  }

  /** The run has finished, or a cleanup has deleted it. */
  ghost predicate Settled(m: Manager, r: Id) {
    r in m.used && (r in m.t.runs ==> !IsActive(m.t.runs[r].status))
  }

  lemma SettledIsClosed(m: Manager, r: Id)
    ensures Settled(m, r) <==> Q.Closed(QueueOf(m), r)
  {
  }

  /** A settled run stays so, and never reaches Process again. */
  lemma SettledStays(m: Manager, actions: seq<Action>, r: Id)
    requires Inv(m) && Settled(m, r)
    ensures Settled(Run(m, actions), r) && (r in Run(m, actions).processed ==> r in m.processed)
  {
    RunRefinesQueue(m, actions);
    SettledIsClosed(m, r);
    Q.FinishedStays(QueueOf(m), Images(m, actions), r);
    SettledIsClosed(Run(m, actions), r);
  }

  lemma StepKeepsSettledRow(m: Manager, a: Action, r: Id)
    requires Inv(m) && Settled(m, r)
    ensures r in Step(m, a).t.runs ==> r in m.t.runs && Step(m, a).t.runs[r] == m.t.runs[r]
  {
    StepRefinesQueue(m, a);
  }

  /** The row of a finished run never changes again, and a deleted run never comes back. */
  lemma {:induction false} FinishedRunsStay(m: Manager, actions: seq<Action>, r: Id)
    requires Inv(m) && Settled(m, r)
    ensures Settled(Run(m, actions), r)
    ensures r in Run(m, actions).t.runs ==> r in m.t.runs && Run(m, actions).t.runs[r] == m.t.runs[r]
    decreases |actions|
  {
    if actions != [] {
      StepKeepsInv(m, actions[0]);
      SettledStays(m, [actions[0]], r);
      assert Run(m, [actions[0]]) == Run(Step(m, actions[0]), []);
      StepKeepsSettledRow(m, actions[0], r);
      FinishedRunsStay(Step(m, actions[0]), actions[1..], r);
    }
  }

  lemma RestartKeepsOrFails(m: Manager, a: Action, r: Id)
    requires !m.up && r in m.t.runs && m.t.runs[r].status == RunRunning
    ensures r in Step(m, a).t.runs
    ensures Step(m, a).t.runs[r] == m.t.runs[r].(status := RunFailed) ||
      (!Step(m, a).up && Step(m, a).t.runs[r] == m.t.runs[r])
  {
  }

  /**
   * A run that a crash leaves running has failed when Brain is up again, with everything else in its row as it was, and
   * stays so.
   */
  lemma {:induction false} InterruptedRunFails(m: Manager, actions: seq<Action>, r: Id)
    requires Inv(m) && !m.up && r in m.t.runs && m.t.runs[r].status == RunRunning
    ensures var n := Run(m, actions);
      n.up && r in n.t.runs ==> n.t.runs[r] == m.t.runs[r].(status := RunFailed)
    decreases |actions|
  {
    if actions != [] {
      var next := Step(m, actions[0]);
      StepKeepsInv(m, actions[0]);
      RestartKeepsOrFails(m, actions[0], r);
      if next.t.runs[r] == m.t.runs[r] {
        InterruptedRunFails(next, actions[1..], r);
      } else {
        assert r in QueueOf(next).rows;
        FinishedRunsStay(next, actions[1..], r);
      }
    }
  }

  ghost predicate SamePin(m: Manager, later: Manager, r: Id) {
    r in later.t.runs ==>
      r in m.t.runs && later.t.runs[r].workflow == m.t.runs[r].workflow && later.t.runs[r].config == m.t.runs[r].config
  }

  lemma RequestKeepsPin(m: Manager, a: Action, r: Id)
    requires m.up && r in m.used
    ensures r in Request(m, a).used && SamePin(m, Request(m, a), r)
  {
  }

  lemma StepKeepsPin(m: Manager, a: Action, r: Id)
    requires r in m.used
    ensures r in Step(m, a).used && SamePin(m, Step(m, a), r)
  {
    if m.up && IsRequest(a) { RequestKeepsPin(m, a, r); }
  }

  /** The configuration revision that a run pinned at its admission is the one it keeps, as long as its row is there. */
  lemma {:induction false} PinsStay(m: Manager, actions: seq<Action>, r: Id)
    requires r in m.used
    ensures SamePin(m, Run(m, actions), r)
    decreases |actions|
  {
    if actions != [] {
      StepKeepsPin(m, actions[0], r);
      PinsStay(Step(m, actions[0]), actions[1..], r);
    }
  }

  /**
   * A tick that finds an active run leaves a skipped row which, over every continuation, is never processed and never
   * changes until a cleanup deletes it; the number of active runs stays as it was.
   */
  lemma OverlappingTickNeverRuns(m: Manager, id: Id, w: Workflow, config: Option<Id>, actions: seq<Action>)
    requires Inv(m) && m.up && id !in m.used && w in m.t.caps && ActiveRuns(m.t, w) != {}
    ensures var ticked := Step(m, Tick(id, w, config)); var later := Run(ticked, actions);
      && ActiveRuns(ticked.t, w) == ActiveRuns(m.t, w) && id !in later.processed
      && (id in later.t.runs ==> later.t.runs[id] == WorkflowRun(w, RunSkipped, "", None))
  {
    var ticked := Step(m, Tick(id, w, config));
    assert id !in m.t.runs && id !in m.processed;
    TickSkipsOnOverlap(m.t, id, w, config);
    StepKeepsInv(m, Tick(id, w, config));
    FinishedRunsStay(ticked, actions, id);
    SettledStays(ticked, actions, id);
  }

  lemma UpStepIsRequest(m: Manager, a: Action)
    requires m.up && IsRequest(a)
    ensures Step(m, a) == Request(m, a)
  {
  }

  lemma CreateChanges(m: Manager, id: Id, w: Workflow, key: string, config: Option<Id>)
    requires m.up
    ensures var after := Request(m, CreateRun(id, w, key, config));
      after.t == if id in m.used then m.t else AfterCreate(m.t, id, w, key, config)
  {
  }

  lemma CreateLeavesCaps(m: Manager, id: Id, w: Workflow, key: string, config: Option<Id>)
    requires m.up
    ensures var after := Step(m, CreateRun(id, w, key, config));
      after.t.caps == m.t.caps
      && after.t.runs == if id in m.used then m.t.runs else AfterCreate(m.t, id, w, key, config).runs
  {
    UpStepIsRequest(m, CreateRun(id, w, key, config));
    CreateChanges(m, id, w, key, config);
  }

  lemma ActiveRunsOf(t: WorkflowTables, after: WorkflowTables, w: Workflow)
    requires t.runs == after.runs
    ensures ActiveRuns(t, w) == ActiveRuns(after, w)
  {
  }

  /**
   * No create raises the number of active runs at or above the present cap, and none takes it beyond the cap, however
   * often the cap was changed before.
   */
  lemma CreatesStayWithinCap(actions: seq<Action>, id: Id, w: Workflow, key: string, config: Option<Id>)
    requires Run(INITIAL, actions).up && w in Run(INITIAL, actions).t.caps
    ensures var m := Run(INITIAL, actions); var after := Step(m, CreateRun(id, w, key, config));
      && w in after.t.caps && after.t.caps[w] == m.t.caps[w]
      && (|ActiveRuns(m.t, w)| >= m.t.caps[w] ==> ActiveRuns(after.t, w) == ActiveRuns(m.t, w))
      && (|ActiveRuns(m.t, w)| <= m.t.caps[w] ==> |ActiveRuns(after.t, w)| <= m.t.caps[w])
  {
    var m := Run(INITIAL, actions);
    var after := Step(m, CreateRun(id, w, key, config));
    RunKeepsInv(INITIAL, actions);
    CreateLeavesCaps(m, id, w, key, config);
    if id in m.used {
      ActiveRunsOf(m.t, after.t, w);
    } else {
      var created := AfterCreate(m.t, id, w, key, config);
      ActiveRunsOf(created, after.t, w);
      CreateRespectsCap(m.t, id, w, key, config);
      assert created == m.t || |ActiveRuns(created, w)| <= |ActiveRuns(m.t, w)| + 1;
    }
  }

  // ---- Draining ----

  predicate IsWork(a: Action) {
    a.Send? || a.Receive? || a.Claim? || a.Finish?
  }

  /** What may happen beside the worker: everything but new work and crashes. */
  predicate IsAside(a: Action) {
    a.UpsertWorkflow? || a.DeleteWorkflow? || a.ClearProject?
  }

  ghost predicate NoNewWork(actions: seq<Action>) {
    forall i :: 0 <= i < |actions| ==> IsWork(actions[i]) || IsAside(actions[i])
  }

  /** How many of the steps are work that changes anything. */
  ghost function WorkDone(m: Manager, actions: seq<Action>): nat
    decreases |actions|
  {
    if actions == [] then 0
    else
      (if IsWork(actions[0]) && Step(m, actions[0]) != m then 1 else 0) + WorkDone(Step(m, actions[0]), actions[1..])
  }

  lemma WorkMovesQueue(m: Manager, a: Action)
    requires Inv(m) && m.up && IsWork(a) && Step(m, a) != m
    ensures Q.IsWork(Image(m, a)) && QueueOf(Step(m, a)) != QueueOf(m) && Step(m, a).up
  {
  }

  lemma StepDrainsQueue(m: Manager, a: Action)
    requires Inv(m) && m.up && (IsWork(a) || IsAside(a))
    ensures Inv(Step(m, a)) && Step(m, a).up && QueueOf(Step(m, a)) == Q.Next(QueueOf(m), Image(m, a))
    ensures IsWork(a) && Step(m, a) != m ==> Q.IsWork(Image(m, a)) && QueueOf(Step(m, a)) != QueueOf(m)
    ensures Q.IsWork(Image(m, a)) || Q.IsAside(Image(m, a))
  {
    StepKeepsInv(m, a);
    StepRefinesQueue(m, a);
    if IsWork(a) && Step(m, a) != m { WorkMovesQueue(m, a); }
  }

  /** The work of the manager is work of the queue. */
  lemma {:induction false} WorkIsQueueWork(m: Manager, actions: seq<Action>)
    requires Inv(m) && m.up && NoNewWork(actions)
    ensures Inv(Run(m, actions)) && Run(m, actions).up && Q.NoNewWork(Images(m, actions))
    ensures WorkDone(m, actions) <= Q.WorkDone(QueueOf(m), Images(m, actions))
    decreases |actions|
  {
    if actions != [] {
      StepDrainsQueue(m, actions[0]);
      WorkIsQueueWork(Step(m, actions[0]), actions[1..]);
      assert Images(m, actions)[1..] == Images(Step(m, actions[0]), actions[1..]);
    }
  }

  /** While the backlog is not empty, the manager can do more work. */
  lemma WorkIsPossible(m: Manager) returns (a: Action)
    requires Inv(m) && m.up && Q.Measure(QueueOf(m)) > 0
    ensures IsWork(a) && Step(m, a) != m
  {
    var step := Q.WorkIsPossible(QueueOf(m));
    match step {
      case Send(k) => a := Send(k);
      case Receive => a := Receive;
      case Claim => a := Claim;
      case Finish => a := Finish(RunFailed);
    }
    if step.Finish? {
      assert Step(m, a).hand != m.hand;
    } else {
      StepRefinesQueue(m, a);
    }
  }

  /** While a run is queued, the manager can do more work. */
  lemma QueuedRunMeansWork(m: Manager, r: Id) returns (a: Action)
    requires Inv(m) && m.up && ClaimableRun(m.t, r)
    ensures IsWork(a) && Step(m, a) != m
  {
    assert Q.IsWaiting(QueueOf(m), r) && Q.Accounted(QueueOf(m), r);
    a := WorkIsPossible(m);
  }

  /** With an empty backlog, every run that was queued was processed or deleted, and none is queued or in progress. */
  lemma EmptyBacklogMeansDone(m: Manager, actions: seq<Action>)
    requires Inv(m) && m.up && NoNewWork(actions) && Q.Measure(QueueOf(Run(m, actions))) == 0
    ensures forall r :: r in Run(m, actions).t.runs ==> !IsActive(Run(m, actions).t.runs[r].status)
    ensures forall r :: ClaimableRun(m.t, r) ==> r in Run(m, actions).processed || r !in Run(m, actions).t.runs
  {
    var end := Run(m, actions);
    WorkIsQueueWork(m, actions);
    RunRefinesQueue(m, actions);
    Q.EmptyBacklogIsDone(QueueOf(end));
    forall r | r in end.t.runs ensures !IsActive(end.t.runs[r].status) {
      assert QueueOf(end).rows[r] == Q.Finished;
    }
    forall r | ClaimableRun(m.t, r) ensures r in end.processed || r !in end.t.runs {
      Q.WorkProcessesWaiting(QueueOf(m), Images(m, actions), r);
    }
  }

  /**
   * Without new work and crashes, and with cleanups and changes of definitions at any point: the worker makes no more
   * steps than its backlog allows, and when no step of it changes anything any more, every run that was queued has been
   * processed or deleted, and none is queued or in progress.
   */
  lemma WorkerDrainsQueue(m: Manager, actions: seq<Action>)
    requires Inv(m) && m.up && NoNewWork(actions)
    ensures WorkDone(m, actions) + Q.Measure(QueueOf(Run(m, actions))) <= Q.Measure(QueueOf(m))
    ensures (forall a :: IsWork(a) ==> Step(Run(m, actions), a) == Run(m, actions)) ==>
      && (forall r :: r in Run(m, actions).t.runs ==> !IsActive(Run(m, actions).t.runs[r].status))
      && (forall r :: ClaimableRun(m.t, r) ==> r in Run(m, actions).processed || r !in Run(m, actions).t.runs)
  {
    WorkIsQueueWork(m, actions);
    RunRefinesQueue(m, actions);
    Q.WorkTerminates(QueueOf(m), Images(m, actions));
    if Q.Measure(QueueOf(Run(m, actions))) > 0 {
      var a := WorkIsPossible(Run(m, actions));
    } else {
      EmptyBacklogMeansDone(m, actions);
    }
  }
}
