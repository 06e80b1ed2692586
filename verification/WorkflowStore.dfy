/** The workflow transactions, statement by statement; each contract is the transaction in Workflows.dfy. */
module WorkflowStore {
  import opened Choice
  import opened Tables
  import ConfigHistory
  import ConfigStore
  import opened Workflows

  class WorkflowRows {
    var caps: map<Workflow, int>
    var runs: map<Id, WorkflowRun>
    var tokens: map<Id, Workflow>

    constructor (tables: WorkflowTables)
      ensures View() == tables
    {
      caps, runs, tokens := tables.caps, tables.runs, tables.tokens;
    }

    function View(): WorkflowTables
      reads this
    {
      WorkflowTables(caps, runs, tokens)
    }

    method DeleteWorkflowDefinition(w: Workflow) returns (ok: bool)
      modifies this
      ensures ok <==> DeleteDefinition(old(View()), w).Some?
      ensures View() == if ok then DeleteDefinition(old(View()), w).value else old(View())
      ensures ok <==> w in old(caps) && forall r :: r in old(runs) ==> old(runs)[r].workflow != w
      ensures DefinitionGone(old(View()), View(), w) || !ok
    {
      var saved := tokens;
      tokens := map k | k in tokens && tokens[k] != w :: tokens[k];
      if w !in caps || exists r | r in runs :: runs[r].workflow == w {
        tokens := saved;
        return false;
      }
      caps := caps - {w};
      return true;
    }

    /** SELECT COUNT(1) ... status IN (queued, preparing, running). */
    method CountActiveWorkflowRuns(w: Workflow) returns (count: nat)
      ensures count == |ActiveRuns(View(), w)|
    {
      count := 0;
      ghost var counted: set<Id> := {};
      var rest := runs.Keys;
      while rest != {}
        invariant rest <= runs.Keys
        invariant counted == set r | r in ActiveRuns(View(), w) && r !in rest
        invariant count == |counted|
        decreases rest
      {
        var r := Pick(rest);
        if runs[r].workflow == w && IsActive(runs[r].status) {
          count := count + 1;
          counted := counted + {r};
        }
        rest := rest - {r};
      }
      assert counted == ActiveRuns(View(), w);
    }

    method GetWorkflowRunByIdempotencyKey(w: Workflow, key: string) returns (found: Option<Id>)
      ensures found.Some? ==> HasKey(View(), found.value, w, key)
      ensures found.None? ==> forall r :: !HasKey(View(), r, w, key)
    {
      found := None;
      var rest := runs.Keys;
      while rest != {}
        invariant rest <= runs.Keys
        invariant found.Some? ==> HasKey(View(), found.value, w, key)
        invariant found.None? ==> forall r :: HasKey(View(), r, w, key) ==> r in rest
        decreases rest
      {
        var r := Pick(rest);
        if runs[r].workflow == w && runs[r].key == key {
          found := Some(r);
        }
        rest := rest - {r};
      }
    }

    /**
     * The key is looked up before the cap, so a known key is answered even when the queue is full. A new run pins the
     * latest configuration revision of its project, which is answered too.
     */
    method CreateQueuedWorkflowRun(r: Id, w: Workflow, key: string, configs: ConfigStore.ProjectConfigStore)
      returns (answer: CreateAnswer, pinned: Option<Id>)
      requires KeysAreUnique(View()) && r !in runs
      modifies this`runs
      ensures answer == AnswerOf(old(View()), r, w, key)
      ensures View() == AfterCreate(old(View()), r, w, key, pinned)
      ensures answer.NotFound? <==> w !in old(caps)
      ensures answer.Existing? <==> w in old(caps) && key != "" && exists e :: HasKey(old(View()), e, w, key)
      ensures answer.Existing? ==> HasKey(old(View()), answer.id, w, key)
      ensures answer.QueueFull? <==>
        && w in old(caps) && !answer.Existing?
        && |ActiveRuns(old(View()), w)| >= if old(caps)[w] > 0 then old(caps)[w] else 64
      ensures answer.Created? ==> answer.id == r && runs == old(runs)[r := WorkflowRun(w, RunQueued, key, pinned)]
      ensures !answer.Created? ==> runs == old(runs)
      ensures KeysAreUnique(View())
      ensures answer.Created? && pinned.None? ==> !ConfigHistory.HasRevision(configs.Db(), w.project)
      ensures pinned.Some? ==> ConfigHistory.IsLatest(configs.Db(), w.project, pinned.value)
    {
      pinned := None;
      if w !in caps {
        return NotFound, None;
      }
      if key != "" {
        var existing := GetWorkflowRunByIdempotencyKey(w, key);
        if existing.Some? {
          return Existing(existing.value), None;
        }
      }
      var queueCap := caps[w];
      if queueCap <= 0 {
        queueCap := DEFAULT_CAP;
      }
      var active := CountActiveWorkflowRuns(w);
      if active >= queueCap {
        return QueueFull, None;
      }
      pinned := configs.LatestProjectConfigRevisionID(w.project);
      runs := runs[r := WorkflowRun(w, RunQueued, key, pinned)];
      assert forall e, v, k :: HasKey(View(), e, v, k) ==>
        HasKey(old(View()), e, v, k) || (e == r && v == w && k == key);
      return Created(r), pinned;
    }

    /** A skipped run pins no revision; a queued one the latest. */
    method CreateScheduledWorkflowRun(r: Id, w: Workflow, configs: ConfigStore.ProjectConfigStore)
      returns (found: bool, pinned: Option<Id>)
      requires r !in runs
      modifies this`runs
      ensures found <==> w in caps
      ensures View() == AfterTick(old(View()), r, w, pinned)
      ensures runs ==
        if !found then old(runs)
        else if ActiveRuns(old(View()), w) == {} then old(runs)[r := WorkflowRun(w, RunQueued, "", pinned)]
        else old(runs)[r := WorkflowRun(w, RunSkipped, "", None)]
      ensures found && ActiveRuns(old(View()), w) == {} && pinned.None? ==>
        !ConfigHistory.HasRevision(configs.Db(), w.project)
      ensures pinned.Some? ==> ConfigHistory.IsLatest(configs.Db(), w.project, pinned.value)
    {
      pinned := None;
      if w !in caps {
        return false, None;
      }
      var active := CountActiveWorkflowRuns(w);
      if active > 0 {
        runs := runs[r := WorkflowRun(w, RunSkipped, "", None)];
        return true, None;
      }
      pinned := configs.LatestProjectConfigRevisionID(w.project);
      runs := runs[r := WorkflowRun(w, RunQueued, "", pinned)];
      return true, pinned;
    }

    method ClaimQueuedWorkflowRun(r: Id) returns (claimed: bool)
      modifies this`runs
      ensures claimed <==> ClaimableRun(old(View()), r)
      ensures View() == if claimed then WithRunStatus(old(View()), r, RunRunning) else old(View())
    {
      claimed := r in runs && runs[r].status == RunQueued;
      if claimed {
        runs := runs[r := runs[r].(status := RunRunning)];
      }
    }

    method MarkWorkflowRun(r: Id, status: RunStatus) returns (updated: bool)
      modifies this`runs
      ensures View() == MarkRun(old(View()), r, status)
      ensures updated <==>
        && r in old(runs)
        && (old(runs)[r].status == RunRunning || (status != RunSucceeded && old(runs)[r].status == RunPreparing))
    {
      updated := r in runs &&
        (runs[r].status == RunRunning || (status != RunSucceeded && runs[r].status == RunPreparing));
      if updated {
        runs := runs[r := runs[r].(status := status)];
      }
    }

    /** Fails every run that a crash left preparing or running; no update can miss, so it does not stop half-way. */
    method RecoverInterruptedWorkflowRuns()
      modifies this`runs
      ensures runs.Keys == old(runs.Keys)
      ensures forall r :: r in runs ==>
        runs[r] ==
        if old(runs)[r].status == RunPreparing || old(runs)[r].status == RunRunning
        then old(runs)[r].(status := RunFailed)
        else old(runs)[r]
    {
      var rest := set r | r in runs && (runs[r].status == RunPreparing || runs[r].status == RunRunning);
      while rest != {}
        invariant runs.Keys == old(runs.Keys) && rest <= runs.Keys
        invariant forall r :: r in runs ==>
          runs[r] ==
          if (old(runs)[r].status == RunPreparing || old(runs)[r].status == RunRunning) && r !in rest
          then old(runs)[r].(status := RunFailed)
          else old(runs)[r]
        invariant forall r :: r in rest ==> runs[r].status == RunPreparing || runs[r].status == RunRunning
        decreases rest
      {
        var r := Pick(rest);
        var updated := MarkWorkflowRun(r, RunFailed);
        rest := rest - {r};
      }
    }

    method ClearProjectWorkflowState(p: Name)
      modifies this
      ensures View() == ClearWorkflows(old(View()), p)
    {
      tokens := map k | k in tokens && tokens[k].project != p :: tokens[k];
      runs := runs - RunsOf(View(), p);
      caps := map w | w in caps && w.project != p :: caps[w];
    }
  }
}
