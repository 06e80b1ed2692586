/** The workflow worker as a program; each run of it is a run of the manager's state machine. */
module WorkflowWorker {
  import opened Tables
  import opened Workflows
  import opened WorkflowStore
  import Q = WorkQueue

  ghost predicate Reaches(m: Manager, n: Manager) {
    exists actions: seq<Action> :: Run(m, actions) == n
  }

  lemma {:induction false} RunThen(m: Manager, actions: seq<Action>, a: Action)
    ensures Run(m, actions + [a]) == Step(Run(m, actions), a)
    decreases |actions|
  {
    if actions == [] {
      assert [a][1..] == [] && [] + [a] == [a];
      assert Run(Step(m, a), []) == Step(m, a);
    } else {
      assert (actions + [a])[1..] == actions[1..] + [a];
      RunThen(Step(m, actions[0]), actions[1..], a);
    }
  }

  lemma ReachesItself(m: Manager)
    ensures Reaches(m, m)
  {
    assert Run(m, []) == m;
  }

  lemma ReachesNext(m: Manager, n: Manager, a: Action)
    requires Reaches(m, n)
    ensures Reaches(m, Step(n, a))
  {
    var actions :| Run(m, actions) == n;
    RunThen(m, actions, a);
  }

  lemma ReachesKeepsInv(m: Manager, n: Manager)
    requires Inv(m) && Reaches(m, n)
    ensures Inv(n)
  {
    var actions :| Run(m, actions) == n;
    RunKeepsInv(m, actions);
  }

  /** What Process came to. */
  datatype Ending = Success | Failure | TimedOut

  /** The status that says how Process ended. */
  predicate RecordsEnding(status: RunStatus, ending: Ending) {
    && (status == RunSucceeded <==> ending == Success)
    && (status == RunTimedOut <==> ending == TimedOut)
    && (status == RunFailed <==> ending == Failure)
  }

  /** Run `r` has ended with the status for `ending`; nothing else has changed. */
  ghost predicate Ended(before: WorkflowTables, after: WorkflowTables, r: Id, ending: Ending) {
    && after.caps == before.caps && after.tokens == before.tokens && after.runs.Keys == before.runs.Keys
    && r in after.runs && RecordsEnding(after.runs[r].status, ending)
    && after.runs[r] == before.runs[r].(status := after.runs[r].status)
    && forall k :: k in before.runs && k != r ==> after.runs[k] == before.runs[k]
  }

  /** How a run ends; one that cannot be loaded fails. */
  function EndingOf(endings: map<Id, Ending>, r: Id): Ending {
    if r in endings then endings[r] else Failure
  }

  /** The queued runs among `ids` have ended as Process did, and no other run has changed. */
  ghost predicate Served(before: WorkflowTables, after: WorkflowTables, ids: seq<Id>, endings: map<Id, Ending>) {
    && after.caps == before.caps && after.tokens == before.tokens && after.runs.Keys == before.runs.Keys
    && forall r :: r in before.runs ==> ServedRun(before, after, ids, endings, r)
  }

  ghost predicate ServedRun(before: WorkflowTables, after: WorkflowTables, ids: seq<Id>, endings: map<Id, Ending>,
          r: Id)
    requires r in before.runs && r in after.runs
  {
    if r in ids && ClaimableRun(before, r)
    then
      && RecordsEnding(after.runs[r].status, EndingOf(endings, r))
      && after.runs[r] == before.runs[r].(status := after.runs[r].status)
    else after.runs[r] == before.runs[r]
  }

  lemma ServesOneMore(before: WorkflowTables, middle: WorkflowTables, after: WorkflowTables, ids: seq<Id>, r: Id,
          endings: map<Id, Ending>)
    requires Served(before, middle, ids, endings)
    requires if ClaimableRun(middle, r) then Ended(middle, after, r, EndingOf(endings, r)) else after == middle
    ensures Served(before, after, ids + [r], endings)
  {
    forall k | k in before.runs ensures ServedRun(before, after, ids + [r], endings, k) {
      assert ServedRun(before, middle, ids, endings, k);
    }
  }

  /** A claimed run is marked running, and with its final status when the processor is done. */
  lemma ClaimAndFinish(m: Manager, r: Id, status: RunStatus, ending: Ending)
    requires m.up && m.hand == Q.Held(r) && ClaimableRun(m.t, r) && RecordsEnding(status, ending)
    ensures Ended(m.t, WithRunStatus(m.t, r, status), r, ending)
    ensures var n := Step(m, Claim); var end := Step(n, Finish(status));
      && n.t == WithRunStatus(m.t, r, RunRunning) && n.up && n.hand == Q.Busy(r)
      && MarkRun(n.t, r, status) == WithRunStatus(m.t, r, status)
      && end == n.(t := WithRunStatus(m.t, r, status), hand := Q.Free) && end.processed == m.processed + [r]
  {
    assert m.t.runs[r := m.t.runs[r].(status := RunRunning)][r := m.t.runs[r].(status := status)] ==
      m.t.runs[r := m.t.runs[r].(status := status)];
  }

  class WorkflowManager {
    const rows: WorkflowRows
    var channel: seq<Id>

    constructor (rows: WorkflowRows)
      ensures this.rows == rows && channel == []
    {
      this.rows, channel := rows, [];
    }

    /** Claim, process, mark; nothing happens to a run that is not queued any more. */
    method ProcessRun(r: Id, ending: Ending, ghost start: Manager, ghost m: Manager)
      returns (claimed: bool, ghost n: Manager)
      requires m.t == rows.View() && Inv(m) && m.up && m.hand == Q.Held(r) && Reaches(start, m)
      modifies rows
      ensures Reaches(start, n) && n.t == rows.View() && n.up && n.hand == Q.Free
      ensures n.channel == m.channel && n.senders == m.senders
      ensures claimed <==> ClaimableRun(m.t, r)
      ensures if claimed then Ended(m.t, n.t, r, ending) else n.t == m.t
      ensures n.processed == if claimed then m.processed + [r] else m.processed
    {
      ReachesNext(start, m, Claim);
      n := Step(m, Claim);
      claimed := rows.ClaimQueuedWorkflowRun(r);
      if !claimed {
        return;
      }
      var status := match ending case Success => RunSucceeded case Failure => RunFailed case TimedOut => RunTimedOut;
      ReachesNext(start, n, Finish(status));
      ClaimAndFinish(m, r, status, ending);
      n := Step(n, Finish(status));
      var updated := rows.MarkWorkflowRun(r, status);
    }

    /** The loop of run, as long as there is something in the channel: every queued run of it ends as Process does. */
    method Run(endings: map<Id, Ending>, ghost m: Manager) returns (ghost n: Manager)
      requires m.t == rows.View() && Inv(m) && m.up && m.hand == Q.Free && channel == m.channel
      modifies this, rows
      ensures Reaches(m, n) && n.t == rows.View() && n.up && n.hand == Q.Free && channel == n.channel == []
      ensures Served(m.t, n.t, m.channel, endings)
    {
      n := m;
      ReachesItself(m);
      ghost var i := 0;
      while channel != []
        invariant Reaches(m, n) && n.t == rows.View() && n.up && n.hand == Q.Free
        invariant i <= |m.channel| && channel == n.channel == m.channel[i..]
        invariant Served(m.t, n.t, m.channel[..i], endings)
        decreases |channel|
      {
        var r := channel[0];
        channel := channel[1..];
        ReachesNext(m, n, Receive);
        n := Step(n, Receive);
        ReachesKeepsInv(m, n);
        assert m.channel[..i + 1] == m.channel[..i] + [r];
        ghost var before := n.t;
        var claimed;
        claimed, n := ProcessRun(r, EndingOf(endings, r), m, n);
        ServesOneMore(m.t, before, n.t, m.channel[..i], r, endings);
        i := i + 1;
      }
      assert m.channel[..i] == m.channel;
    }
  }
}
