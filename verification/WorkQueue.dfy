/**
 * The queue protocol that the job manager and the workflow manager share: rows that wait in a
 * table, a bounded channel of ids, callers that block while the channel is full, and one worker
 * that claims a row before it processes it. Rows can be deleted under the worker's feet; ids are
 * never reused.
 */
module WorkQueue {
  type Id = int

  datatype Stage = Waiting | Taken | Finished
  datatype Hand = Free | Held(id: Id) | Busy(id: Id)

  datatype Queue = Queue(
    rows: map<Id, Stage>,
    up: bool,
    channel: seq<Id>,
    senders: seq<Id>,     // callers that are in Enqueue
    hand: Hand,
    processed: seq<Id>,   // history: ids handed to Process
    used: set<Id>         // history: ids of all rows ever inserted
  )

  datatype QueueAction =
    | Insert(id: Id, stage: Stage)
    | Delete(ids: set<Id>)
    | EnqueueAgain(id: Id)
    | Send(index: nat)
    | Receive
    | Claim
    | Finish
    | Crash
    | Recover(id: Id)
    | Boot(order: seq<Id>)
    | Stutter

  const CAPACITY: nat := 64

  ghost function Next(q: Queue, a: QueueAction): Queue {
    match a
    case Insert(id, stage) =>
      if !q.up || id in q.used || stage == Taken then q
      else q.(rows := q.rows[id := stage], used := q.used + {id},
              senders := if stage == Waiting then q.senders + [id] else q.senders)
    case Delete(ids) => if q.up then q.(rows := q.rows - ids) else q
    case EnqueueAgain(id) => if q.up && id in q.used then q.(senders := q.senders + [id]) else q
    case Send(k) =>
      if k < |q.senders| && |q.channel| < CAPACITY
      then q.(channel := q.channel + [q.senders[k]], senders := q.senders[..k] + q.senders[k + 1..])
      else q
    case Receive =>
      if q.hand == Free && q.channel != [] then q.(hand := Held(q.channel[0]), channel := q.channel[1..]) else q
    case Claim =>
      if !q.hand.Held? then q
      else if q.hand.id in q.rows && q.rows[q.hand.id] == Waiting
      then q.(rows := q.rows[q.hand.id := Taken], hand := Busy(q.hand.id), processed := q.processed + [q.hand.id])
      else q.(hand := Free)
    case Finish =>
      if !q.hand.Busy? then q
      else q.(rows := if q.hand.id in q.rows then q.rows[q.hand.id := Finished] else q.rows, hand := Free)
    case Crash => q.(up := false, channel := [], senders := [], hand := Free)
    case Recover(id) =>
      if !q.up && id in q.rows && q.rows[id] == Taken then q.(rows := q.rows[id := Finished]) else q
    case Boot(order) =>
      if && !q.up
         && (forall id :: id in q.rows ==> q.rows[id] != Taken)
         && (forall id :: id in order <==> id in q.rows && q.rows[id] == Waiting)
      then q.(up := true, senders := order)
      else q
    case Stutter => q
  }

  ghost function Run(q: Queue, actions: seq<QueueAction>): Queue
    decreases |actions|
  {
    if actions == [] then q else Run(Next(q, actions[0]), actions[1..])
  }

  ghost predicate NoRepeats(ids: seq<Id>) {
    forall i, j :: 0 <= i < j < |ids| ==> ids[i] != ids[j]
  }

  ghost predicate IsWaiting(q: Queue, id: Id) {
    id in q.rows && q.rows[id] == Waiting
  }

  /** The id of a waiting row is in the channel, with a blocked sender or in the worker's hands. */
  ghost predicate Accounted(q: Queue, id: Id) {
    id in q.channel || id in q.senders || q.hand == Held(id)
  }

  ghost predicate QueueInv(q: Queue) {
    && q.rows.Keys <= q.used
    && NoRepeats(q.processed)
    && (forall id :: id in q.processed ==> id in q.used && !IsWaiting(q, id))
    && (q.up ==> forall id :: IsWaiting(q, id) ==> Accounted(q, id))
    && (q.up ==> forall id :: id in q.rows && q.rows[id] == Taken ==> q.hand == Busy(id))
    && (q.hand.Busy? ==> q.hand.id in q.used && (q.hand.id in q.rows ==> q.rows[q.hand.id] == Taken))
    && (!q.up ==> q.hand == Free && q.channel == [] && q.senders == [])
    && |q.channel| <= CAPACITY
  }

  lemma SendKeepsAccounts(q: Queue, k: nat, id: Id)
    requires k < |q.senders| && |q.channel| < CAPACITY && Accounted(q, id)
    ensures Accounted(Next(q, Send(k)), id)
  {
    if id in q.senders {
      var i :| 0 <= i < |q.senders| && q.senders[i] == id;
      var rest := q.senders[..k] + q.senders[k + 1..];
      assert i < k ==> rest[i] == id;
      assert i > k ==> rest[i - 1] == id;
    }
  }

  lemma NextKeepsInv(q: Queue, a: QueueAction)
    requires QueueInv(q)
    ensures QueueInv(Next(q, a))
  {
    var after := Next(q, a);
    match a
    case Send(k) =>
      if k < |q.senders| && |q.channel| < CAPACITY {
        forall id | IsWaiting(after, id) ensures Accounted(after, id) { SendKeepsAccounts(q, k, id); }
      }
    case Receive =>
      if q.hand == Free && q.channel != [] {
        forall id | IsWaiting(after, id) ensures Accounted(after, id) {
          assert IsWaiting(q, id) && Accounted(q, id);
          assert q.channel == [q.channel[0]] + q.channel[1..];
        }
      }
    case Crash =>
    case Recover(_) =>
    case Boot(_) =>
    case _ =>
      if q.up {
        forall id | IsWaiting(after, id) ensures Accounted(after, id) {
          assert IsWaiting(q, id) ==> Accounted(q, id);
        }
      }
  }

  /** No id reaches Process twice, and no waiting row is lost, in every run from a good state. */
  lemma {:induction false} RunKeepsInv(q: Queue, actions: seq<QueueAction>)
    requires QueueInv(q)
    ensures QueueInv(Run(q, actions))
    decreases |actions|
  {
    if actions != [] {
      NextKeepsInv(q, actions[0]);
      RunKeepsInv(Next(q, actions[0]), actions[1..]);
    }
  }

  /** The row has finished, or was deleted. */
  ghost predicate Closed(q: Queue, id: Id) {
    id in q.used && (id in q.rows ==> q.rows[id] == Finished)
  }

  lemma NextKeepsClosed(q: Queue, a: QueueAction, id: Id)
    requires QueueInv(q) && Closed(q, id)
    ensures Closed(Next(q, a), id) && (id in Next(q, a).processed ==> id in q.processed)
  {
  }

  /** A finished row never changes its stage again, and is not processed any more. */
  lemma {:induction false} FinishedStays(q: Queue, actions: seq<QueueAction>, id: Id)
    requires QueueInv(q) && Closed(q, id)
    ensures Closed(Run(q, actions), id) && (id in Run(q, actions).processed ==> id in q.processed)
    decreases |actions|
  {
    if actions != [] {
      NextKeepsInv(q, actions[0]);
      NextKeepsClosed(q, actions[0], id);
      FinishedStays(Next(q, actions[0]), actions[1..], id);
    }
  }

  // ---- Draining ----

  predicate IsWork(a: QueueAction) {
    a.Send? || a.Receive? || a.Claim? || a.Finish?
  }

  function HandRank(hand: Hand): nat {
    match hand
    case Free => 0
    case Busy(_) => 1
    case Held(_) => 2
  }

  function Measure(q: Queue): nat {
    4 * |q.senders| + 3 * |q.channel| + HandRank(q.hand)
  }

  /** Work that changes anything makes the backlog smaller. */
  lemma WorkShrinksBacklog(q: Queue, a: QueueAction)
    requires IsWork(a) && Next(q, a) != q
    ensures Measure(Next(q, a)) < Measure(q)
  {
  }

  /** While a row waits, or the backlog is not empty, some work can be done. */
  lemma WorkIsPossible(q: Queue) returns (a: QueueAction)
    requires QueueInv(q) && q.up && Measure(q) > 0
    ensures IsWork(a) && Next(q, a) != q
  {
    if q.hand.Held? {
      a := Claim;
    } else if q.hand.Busy? {
      a := Finish;
    } else if q.channel != [] {
      a := Receive;
      assert |Next(q, a).channel| < |q.channel|;
    } else {
      a := Send(0);
      assert |Next(q, a).channel| > |q.channel|;
    }
  }

  /** An empty backlog leaves nothing to wait or be worked on. */
  lemma EmptyBacklogIsDone(q: Queue)
    requires QueueInv(q) && q.up && Measure(q) == 0
    ensures forall id :: id in q.rows ==> q.rows[id] == Finished
  {
    forall id | id in q.rows ensures q.rows[id] == Finished {
      assert !Accounted(q, id);
    }
  }

  /** What may happen beside the worker's own steps when nothing new comes in. */
  predicate IsAside(a: QueueAction) {
    a.Delete? || a.Stutter?
  }

  ghost predicate NoNewWork(actions: seq<QueueAction>) {
    forall i :: 0 <= i < |actions| ==> IsWork(actions[i]) || IsAside(actions[i])
  }

  /** How many of the steps are work that changes anything. */
  ghost function WorkDone(q: Queue, actions: seq<QueueAction>): nat
    decreases |actions|
  {
    if actions == [] then 0
    else
      (if IsWork(actions[0]) && Next(q, actions[0]) != q then 1 else 0) + WorkDone(Next(q, actions[0]), actions[1..])
  }

  /** However the work is interleaved with itself and with deletions, it stops within Measure(q) steps. */
  lemma {:induction false} WorkTerminates(q: Queue, actions: seq<QueueAction>)
    requires NoNewWork(actions)
    ensures WorkDone(q, actions) + Measure(Run(q, actions)) <= Measure(q)
    decreases |actions|
  {
    if actions != [] {
      if IsWork(actions[0]) && Next(q, actions[0]) != q {
        WorkShrinksBacklog(q, actions[0]);
      }
      WorkTerminates(Next(q, actions[0]), actions[1..]);
    }
  }

  /** The row still waits for the worker, has been processed, or has been deleted before that. */
  ghost predicate Served(q: Queue, id: Id) {
    IsWaiting(q, id) || id in q.processed || id !in q.rows
  }

  lemma NextKeepsServed(q: Queue, a: QueueAction, id: Id)
    requires QueueInv(q) && q.up && (IsWork(a) || IsAside(a)) && Served(q, id) && id in q.used
    ensures Served(Next(q, a), id) && id in Next(q, a).used && Next(q, a).up
  {
  }

  /** When the backlog is empty, every row that waited has been processed or deleted. */
  lemma {:induction false} WorkProcessesWaiting(q: Queue, actions: seq<QueueAction>, id: Id)
    requires QueueInv(q) && q.up && NoNewWork(actions) && Measure(Run(q, actions)) == 0
    requires Served(q, id) && id in q.used
    ensures id in Run(q, actions).processed || id !in Run(q, actions).rows
    decreases |actions|
  {
    if actions == [] {
      EmptyBacklogIsDone(q);
    } else {
      NextKeepsInv(q, actions[0]);
      NextKeepsServed(q, actions[0], id);
      WorkProcessesWaiting(Next(q, actions[0]), actions[1..], id);
    }
  }
}
