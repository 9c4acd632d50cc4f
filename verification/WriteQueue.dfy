/**
 The client's write queues for remote processes: strings for one process go out one request at a
 time, and the next request is only sent when the previous one has been answered.
 */
module WriteQueue {
  import opened Prelude
  import opened Framing

  type Pid = nat

  datatype Queue = Queue(pending: seq<Bytes>, writing: bool)

  /** Sends the next pending string, if there is one: the new queue and what is sent. */
  function StartNext(q: Option<Queue>): (Option<Queue>, seq<Bytes>) {
    if q.None? || q.value.pending == [] then (q, [])
    else (Some(Queue(q.value.pending[1..], true)), [q.value.pending[0]])
  }

  function Enqueue(q: Option<Queue>, data: Bytes): (Option<Queue>, seq<Bytes>) {
    var was := if q.Some? then q.value else Queue([], false);
    var added := Some(was.(pending := was.pending + [data]));
    if was.writing then (added, []) else StartNext(added)
  }

  /** The reply to a write: the queue is no longer writing, and goes on with the next string. */
  function Acknowledge(q: Option<Queue>): (Option<Queue>, seq<Bytes>) {
    StartNext(Some(Queue(if q.Some? then q.value.pending else [], false)))
  }

  predicate Idle(q: Option<Queue>) {
    q.None? || (!q.value.writing && q.value.pending == [])
  }

  /** Strings only wait behind a write under way. */
  predicate Consistent(q: Option<Queue>) {
    q.Some? && !q.value.writing ==> q.value.pending == []
  }

  function Lookup(table: map<Pid, Queue>, pid: Pid): Option<Queue> {
    if pid in table then Some(table[pid]) else None
  }

  function Tag(pid: Pid, strings: seq<Bytes>): seq<(Pid, Bytes)> {
    seq(|strings|, i requires 0 <= i < |strings| => (pid, strings[i]))
  }

  /** Queues keep the order of the strings and lose none: what was sent, then what is pending. */
  lemma EnqueueKeepsOrder(q: Option<Queue>, data: Bytes)
    requires Consistent(q)
    ensures var (r, out) := Enqueue(q, data);
      && r.Some? && Consistent(r) && r.value.writing
      && out + r.value.pending == (if q.Some? then q.value.pending else []) + [data]
      && (out != [] <==> Idle(q))
  {
  }

  lemma AcknowledgeKeepsOrder(q: Option<Queue>)
    ensures var (r, out) := Acknowledge(q);
      && r.Some? && Consistent(r)
      && out + r.value.pending == (if q.Some? then q.value.pending else [])
      && (r.value.writing <==> out != [])
  {
  }

  class WriteQueues {
    var table: map<Pid, Queue>
    var sent: seq<(Pid, Bytes)> // the process.write requests issued so far
    var clock: nat

    ghost predicate Valid()
      reads this
    {
      forall pid :: pid in table ==> Consistent(Some(table[pid]))
    }

    /** One queue takes the new value, its sends go out, and nothing else changes. */
    twostate predicate Updated(pid: Pid, change: (Option<Queue>, seq<Bytes>))
      reads this
      requires change.0.Some?
    {
      && table == old(table)[pid := change.0.value]
      && sent == old(sent) + Tag(pid, change.1)
      && (forall k :: |old(sent)| <= k < |sent| ==> sent[k].0 == pid)
      && clock == old(clock)
    }

    constructor ()
      ensures Valid() && table == map[] && sent == []
    {
      table, sent, clock := map[], [], 0;
    }

    method WriteRemoteProcess(pid: Pid, data: Bytes)
      requires Valid()
      modifies this
      ensures Valid()
      ensures Updated(pid, Enqueue(Lookup(old(table), pid), data))
    {
      var queue := if pid in table then table[pid] else Queue([], false);
      var pending := queue.pending + [data];
      table := table[pid := Queue(pending, queue.writing)];
      if !queue.writing {
        ProcessWriteQueue(pid);
      }
    }

    method ProcessWriteQueue(pid: Pid)
      requires pid in table
      modifies this
      ensures Updated(pid, StartNext(Lookup(old(table), pid)))
    {
      var pending := table[pid].pending;
      if pending != [] {
        var data := pending[0];
        table := table[pid := Queue(pending[1..], true)];
        sent := sent + [(pid, data)];
      }
    }

    /** The callback of process.write; it runs for error replies as well. */
    method WriteAnswered(pid: Pid)
      requires Valid()
      modifies this
      ensures Valid()
      ensures Updated(pid, Acknowledge(Lookup(old(table), pid)))
    {
      var pending := if pid in table then table[pid].pending else [];
      table := table[pid := Queue(pending, false)];
      ProcessWriteQueue(pid);
    }

    /** Exit handling drops the whole queue of its process. */
    method ForgetQueue(pid: Pid)
      requires Valid()
      modifies this`table
      ensures Valid() && table == old(table) - {pid}
    {
      table := table - {pid};
    }

    /** One turn of the event loop: time passes, and replies or further writes may be handled. */
    method EventLoopTurn()
      requires Valid()
      modifies this
      ensures Valid() && clock > old(clock)
      ensures old(sent) <= sent
    {
      var events: nat := *;
      while events > 0
        invariant Valid() && clock == old(clock) && old(sent) <= sent
      {
        var pid: Pid := *;
        var data: Bytes := *;
        if {
          case pid in table && table[pid].writing => WriteAnswered(pid);
          case true => WriteRemoteProcess(pid, data);
          case true => ForgetQueue(pid);
          case true =>
        }
        events := events - 1;
      }
      clock := clock + 1;
    }

    /** Spins the event loop until the queue is idle; otherwise the deadline has passed. */
    method DrainWriteQueue(pid: Pid, patience: nat)
      requires Valid()
      modifies this
      ensures Valid() && old(sent) <= sent
      ensures Idle(Lookup(table, pid)) || clock >= old(clock) + patience
      ensures old(Idle(Lookup(table, pid))) ==> unchanged(this)
    {
      var deadline := clock + patience;
      while pid in table && (table[pid].writing || table[pid].pending != []) && clock < deadline
        invariant Valid() && old(sent) <= sent
        invariant old(Idle(Lookup(table, pid))) ==> unchanged(this)
        decreases deadline - clock
      {
        EventLoopTurn();
      }
    }
  }
}
