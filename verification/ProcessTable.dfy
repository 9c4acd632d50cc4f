/**
 The server's table of asynchronous processes: pids are handed out once, a write goes to the child
 whole or fails part way, and reads take from the front of the output pipes.  Each handler, when it
 runs without interruption, is a run of the step systems for input and output.
 */
module ProcessTable {
  import opened Prelude
  import opened Framing
  import I = ProcessInput
  import O = ProcessOutput
  import R = ReadLoop

  /** The parent's view of a child: its open or closed stdin, and what its output pipes hold. */
  datatype Managed = Managed(input: Bytes, stdinOpen: bool, out: Bytes, err: Bytes, exit: Option<int>)

  datatype Reading = Reading(out: Bytes, err: Bytes, exit: Option<int>)

  /** A write to a closed stdin is reported as written; one that fails has put some bytes into the pipe. */
  datatype WriteReply = NoProcess | Written(count: nat) | Failed(piped: nat)

  function AfterWrite(m: Managed, data: Bytes, reply: WriteReply): Managed {
    if !m.stdinOpen || reply.NoProcess? then m
    else if reply.Failed? && reply.piped <= |data| then m.(input := m.input + data[..reply.piped])
    else m.(input := m.input + data)
  }

  /** The outcomes that a write to this process can have. */
  predicate CanReply(m: Managed, data: Bytes, reply: WriteReply) {
    match reply
    case NoProcess => false
    case Written(count) => count == |data|
    case Failed(piped) => m.stdinOpen && piped <= |data|
  }

  function AfterRead(m: Managed, r: Reading): Managed {
    if |r.out| <= |m.out| && |r.err| <= |m.err| then m.(out := m.out[|r.out|..], err := m.err[|r.err|..]) else m
  }

  /** What a read may return: front parts of both pipes within the limit, and the exit status. */
  predicate CanRead(m: Managed, maxBytes: nat, r: Reading) {
    && r.out <= m.out && |r.out| <= maxBytes
    && r.err <= m.err && |r.err| <= maxBytes
    && r.exit == m.exit
  }

  function Least(a: nat, b: nat, c: nat): (m: nat)
    ensures m <= a && m <= b && m <= c && m in {a, b, c}
  {
    if a <= b && a <= c then a else if b <= c then b else c
  }

  class ProcessTable {
    var processes: map<nat, Managed>
    var nextPid: nat
    ghost var everUsed: set<nat>

    ghost predicate Valid()
      reads this
    {
      && processes.Keys <= everUsed
      && (forall pid :: pid in everUsed ==> 1 <= pid < nextPid)
      && nextPid >= 1
    }

    constructor ()
      ensures Valid() && processes == map[] && everUsed == {}
    {
      processes, nextPid, everUsed := map[], 1, {};
    }

    /** The operating system may refuse to start the command; that uses up no pid. */
    method Start(spawns: bool) returns (pid: Option<nat>)
      requires Valid()
      modifies this
      ensures Valid()
      ensures pid.Some? <==> spawns
      ensures pid.None? ==> unchanged(this)
      ensures pid.Some? ==>
        && pid.value !in old(processes) && pid.value !in old(everUsed) && everUsed == old(everUsed) + {pid.value}
        && processes == old(processes)[pid.value := Managed([], true, [], [], None)]
    {
      if !spawns {
        return None;
      }
      pid := Some(nextPid);
      processes := processes[nextPid := Managed([], true, [], [], None)];
      everUsed := everUsed + {nextPid};
      nextPid := nextPid + 1;
    }

    /** The pipe may break at any byte. */
    method Write(pid: nat, data: Bytes, breaksAt: Option<nat>) returns (reply: WriteReply)
      requires Valid()
      modifies this`processes
      ensures Valid()
      ensures if pid !in old(processes) then reply.NoProcess? && processes == old(processes)
        else
          && CanReply(old(processes)[pid], data, reply)
          && (reply.Failed? <==> old(processes)[pid].stdinOpen && breaksAt.Some? && breaksAt.value <= |data|)
          && (reply.Failed? ==> reply.piped == breaksAt.value)
          && processes == old(processes)[pid := AfterWrite(old(processes)[pid], data, reply)]
    {
      if pid !in processes {
        return NoProcess;
      }
      var managed := processes[pid];
      reply := Written(|data|);
      if managed.stdinOpen {
        if breaksAt.Some? && breaksAt.value <= |data| {
          processes := processes[pid := managed.(input := managed.input + data[..breaksAt.value])];
          return Failed(breaksAt.value);
        }
        processes := processes[pid := managed.(input := managed.input + data)];
      }
    }

    method CloseStdin(pid: nat) returns (ok: bool)
      requires Valid()
      modifies this`processes
      ensures Valid() && ok == (pid in old(processes))
      ensures processes ==
        if ok then old(processes)[pid := old(processes)[pid].(stdinOpen := false)] else old(processes)
    {
      ok := pid in processes;
      if ok {
        processes := processes[pid := processes[pid].(stdinOpen := false)];
      }
    }

    /** What one read system call returns: what is ready before the timeout, up to the limit. */
    method TryRead(pipe: Bytes, ready: nat, maxBytes: nat) returns (data: Bytes, rest: Bytes)
      ensures data + rest == pipe && |data| <= maxBytes && |data| <= ready
      ensures |data| == maxBytes || |data| == ready || rest == []
    {
      var n := if ready < maxBytes then ready else maxBytes;
      if |pipe| < n {
        n := |pipe|;
      }
      data, rest := pipe[..n], pipe[n..];
    }

    /** The bytes returned leave the pipes; the exit status is looked up after reading. */
    method Read(pid: nat, outReady: nat, errReady: nat, maxBytes: nat := O.MAX_READ) returns (reading: Option<Reading>)
      requires Valid()
      modifies this`processes
      ensures Valid()
      ensures if pid !in old(processes) then reading.None? && processes == old(processes)
        else
          && reading.Some? && CanRead(old(processes)[pid], maxBytes, reading.value)
          && |reading.value.out| == Least(outReady, maxBytes, |old(processes)[pid].out|)
          && |reading.value.err| == Least(errReady, maxBytes, |old(processes)[pid].err|)
          && processes == old(processes)[pid := AfterRead(old(processes)[pid], reading.value)]
    {
      if pid !in processes {
        return None;
      }
      var managed := processes[pid];
      var out, outRest := TryRead(managed.out, outReady, maxBytes);
      var err, errRest := TryRead(managed.err, errReady, maxBytes);
      processes := processes[pid := managed.(out := outRest, err := errRest)];
      assert managed.out == out + outRest && managed.err == err + errRest;
      assert outRest == managed.out[|out|..] && errRest == managed.err[|err|..];
      reading := Some(Reading(out, err, managed.exit));
    }
  }

  // ---------------------------------------------------------------- handlers as runs

  predicate ShowsInput(m: Managed, s: I.State) {
    m.input == s.child && m.stdinOpen == s.open
  }

  predicate ShowsOutput(m: Managed, s: O.State) {
    m.out == s.remote.outPipe && m.err == s.remote.errPipe && m.exit == s.remote.exit && s.remote.inMap
  }

  /** The request has been answered, and nobody holds the lock. */
  predicate EndsWrite(s: I.State, i: nat, failed: bool) {
    s.lock.None? && i < |s.writes| && s.writes[i].phase == I.Answered && s.writes[i].failed == failed
  }

  /** The steps of one process.write under the lock. */
  function WriteSteps(i: nat, data: Bytes, open: bool, reply: WriteReply): seq<I.Event> {
    if !open then [I.Lock(i)]
    else if reply.Failed? then [I.Lock(i), I.Pipe(reply.piped), I.Fail(i)]
    else [I.Lock(i), I.Pipe(|data|), I.Finish]
  }

  /** Every outcome of a write is that of a run that holds the lock throughout, and the other way round. */
  lemma WriteIsRun(m: Managed, s: I.State, i: nat, reply: WriteReply)
    requires ShowsInput(m, s) && s.lock.None? && i < |s.writes|
    requires s.writes[i].phase == I.Submitted && s.writes[i].done == 0 && !s.writes[i].failed
    requires !I.TooLarge(s.writes[i])
    requires !reply.NoProcess? && (reply.Written? ==> reply.count == |s.writes[i].data|)
    ensures var data := s.writes[i].data;
      var r := I.Exec(s, WriteSteps(i, data, m.stdinOpen, reply));
      && (CanReply(m, data, reply) <==> r.Some? && EndsWrite(r.value, i, reply.Failed?))
      && (CanReply(m, data, reply) ==> ShowsInput(AfterWrite(m, data, reply), r.value))
  {
    hide I.Exec, I.Orderly;
    var data := s.writes[i].data;
    var locked := I.Step(s, I.Lock(i)).value;
    if !m.stdinOpen {
      I.ExecCons(s, I.Lock(i), []);
      I.EmptyRun(locked);
      assert [I.Lock(i)] + [] == [I.Lock(i)];
    } else {
      var count := if reply.Failed? then reply.piped else |data|;
      var last := if reply.Failed? then I.Fail(i) else I.Finish;
      I.ExecCons(s, I.Lock(i), [I.Pipe(count), last]);
      assert [I.Lock(i)] + [I.Pipe(count), last] == WriteSteps(i, data, true, reply);
      if count <= |data| {
        var piped := I.Step(locked, I.Pipe(count)).value;
        assert data[0..count] == data[..count];
        I.ExecCons(locked, I.Pipe(count), [last]);
        I.ExecCons(piped, last, []);
        I.EmptyRun(I.Step(piped, last).value);
        assert [I.Pipe(count)] + [last] == [I.Pipe(count), last] && [last] + [] == [last];
      } else {
        StuckRun(locked, I.Pipe(count), [last]);
        assert [I.Pipe(count)] + [last] == [I.Pipe(count), last];
      }
    }
  }

  lemma StuckRun(s: I.State, e: I.Event, more: seq<I.Event>)
    requires I.Step(s, e).None?
    ensures I.Exec(s, [e] + more).None?
  {
    assert ([e] + more)[0] == e;
  }

  /** Closing is taking the handle, which only waits for the lock. */
  lemma CloseIsStep(m: Managed, s: I.State)
    requires ShowsInput(m, s) && s.lock.None? && s.close.Asked?
    ensures m.stdinOpen <==> I.Step(s, I.TakeHandle).Some?
    ensures ShowsInput(m.(stdinOpen := false), if m.stdinOpen then I.Step(s, I.TakeHandle).value else s)
  {
  }

  function ReadSteps(i: nat, r: Reading): seq<O.Event> {
    [O.Find(i), O.Fetch(i, |r.out|, |r.err|), O.Check(i)]
  }

  function Reply(r: Reading): O.Task {
    O.Replied(R.Response(R.Chunk(r.out, r.err), r.exit.Some?, r.exit.GetOr(0)))
  }

  /** A reading is possible exactly if the steps of one process.read can end in that reply. */
  lemma ReadIsRun(m: Managed, s: O.State, i: nat, r: Reading)
    requires ShowsOutput(m, s) && i < |s.tasks| && s.tasks[i].Requested?
    ensures var run := O.Exec(s, ReadSteps(i, r));
      && (CanRead(m, 65536, r) <==> run.Some? && i < |run.value.tasks| && run.value.tasks[i] == Reply(r))
      && (run.Some? ==> ShowsOutput(AfterRead(m, r), run.value))
  {
    var steps := ReadSteps(i, r);
    assert steps[1..] == [steps[1], steps[2]] && steps[1..][1..] == [steps[2]] && [steps[2]][1..] == [];
    var found := O.Step(s, steps[0]).value;
    var fetched := O.Step(found, steps[1]);
    if fetched.Some? {
      var checked := O.Step(fetched.value, steps[2]).value;
      assert O.Exec(checked, []) == Some(checked);
      assert O.Exec(fetched.value, [steps[2]]) == Some(checked);
    }
    assert O.Exec(s, steps) == O.Exec(found, [steps[1], steps[2]]);
  }
}
