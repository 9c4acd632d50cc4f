/**
 One remote process's output as a step system: the child fills two pipes, process.read tasks on the
 server empty them, and the client's read loop hands what they return to the local relay.
 */
module ProcessOutput {
  import opened Prelude
  import opened Framing
  import opened ReadLoop

  const MAX_READ := 65536

  /** A process.read on the server: not begun, holding the pipes, having read them, and answered. */
  datatype Task = Requested | Found | Fetched(chunk: Chunk) | Replied(response: Response)

  /** The child and what the server knows of it. */
  datatype Remote = Remote(
    out: Bytes,              // everything the child wrote to standard output
    err: Bytes,              // and to standard error
    outPipe: Bytes,          // what of it no read has taken yet
    errPipe: Bytes,
    exit: Option<int>,
    inMap: bool,             // the server still has the process in its map
    reaped: bool,            // the server has seen the exit, so that the process can no longer be signalled
    taken: seq<Chunk>)       // history of what reads took from the pipes

  /** History of what happened to the chunks at the client. */
  datatype Log = Log(
    delivered: seq<Chunk>,   // what was handed to the relay
    apart: nat,              // for how many of these chunks standard error had its own relay
    lossy: bool)             // a reply was dropped because its relay was gone or it did not decode

  /** The tasks are the reads sent and not yet handled by the client. */
  datatype State = State(client: Client, tasks: seq<Task>, remote: Remote, log: Log)

  datatype Event =
    | Produce(out: Bytes, err: Bytes)
    | ChildExits(code: int)
    | Find(index: nat)
    | Fetch(index: nat, outCount: nat, errCount: nat)
    | Check(index: nat)
    | NotFound(index: nat)
    | Kill
    | Handle(index: nat, decodes: bool)
    | Timer
    | RelayDies
    | ErrorRelayDies
    | Untrack

  /** The state after the process has been started and the first read has been sent. */
  function Started(separate: bool): State {
    State(StartRead(Client(true, true, false, None, separate, separate, [], 0, [], [], false)),
          [Requested], Remote([], [], [], [], None, true, false, []), Log([], 0, false))
  }

  function Without(tasks: seq<Task>, i: nat): seq<Task>
    requires i < |tasks|
  {
    tasks[..i] + tasks[i + 1..]
  }

  /** Records whether a chunk that reached the client's hands went to the relay. */
  function Note(l: Log, chunk: Chunk, reaches: bool, separates: bool): Log {
    if IsEmpty(chunk) then l
    else if reaches then l.(delivered := l.delivered + [chunk], apart := if separates then l.apart + 1 else l.apart)
    else l.(lossy := true)
  }

  function HandleReply(s: State, i: nat, decodes: bool): State
    requires i < |s.tasks| && s.tasks[i].Replied?
  {
    var r := s.tasks[i].response;
    var accepts := Live(s.client) && s.client.tracked && decodes;
    s.(client := HandleResponse(s.client, r, decodes),
       tasks := Without(s.tasks, i),
       log := if accepts && !r.exited then s.log else Note(s.log, r.chunk, accepts, Separates(s.client)))
  }

  function FireTimer(s: State): State
    requires s.client.timers != []
  {
    var c := s.client.(timers := s.client.timers[1..]);
    match s.client.timers[0]
    case DeliverLater(chunk) =>
      s.(client := Deliver(c, chunk), log := Note(s.log, chunk, Live(c), Separates(c)))
    case ReadLater =>
      s.(client := StartRead(c), tasks := if Live(c) && c.tracked then s.tasks + [Requested] else s.tasks)
    case ExitLater(code) => s.(client := HandleExit(c, code))
  }

  /** What happens to the child and in its pipes. */
  function StepRemote(v: Remote, e: Event): Option<Remote> {
    match e
    case Produce(out, err) =>
      Some(v.(out := v.out + out, err := v.err + err, outPipe := v.outPipe + out, errPipe := v.errPipe + err))
    case ChildExits(code) => if v.exit.None? then Some(v.(exit := Some(code))) else None
    case Kill => // SIGKILL also removes the process from the map
      if v.inMap && !v.reaped then Some(v.(inMap := false)) else None
    case Fetch(_, n, m) =>
      if n <= |v.outPipe| && m <= |v.errPipe| && n <= MAX_READ && m <= MAX_READ then
        var chunk := Chunk(v.outPipe[..n], v.errPipe[..m]);
        Some(v.(outPipe := v.outPipe[n..], errPipe := v.errPipe[m..],
                taken := if IsEmpty(chunk) then v.taken else v.taken + [chunk]))
      else None
    case Check(_) => Some(v.(reaped := v.reaped || SeesExit(v)))
    case _ => Some(v)
  }

  /** The exit of a process that is no longer in the map is not seen. */
  predicate SeesExit(v: Remote) {
    v.inMap && v.exit.Some?
  }

  /** How a read goes on in one step on the server. */
  function StepTask(task: Task, v: Remote, e: Event): Option<Task> {
    match e
    case Find(_) => if task.Requested? && v.inMap then Some(Found) else None
    case NotFound(_) => // an error reply carries no result, which the client reads as "nothing yet"
      if task.Requested? && !v.inMap then Some(Replied(Response(Chunk([], []), false, 0))) else None
    case Fetch(_, n, m) =>
      if task.Found? && n <= |v.outPipe| && m <= |v.errPipe| then Some(Fetched(Chunk(v.outPipe[..n], v.errPipe[..m])))
      else None
    case Check(_) =>
      if task.Fetched? then Some(Replied(Response(task.chunk, SeesExit(v), v.exit.GetOr(0)))) else None
    case _ => None
  }

  /** A task takes a step, together with the process that it serves. */
  function Serve(s: State, i: nat, e: Event): Option<State> {
    if i >= |s.tasks| then None
    else
      match (StepTask(s.tasks[i], s.remote, e), StepRemote(s.remote, e))
      case (Some(task), Some(remote)) => Some(s.(tasks := s.tasks[i := task], remote := remote))
      case _ => None
  }

  function StepChild(s: State, e: Event): Option<State> {
    match StepRemote(s.remote, e) case None => None case Some(remote) => Some(s.(remote := remote))
  }

  function Step(s: State, e: Event): Option<State> {
    match e
    case Produce(_, _) => StepChild(s, e)
    case ChildExits(_) => StepChild(s, e)
    case Kill => StepChild(s, e)
    case Find(i) => Serve(s, i, e)
    case NotFound(i) => Serve(s, i, e)
    case Fetch(i, _, _) => Serve(s, i, e)
    case Check(i) => Serve(s, i, e)
    case Handle(i, decodes) => // only actual output can fail to decode
      if i < |s.tasks| && s.tasks[i].Replied? && (decodes || !IsEmpty(s.tasks[i].response.chunk)) then
        Some(HandleReply(s, i, decodes))
      else None
    case Timer => if s.client.timers == [] then None else Some(FireTimer(s))
    case RelayDies => Some(s.(client := s.client.(relayAlive := false)))
    case ErrorRelayDies => Some(s.(client := s.client.(errorRelayAlive := false)))
    case Untrack => Some(s.(client := s.client.(tracked := false)))
  }

  function Exec(s: State, events: seq<Event>): Option<State>
    decreases |events|
  {
    if events == [] then Some(s)
    else match Step(s, events[0]) case None => None case Some(t) => Exec(t, events[1..])
  }

  ghost predicate Reachable(s: State) {
    exists separate, events :: Exec(Started(separate), events) == Some(s)
  }

  function Outs(chunks: seq<Chunk>): Bytes {
    if chunks == [] then [] else Outs(chunks[..|chunks| - 1]) + chunks[|chunks| - 1].out
  }

  function Errs(chunks: seq<Chunk>): Bytes {
    if chunks == [] then [] else Errs(chunks[..|chunks| - 1]) + chunks[|chunks| - 1].err
  }

  /** Standard output and error in one stream, chunk by chunk. */
  function Mixed(chunks: seq<Chunk>): Bytes {
    if chunks == [] then [] else Mixed(chunks[..|chunks| - 1]) + (chunks[|chunks| - 1].out + chunks[|chunks| - 1].err)
  }

  /** What the client still holds on its way to the relay, oldest first. */
  function Waiting(timers: seq<ReadLoop.Timer>): seq<Chunk> {
    if timers != [] && timers[0].DeliverLater? then [timers[0].chunk] else []
  }

  function Carried(tasks: seq<Task>): seq<Chunk> {
    if tasks == [] then []
    else match tasks[0]
      case Requested => []
      case Found => []
      case Fetched(chunk) => if IsEmpty(chunk) then [] else [chunk]
      case Replied(r) => if IsEmpty(r.chunk) then [] else [r.chunk]
  }

  /** Exactly one thing can move the loop on: a read under way, or the timers of the last reply. */
  predicate LoopInv(s: State) {
    && |s.tasks| <= 1
    && (s.tasks != [] ==> s.client.timers == [])
    && (Live(s.client) && s.client.tracked ==> s.tasks != [] || s.client.timers != [])
    && match |s.client.timers|
       case 0 => true
       case 1 => !s.client.timers[0].DeliverLater?
       case _ => |s.client.timers| == 2 && s.client.timers[0].DeliverLater? && !IsEmpty(s.client.timers[0].chunk)
                 && s.client.timers[1] == ReadLater
  }

  /** Chunks go from the pipes to the relay without overtaking, until the loop has stopped. */
  predicate OrderInv(s: State) {
    if !s.log.lossy then s.log.delivered + (Waiting(s.client.timers) + Carried(s.tasks)) == s.remote.taken
    else
      && s.log.delivered <= s.remote.taken
      && Waiting(s.client.timers) == []
      && (s.tasks == [] || !(Live(s.client) && s.client.tracked))
      && (s.client.timers == [] || !(Live(s.client) && s.client.tracked) || s.client.timers[0].ExitLater?)
  }

  predicate EofInv(s: State) {
    && (s.client.eof ==> s.client.exited)
    && (s.client.exited ==> s.tasks == [] && s.client.timers == [])
    && (s.client.timers != [] && s.client.timers[0].ExitLater? ==> s.log.lossy)
    && (s.client.exited && !s.log.lossy ==>
          s.client.exitCode.Some? && s.client.exitCode == s.remote.exit && s.remote.reaped)
    && (forall i :: 0 <= i < |s.tasks| && s.tasks[i].Replied? && s.tasks[i].response.exited ==>
          s.remote.exit == Some(s.tasks[i].response.exitCode) && s.remote.reaped)
    && (s.remote.reaped ==> s.remote.inMap)
  }

  /** Every byte the child wrote is in a chunk that was taken, or still in its pipe. */
  predicate PipeInv(v: Remote) {
    Outs(v.taken) + v.outPipe == v.out && Errs(v.taken) + v.errPipe == v.err
  }

  /** What the relays have got: both streams by themselves, and mixed when the error relay is gone. */
  predicate RelayInv(c: Client, l: Log) {
    && l.apart <= |l.delivered| && (Separates(c) ==> l.apart == |l.delivered|)
    && c.relay == Outs(l.delivered[..l.apart]) + Mixed(l.delivered[l.apart..])
    && c.errorRelay == Errs(l.delivered[..l.apart])
  }

  predicate Inv(s: State) {
    LoopInv(s) && OrderInv(s) && EofInv(s) && PipeInv(s.remote) && RelayInv(s.client, s.log)
  }

  lemma SnocBytes(chunks: seq<Chunk>, chunk: Chunk)
    ensures Outs(chunks + [chunk]) == Outs(chunks) + chunk.out
    ensures Errs(chunks + [chunk]) == Errs(chunks) + chunk.err
    ensures Mixed(chunks + [chunk]) == Mixed(chunks) + (chunk.out + chunk.err)
  {
    assert (chunks + [chunk])[..|chunks|] == chunks;
  }

  lemma RemoteKeepsPipe(v: Remote, e: Event)
    requires PipeInv(v) && StepRemote(v, e).Some?
    ensures PipeInv(StepRemote(v, e).value)
  {
    hide Outs, Errs, Mixed;
    match e
    case Produce(out, err) =>
      AppendAssociative(Outs(v.taken), v.outPipe, out);
      AppendAssociative(Errs(v.taken), v.errPipe, err);
    case Fetch(_, n, m) =>
      var chunk := Chunk(v.outPipe[..n], v.errPipe[..m]);
      SnocBytes(v.taken, chunk);
      AppendAssociative(Outs(v.taken), chunk.out, v.outPipe[n..]);
      AppendAssociative(Errs(v.taken), chunk.err, v.errPipe[m..]);
      assert v.outPipe == chunk.out + v.outPipe[n..] && v.errPipe == chunk.err + v.errPipe[m..];
    case _ =>
  }

  lemma StepOfChild(s: State, e: Event)
    requires Inv(s) && (e.Produce? || e.ChildExits? || e.Kill?) && StepChild(s, e).Some?
    ensures Inv(StepChild(s, e).value)
  {
    hide PipeInv, RelayInv;
    RemoteKeepsPipe(s.remote, e);
  }

  predicate IsServed(e: Event) {
    e.Find? || e.NotFound? || e.Fetch? || e.Check?
  }

  lemma StepOfTask(s: State, e: Event)
    requires Inv(s) && IsServed(e) && Serve(s, 0, e).Some?
    ensures Inv(Serve(s, 0, e).value)
  {
    hide PipeInv, RelayInv;
    RemoteKeepsPipe(s.remote, e);
    var t := Serve(s, 0, e).value;
    assert t.tasks == [StepTask(s.tasks[0], s.remote, e).value];
    assert s.log.delivered + ([] + []) == s.log.delivered;
  }

  lemma StepOfLoss(s: State, e: Event)
    requires Inv(s) && (e.RelayDies? || e.ErrorRelayDies? || e.Untrack?)
    ensures Inv(Step(s, e).value)
  {
    hide PipeInv, Outs, Errs, Mixed;
  }

  lemma HandleKeepsLoop(s: State, decodes: bool)
    requires LoopInv(s) && EofInv(s) && s.tasks != [] && s.tasks[0].Replied?
    requires decodes || !IsEmpty(s.tasks[0].response.chunk)
    ensures LoopInv(HandleReply(s, 0, decodes)) && EofInv(HandleReply(s, 0, decodes))
  {
    hide Deliver, Separates;
    assert Without(s.tasks, 0) == [];
  }

  lemma TimerKeepsLoop(s: State)
    requires LoopInv(s) && EofInv(s) && s.client.timers != []
    ensures LoopInv(FireTimer(s)) && EofInv(FireTimer(s))
  {
    hide Deliver, Separates;
  }

  lemma HandleKeepsOrder(s: State, decodes: bool)
    requires LoopInv(s) && OrderInv(s) && EofInv(s) && s.tasks != [] && s.tasks[0].Replied?
    requires decodes || !IsEmpty(s.tasks[0].response.chunk)
    ensures OrderInv(HandleReply(s, 0, decodes))
  {
    hide Deliver, Separates;
    assert Without(s.tasks, 0) == [];
    assert s.log.delivered + ([] + Carried(s.tasks)) == s.log.delivered + Carried(s.tasks);
  }

  lemma DeliveryKeepsOrder(s: State)
    requires LoopInv(s) && OrderInv(s) && s.client.timers != [] && s.client.timers[0].DeliverLater?
    ensures OrderInv(FireTimer(s))
  {
    hide Deliver, Separates;
    assert s.tasks == [] && !IsEmpty(s.client.timers[0].chunk);
    assert s.log.delivered + (Waiting(s.client.timers) + []) == s.log.delivered + Waiting(s.client.timers);
    assert s.log.delivered + ([] + []) == s.log.delivered;
  }

  lemma TimerKeepsOrder(s: State)
    requires LoopInv(s) && OrderInv(s) && EofInv(s) && s.client.timers != []
    ensures OrderInv(FireTimer(s))
  {
    hide Deliver, Separates, Note;
    if s.client.timers[0].DeliverLater? {
      DeliveryKeepsOrder(s);
    }
  }

  lemma NoBytes()
    ensures Outs([]) == Errs([]) == Mixed([]) == []
  {
  }

  /** One more chunk at the relay, with its errors apart only if all before were. */
  lemma DeliverKeepsRelay(c: Client, l: Log, chunk: Chunk)
    requires RelayInv(c, l)
    ensures RelayInv(Deliver(c, chunk), Note(l, chunk, Live(c), Separates(c)))
  {
    hide Outs, Errs, Mixed;
    var before, more := l.delivered[..l.apart], l.delivered[l.apart..];
    var all := l.delivered + [chunk];
    if !Live(c) {
    } else if IsEmpty(chunk) {
      assert c.relay + [] == c.relay && c.errorRelay + [] == c.errorRelay;
    } else if Separates(c) {
      SnocBytes(before, chunk);
      assert before == l.delivered && all[..l.apart + 1] == all && all[l.apart + 1..] == more == [];
      NoBytes();
    } else {
      SnocBytes(more, chunk);
      assert all[..l.apart] == before && all[l.apart..] == more + [chunk];
      AppendAssociative(Outs(before), Mixed(more), chunk.out + chunk.err);
    }
  }

  lemma HandleKeepsRelay(s: State, i: nat, decodes: bool)
    requires RelayInv(s.client, s.log) && i < |s.tasks| && s.tasks[i].Replied?
    ensures RelayInv(HandleReply(s, i, decodes).client, HandleReply(s, i, decodes).log)
  {
    hide Outs, Errs, Mixed;
    var r := s.tasks[i].response;
    if Live(s.client) && s.client.tracked && decodes && r.exited {
      DeliverKeepsRelay(s.client, s.log, r.chunk);
      hide Deliver;
      assert HandleReply(s, i, decodes).log == Note(s.log, r.chunk, true, Separates(s.client));
    }
  }

  lemma TimerKeepsRelay(s: State)
    requires RelayInv(s.client, s.log) && s.client.timers != []
    ensures RelayInv(FireTimer(s).client, FireTimer(s).log)
  {
    hide Outs, Errs, Mixed;
    var c := s.client.(timers := s.client.timers[1..]);
    if s.client.timers[0].DeliverLater? {
      hide Deliver;
      DeliverKeepsRelay(c, s.log, s.client.timers[0].chunk);
    }
  }

  lemma StepOfClient(s: State, e: Event)
    requires Inv(s) && (e.Handle? || e.Timer?) && Step(s, e).Some?
    ensures Inv(Step(s, e).value)
  {
    hide OrderInv, EofInv, PipeInv, RelayInv, Note, HandleResponse, Deliver;
    if e.Handle? {
      assert e.index == 0;
      HandleKeepsLoop(s, e.decodes);
      HandleKeepsOrder(s, e.decodes);
      HandleKeepsRelay(s, 0, e.decodes);
    } else {
      TimerKeepsLoop(s);
      TimerKeepsOrder(s);
      TimerKeepsRelay(s);
    }
  }

  lemma StepKeepsInv(s: State, e: Event)
    requires Inv(s) && Step(s, e).Some?
    ensures Inv(Step(s, e).value)
  {
    hide OrderInv, EofInv, PipeInv, RelayInv, StepChild, Serve, HandleReply, FireTimer;
    match e
    case Produce(_, _) => StepOfChild(s, e);
    case ChildExits(_) => StepOfChild(s, e);
    case Kill => StepOfChild(s, e);
    case Find(i) => OnlyTask(s, i, e); StepOfTask(s, e);
    case NotFound(i) => OnlyTask(s, i, e); StepOfTask(s, e);
    case Fetch(i, _, _) => OnlyTask(s, i, e); StepOfTask(s, e);
    case Check(i) => OnlyTask(s, i, e); StepOfTask(s, e);
    case Handle(_, _) => StepOfClient(s, e);
    case Timer => StepOfClient(s, e);
    case _ => StepOfLoss(s, e);
  }

  lemma OnlyTask(s: State, i: nat, e: Event)
    requires LoopInv(s) && Serve(s, i, e).Some?
    ensures i == 0
  {
  }

  lemma {:induction false} ExecKeepsInv(s: State, events: seq<Event>)
    requires Inv(s) && Exec(s, events).Some?
    ensures Inv(Exec(s, events).value)
    decreases |events|
  {
    hide Step, Inv;
    if events != [] {
      StepKeepsInv(s, events[0]);
      ExecKeepsInv(Step(s, events[0]).value, events[1..]);
    }
  }

  lemma StartedInv(separate: bool)
    ensures Inv(Started(separate))
  {
  }

  lemma ReachableInv(s: State)
    requires Reachable(s)
    ensures Inv(s)
  {
    hide Step, Inv, Started;
    var separate, events :| Exec(Started(separate), events) == Some(s);
    StartedInv(separate);
    ExecKeepsInv(Started(separate), events);
  }

  /** The events are the client's own actions, and every read it sends becomes one task on the server. */
  lemma EventsAreTheClientsActions(s: State, e: Event)
    requires (e.Handle? || e.Timer?) && Step(s, e).Some?
    ensures var t := Step(s, e).value;
      && (e.Timer? ==> t.client == RunTimer(s.client))
      && (e.Handle? ==> t.client == HandleResponse(s.client, s.tasks[e.index].response, e.decodes))
      && t.client.requests - s.client.requests == |t.tasks| - |s.tasks| + if e.Handle? then 1 else 0
  {
    hide Deliver, Separates;
  }

  // ---------------------------------------------------------------- main results

  /** There is never more than one read outstanding, and none while output still waits in a timer. */
  lemma OneReadOutstanding(s: State)
    requires Reachable(s)
    ensures |s.tasks| <= 1
    ensures Waiting(s.client.timers) != [] ==> s.tasks == []
  {
    ReachableInv(s);
  }

  lemma {:induction false} PrefixBytes(xs: seq<Chunk>, ys: seq<Chunk>)
    requires xs <= ys
    ensures Outs(xs) <= Outs(ys) && Errs(xs) <= Errs(ys)
  {
    if |xs| < |ys| {
      PrefixBytes(xs, ys[..|ys| - 1]);
    } else {
      assert xs == ys;
    }
  }

  lemma {:induction false} AppendBytes(xs: seq<Chunk>, ys: seq<Chunk>)
    ensures Outs(xs + ys) == Outs(xs) + Outs(ys)
  {
    if ys == [] {
      assert xs + ys == xs;
    } else {
      var last := |ys| - 1;
      AppendBytes(xs, ys[..last]);
      assert (xs + ys)[..|xs| + last] == xs + ys[..last] && xs + ys == xs + ys[..last] + [ys[last]];
      AppendAssociative(Outs(xs), Outs(ys[..last]), ys[last].out);
    }
  }

  /** Both streams are in the mixed one in full; it is the output alone exactly if there are no errors. */
  lemma {:induction false} MixedBytes(chunks: seq<Chunk>)
    ensures |Mixed(chunks)| == |Outs(chunks)| + |Errs(chunks)|
    ensures Errs(chunks) == [] ==> Mixed(chunks) == Outs(chunks)
  {
    if chunks != [] {
      MixedBytes(chunks[..|chunks| - 1]);
    }
  }

  /**
   Chunks reach the relay in the order in which they were read, each at most once, and as long as
   standard error has its own relay, each stream gets there by itself.  Whatever happens to that
   relay, the main one holds standard output alone exactly if no chunk with errors came afterwards.
   */
  lemma RelayKeepsOrder(s: State)
    requires Reachable(s)
    ensures s.log.delivered <= s.remote.taken
    ensures Outs(s.log.delivered) <= s.remote.out && Errs(s.log.delivered) <= s.remote.err
    ensures s.log.apart <= |s.log.delivered| && s.client.errorRelay == Errs(s.log.delivered[..s.log.apart])
    ensures s.client.relay == Outs(s.log.delivered[..s.log.apart]) + Mixed(s.log.delivered[s.log.apart..])
    ensures Separates(s.client) ==>
      s.client.relay == Outs(s.log.delivered) && s.client.errorRelay == Errs(s.log.delivered)
    ensures s.client.relay == Outs(s.log.delivered) <==> Errs(s.log.delivered[s.log.apart..]) == []
  {
    hide Outs, Errs, Mixed, LoopInv, EofInv;
    ReachableInv(s);
    PrefixBytes(s.log.delivered, s.remote.taken);
    var before, more := s.log.delivered[..s.log.apart], s.log.delivered[s.log.apart..];
    assert s.log.delivered == before + more;
    AppendBytes(before, more);
    MixedBytes(more);
    NoBytes();
    assert Separates(s.client) ==> before == s.log.delivered && more == [];
  }

  /**
   When the relay has got its EOF, everything that reads returned was delivered before it, although
   most of it went through deferred timers, and the exit code is the child's.  What the child wrote
   is complete exactly when the pipes were empty.
   */
  lemma EofComesLast(s: State)
    requires Reachable(s) && s.client.eof
    ensures s.tasks == [] && s.client.timers == []
    ensures !s.log.lossy ==>
      s.log.delivered == s.remote.taken && s.client.exitCode.Some? && s.client.exitCode == s.remote.exit
    ensures !s.log.lossy ==>
      && (Outs(s.log.delivered) == s.remote.out <==> s.remote.outPipe == [])
      && (Errs(s.log.delivered) == s.remote.err <==> s.remote.errPipe == [])
  {
    ReachableInv(s);
  }

  lemma StepAfterEof(s: State, e: Event)
    requires EofInv(s) && s.client.eof && Step(s, e).Some?
    ensures var t := Step(s, e).value;
      && t.client.eof && t.remote.taken == s.remote.taken
      && t.client.relay == s.client.relay && t.client.errorRelay == s.client.errorRelay
  {
  }

  lemma {:induction false} RunAfterEof(s: State, events: seq<Event>)
    requires Inv(s) && s.client.eof && Exec(s, events).Some?
    ensures var t := Exec(s, events).value;
      && t.client.eof && t.remote.taken == s.remote.taken
      && t.client.relay == s.client.relay && t.client.errorRelay == s.client.errorRelay
    decreases |events|
  {
    hide Step, LoopInv, OrderInv, EofInv;
    if events != [] {
      StepAfterEof(s, events[0]);
      StepKeepsInv(s, events[0]);
      RunAfterEof(Step(s, events[0]).value, events[1..]);
    }
  }

  /** After its EOF the relay stays as it is, whatever happens. */
  lemma NothingAfterEof(s: State, events: seq<Event>)
    requires Reachable(s) && s.client.eof && Exec(s, events).Some?
    ensures var t := Exec(s, events).value;
      && t.client.eof && t.remote.taken == s.remote.taken
      && t.client.relay == s.client.relay && t.client.errorRelay == s.client.errorRelay
  {
    ReachableInv(s);
    RunAfterEof(s, events);
  }

  /** What makes the client drop a reply: a dead or forgotten relay, or output that does not decode. */
  predicate Harmful(e: Event) {
    e.RelayDies? || e.Untrack? || (e.Handle? && !e.decodes)
  }

  lemma StepWithoutLoss(s: State, e: Event)
    requires EofInv(s) && !s.log.lossy && s.client.relayAlive && s.client.tracked && Step(s, e).Some? && !Harmful(e)
    ensures var t := Step(s, e).value; !t.log.lossy && t.client.relayAlive && t.client.tracked
  {
    hide Deliver, Separates;
  }

  lemma {:induction false} RunWithoutLoss(s: State, events: seq<Event>)
    requires Inv(s) && !s.log.lossy && s.client.relayAlive && s.client.tracked && Exec(s, events).Some?
    requires forall i :: 0 <= i < |events| ==> !Harmful(events[i])
    ensures Inv(Exec(s, events).value) && !Exec(s, events).value.log.lossy
    decreases |events|
  {
    hide Step, LoopInv, OrderInv, EofInv, Harmful;
    if events != [] {
      StepWithoutLoss(s, events[0]);
      StepKeepsInv(s, events[0]);
      RunWithoutLoss(Step(s, events[0]).value, events[1..]);
    }
  }

  /** In a run without such a cause, the relay has every chunk that any read returned when its EOF comes. */
  lemma EverythingReadIsDelivered(separate: bool, events: seq<Event>)
    requires Exec(Started(separate), events).Some?
    requires forall i :: 0 <= i < |events| ==> !Harmful(events[i])
    ensures var s := Exec(Started(separate), events).value;
      s.client.eof ==> s.log.delivered == s.remote.taken
  {
    hide Step;
    StartedInv(separate);
    RunWithoutLoss(Started(separate), events);
  }

  /** No read has taken anything, and the child has at most written more. */
  predicate Grows(v: Remote, w: Remote) {
    w.taken == v.taken && v.out <= w.out && v.err <= w.err
  }

  lemma StepWithoutFetch(s: State, e: Event)
    requires Step(s, e).Some? && !e.Fetch?
    ensures Grows(s.remote, Step(s, e).value.remote)
  {
  }

  lemma {:induction false} RunWithoutFetch(s: State, events: seq<Event>)
    requires Exec(s, events).Some? && forall i :: 0 <= i < |events| ==> !events[i].Fetch?
    ensures Grows(s.remote, Exec(s, events).value.remote)
    decreases |events|
  {
    hide Step;
    if events != [] {
      StepWithoutFetch(s, events[0]);
      RunWithoutFetch(Step(s, events[0]).value, events[1..]);
    }
  }

  lemma AtEof(s: State)
    requires Inv(s) && s.client.eof && !s.log.lossy
    ensures s.log.delivered == s.remote.taken
  {
  }

  /**
   Let s be any state after the last read has taken its bytes.  At the EOF the child's output is
   complete exactly if that read left nothing in the pipe and nothing was written after it; and the
   same for standard error.
   */
  lemma CaptureIsCompleteIff(s: State, events: seq<Event>)
    requires Reachable(s) && Exec(s, events).Some?
    requires forall i :: 0 <= i < |events| ==> !events[i].Fetch?
    ensures var t := Exec(s, events).value;
      t.client.eof && !t.log.lossy ==>
        && (Outs(t.log.delivered) == t.remote.out <==> s.remote.outPipe == [] && t.remote.out == s.remote.out)
        && (Errs(t.log.delivered) == t.remote.err <==> s.remote.errPipe == [] && t.remote.err == s.remote.err)
  {
    hide Step, Exec, LoopInv, OrderInv, EofInv, Outs, Errs;
    ReachableInv(s);
    ExecKeepsInv(s, events);
    RunWithoutFetch(s, events);
    var t := Exec(s, events).value;
    if t.client.eof && !t.log.lossy {
      AtEof(t);
    }
  }

  // ---------------------------------------------------------------- killed processes

  predicate Harmless(events: seq<Event>) {
    forall i :: 0 <= i < |events| ==> !Harmful(events[i])
  }

  /** The loop goes on: relay and tracking are there, and no exit has been handled. */
  predicate Looping(s: State) {
    s.client.relayAlive && s.client.tracked && !s.client.exited && !s.log.lossy
  }

  lemma StepAfterKill(s: State, e: Event)
    requires LoopInv(s) && EofInv(s) && Looping(s) && !s.remote.inMap && Step(s, e).Some? && !Harmful(e)
    ensures Looping(Step(s, e).value) && !Step(s, e).value.remote.inMap
  {
  }

  lemma {:induction false} RunAfterKill(s: State, events: seq<Event>)
    requires Inv(s) && Looping(s) && !s.remote.inMap && Harmless(events) && Exec(s, events).Some?
    ensures var t := Exec(s, events).value; Inv(t) && Looping(t) && !t.remote.inMap
    decreases |events|
  {
    hide Step, LoopInv, OrderInv, EofInv, Looping, Harmful;
    if events != [] {
      StepAfterKill(s, events[0]);
      StepKeepsInv(s, events[0]);
      RunAfterKill(Step(s, events[0]).value, events[1..]);
    }
  }

  /** A next step on the shortest way to the end of the loop, and how long that way is. */
  function NextTowardsEof(s: State): (Event, nat) {
    if s.tasks == [] then (Timer, 6 + |s.client.timers|)
    else
      match s.tasks[0]
      case Replied(r) => (Handle(0, true), if r.exited then 1 else 9)
      case Requested => (Find(0), 6)
      case Found => if s.remote.exit.None? then (ChildExits(0), 5) else (Fetch(0, 0, 0), 4)
      case Fetched(_) => if s.remote.exit.None? then (ChildExits(0), 3) else (Check(0), 2)
  }

  /** One step nearer to the end. */
  predicate Nearer(s: State, t: State) {
    t.client.eof || (Looping(t) && t.remote.inMap && NextTowardsEof(t).1 < NextTowardsEof(s).1)
  }

  lemma HandleTowardsEof(s: State)
    requires LoopInv(s) && EofInv(s) && Looping(s) && s.remote.inMap && s.tasks != [] && s.tasks[0].Replied?
    ensures Nearer(s, HandleReply(s, 0, true))
  {
    assert Without(s.tasks, 0) == [];
  }

  lemma TimerTowardsEof(s: State)
    requires LoopInv(s) && EofInv(s) && Looping(s) && s.remote.inMap && s.tasks == []
    ensures s.client.timers != [] && Nearer(s, FireTimer(s))
  {
  }

  lemma StepTowardsEof(s: State)
    requires LoopInv(s) && EofInv(s) && Looping(s) && s.remote.inMap
    ensures var e := NextTowardsEof(s).0;
      !Harmful(e) && Step(s, e).Some? && Nearer(s, Step(s, e).value)
  {
    hide HandleReply, FireTimer, EofInv;
    if s.tasks == [] {
      hide Nearer;
      TimerTowardsEof(s);
    } else if s.tasks[0].Replied? {
      hide Nearer;
      HandleTowardsEof(s);
    }
  }

  lemma {:induction false} EofIsReachable(s: State) returns (events: seq<Event>)
    requires Inv(s) && Looping(s) && s.remote.inMap
    ensures Harmless(events) && Exec(s, events).Some? && Exec(s, events).value.client.eof
    decreases NextTowardsEof(s).1
  {
    hide Step, LoopInv, OrderInv, EofInv, Looping, Harmful, NextTowardsEof;
    var e := NextTowardsEof(s).0;
    StepTowardsEof(s);
    StepKeepsInv(s, e);
    var t := Step(s, e).value;
    var rest := [];
    if !t.client.eof {
      rest := EofIsReachable(t);
    }
    events := [e] + rest;
    assert events[1..] == rest;
  }

  /**
   The loop of a process can still come to its end, without any accident on the client's side,
   exactly if the process is in the server's map: once SIGKILL has removed it, the client reads for
   ever and the relay never gets its EOF.
   */
  lemma EofCanComeIffInMap(s: State)
    requires Reachable(s) && Looping(s)
    ensures s.remote.inMap <==>
      exists events :: Harmless(events) && Exec(s, events).Some? && Exec(s, events).value.client.eof
  {
    hide Step, LoopInv, OrderInv;
    ReachableInv(s);
    if s.remote.inMap {
      var events := EofIsReachable(s);
    } else {
      forall events | Harmless(events) && Exec(s, events).Some?
        ensures !Exec(s, events).value.client.eof
      {
        RunAfterKill(s, events);
      }
    }
  }

  lemma {:induction false} ExecSnoc(s: State, events: seq<Event>, e: Event)
    requires Exec(s, events).Some? && Step(Exec(s, events).value, e).Some?
    ensures Exec(s, events + [e]) == Step(Exec(s, events).value, e)
    decreases |events|
  {
    hide Step;
    if events == [] {
      assert events + [e] == [e] && [e][1..] == [];
    } else {
      assert (events + [e])[1..] == events[1..] + [e];
      ExecSnoc(Step(s, events[0]).value, events[1..], e);
    }
  }

  lemma ReachNext(s: State, e: Event) returns (t: State)
    requires Reachable(s) && Step(s, e).Some?
    ensures t == Step(s, e).value && Reachable(t)
  {
    hide Step;
    t := Step(s, e).value;
    var separate, events :| Exec(Started(separate), events) == Some(s);
    ExecSnoc(Started(separate), events, e);
  }

  lemma StartIsReachable(separate: bool)
    ensures Reachable(Started(separate))
  {
    assert Exec(Started(separate), []) == Some(Started(separate));
  }

  /** A run whose last read reports the exit while output is still in the pipe: it is never delivered. */
  lemma ExitCanBeReportedEarly(last: Bytes) returns (s: State)
    requires last != []
    ensures Reachable(s) && s.client.eof && !s.log.lossy && s.remote.out == last && s.client.relay == []
  {
    hide Reachable;
    s := Started(true);
    StartIsReachable(true);
    s := ReachNext(s, Find(0));
    s := ReachNext(s, Fetch(0, 0, 0));
    s := ReachNext(s, Produce(last, []));
    assert s.tasks == [Fetched(Chunk([], []))];
    s := ReachNext(s, ChildExits(0));
    s := ReachNext(s, Check(0));
    assert s.tasks == [Replied(Response(Chunk([], []), true, 0))];
    s := ReachNext(s, Handle(0, true));
  }

  /** Nothing but the client's own end can stop a loop whose process is gone: it sends one read after the other. */
  lemma {:induction false} KilledLoopReadsForEver(s: State, n: nat) returns (events: seq<Event>)
    requires Inv(s) && Looping(s) && !s.remote.inMap
    ensures Harmless(events) && Exec(s, events).Some? && Exec(s, events).value.client.requests >= n
    decreases n - s.client.requests, NextRead(s).1
  {
    hide Step, LoopInv, OrderInv, EofInv, PipeInv, RelayInv, Looping, Harmful, NextRead;
    events := [];
    if s.client.requests < n {
      var e := NextRead(s).0;
      StepTowardsRead(s);
      StepKeepsInv(s, e);
      StepAfterKill(s, e);
      var rest := KilledLoopReadsForEver(Step(s, e).value, n);
      events := [e] + rest;
      assert events[1..] == rest;
    }
  }

  /** A next step of a loop whose process is gone, and how long it takes to the next read. */
  function NextRead(s: State): (Event, nat) {
    if s.tasks == [] then (Timer, |s.client.timers|)
    else
      match s.tasks[0]
      case Replied(_) => (Handle(0, true), 3)
      case Requested => (NotFound(0), 5)
      case Found => (Fetch(0, 0, 0), 5)
      case Fetched(_) => (Check(0), 4)
  }

  lemma StepTowardsRead(s: State)
    requires LoopInv(s) && EofInv(s) && Looping(s) && !s.remote.inMap
    ensures var e := NextRead(s).0;
      && !Harmful(e) && Step(s, e).Some?
      && var t := Step(s, e).value;
         && t.client.requests >= s.client.requests
         && (t.client.requests == s.client.requests ==> NextRead(t).1 < NextRead(s).1)
  {
    hide Deliver, Separates;
    if s.tasks != [] {
      assert Without(s.tasks, 0) == [];
    }
  }

  /** One signal, and the loop can no longer end. */
  lemma KillLeavesLoopRunning(separate: bool) returns (s: State)
    ensures Reachable(s) && Looping(s) && !s.remote.inMap
  {
    hide Reachable;
    StartIsReachable(separate);
    s := ReachNext(Started(separate), Kill);
  }

  /** A loop whose read is on its way to the server, while the process runs. */
  predicate Reading(s: State) {
    && Looping(s) && s.tasks == [Requested] && s.client.timers == [] && s.remote.inMap && s.remote.exit.None?
    && |s.remote.outPipe| <= MAX_READ && |s.remote.errPipe| <= MAX_READ
  }

  /** The read takes all that is in the pipes. */
  lemma ReadAll(s: State) returns (t: State)
    requires Reachable(s) && Reading(s)
    ensures Reachable(t) && t.client == s.client && t.log == s.log
    ensures t.tasks == [Replied(Response(Chunk(s.remote.outPipe, s.remote.errPipe), false, 0))]
    ensures t.remote.inMap && t.remote.exit.None? && t.remote.outPipe == t.remote.errPipe == []
    ensures t.remote.out == s.remote.out && t.remote.err == s.remote.err
  {
    hide Reachable, HandleReply, FireTimer;
    var chunk := Chunk(s.remote.outPipe, s.remote.errPipe);
    t := ReachNext(s, Find(0));
    assert chunk.out[..|chunk.out|] == chunk.out && chunk.err[..|chunk.err|] == chunk.err;
    t := ReachNext(t, Fetch(0, |chunk.out|, |chunk.err|));
    assert t.tasks == [Fetched(chunk)];
    t := ReachNext(t, Check(0));
  }

  /** One round of the loop delivers what is in the pipes. */
  lemma OneRound(s: State) returns (t: State)
    requires Reachable(s) && Reading(s) && !IsEmpty(Chunk(s.remote.outPipe, s.remote.errPipe))
    ensures Reachable(t) && Reading(t)
    ensures var c := Deliver(s.client, Chunk(s.remote.outPipe, s.remote.errPipe));
      t.client == c.(requests := c.requests + 1)
    ensures t.remote.outPipe == t.remote.errPipe == []
    ensures t.remote.out == s.remote.out && t.remote.err == s.remote.err
  {
    hide Reachable, Serve, StepChild;
    var chunk := Chunk(s.remote.outPipe, s.remote.errPipe);
    t := ReadAll(s);
    t := ReachNext(t, Handle(0, true));
    assert t.tasks == [] && t.client == s.client.(timers := [DeliverLater(chunk), ReadLater]);
    t := ReachNext(t, Event.Timer);
    assert t.client == Deliver(s.client.(timers := [ReadLater]), chunk) && t.tasks == [];
    t := ReachNext(t, Event.Timer);
    assert t.tasks == [Requested];
  }

  /** Within one chunk, errors come behind the output. */
  lemma MixedChunk(chunks: seq<Chunk>, out: Bytes, err: Bytes)
    ensures Mixed(chunks + [Chunk(out, err)]) == Mixed(chunks) + out + err
  {
    SnocBytes(chunks, Chunk(out, err));
  }

  /** Output that does not decode ends the loop with exit code -1, although the process may go on. */
  lemma UndecodableOutputEndsLoop(s: State) returns (t: State)
    requires Reachable(s) && Looping(s) && s.tasks != [] && s.tasks[0].Replied? && !IsEmpty(s.tasks[0].response.chunk)
    ensures Reachable(t) && t.client.eof && t.client.exitCode == Some(-1) && t.log.lossy && t.remote == s.remote
    ensures t.client.relay == s.client.relay && t.log.delivered == s.log.delivered
  {
    ReachableInv(s);
    hide Reachable, Inv;
    assert Without(s.tasks, 0) == [];
    t := ReachNext(s, Handle(0, false));
    t := ReachNext(t, Event.Timer);
  }

  /** What stays as it is when the relay has died, and when it has been forgotten. */
  predicate Abandoned(c: Client, d: Client) {
    && (!c.relayAlive ==> !d.relayAlive && d.relay == c.relay && d.errorRelay == c.errorRelay)
    && (!c.tracked ==> !d.tracked && d.exitCode == c.exitCode)
    && (!c.relayAlive || !c.tracked ==> d.requests == c.requests && d.eof == c.eof)
  }

  lemma StepKeepsAbandoned(s: State, e: Event)
    requires Step(s, e).Some?
    ensures Abandoned(s.client, Step(s, e).value.client)
  {
    hide StepRemote, StepTask;
  }

  /** A dead relay gets nothing more; and once it is dead or forgotten, no read is sent and no EOF comes, ever. */
  lemma {:induction false} RunKeepsAbandoned(s: State, events: seq<Event>)
    requires Exec(s, events).Some?
    ensures Abandoned(s.client, Exec(s, events).value.client)
    decreases |events|
  {
    hide Step;
    if events != [] {
      StepKeepsAbandoned(s, events[0]);
      RunKeepsAbandoned(Step(s, events[0]).value, events[1..]);
    }
  }

  /** When the error relay is gone, errors join the output, although the process was started with both. */
  lemma ErrorsCanJoinOutput(out: Bytes, err: Bytes) returns (s: State)
    requires 0 < |out| <= MAX_READ && 0 < |err| <= MAX_READ
    ensures Reachable(s) && Looping(s) && s.client.separate
    ensures s.remote.out == out && s.remote.err == err && s.client.relay == out + err && s.client.errorRelay == []
  {
    hide Reachable;
    StartIsReachable(true);
    s := ReachNext(Started(true), Produce(out, []));
    s := OneRound(s);
    assert s.client.relay == out && s.client.errorRelay == [];
    s := ReachNext(s, ErrorRelayDies);
    s := ReachNext(s, Produce([], err));
    s := OneRound(s);
  }
}
