/**
 The whole transport as a step system: client calls, one server task per request, the stdout
 writer that tasks share with the file watcher, the byte pipe, and the client's process filter.
 Every interleaving of these parties is a sequence of events.
 */
module RpcSystem {
  import opened Prelude
  import opened Framing
  import C = Connection
  import ServerLoop

  type Unpack = Bytes -> C.Envelope

  datatype Kind = Async(callback: nat) | Sync

  datatype Delivery = Delivery(id: nat, callback: nat, payload: Bytes)

  /** The client's calls; issued, fired, returned and timedOut are histories. */
  datatype Calls = Calls(
    nextId: nat,
    issued: map<nat, Kind>,
    sizes: map<nat, nat>, // of the requests' payloads
    unsent: set<nat>,
    callbacks: map<nat, nat>,
    pending: map<nat, Bytes>,
    waiting: set<nat>,
    fired: seq<Delivery>,
    returned: map<nat, Bytes>,
    timedOut: set<nat>)

  datatype Work = Running | Answered(payload: Bytes)

  /** The server's tasks by request id; answers is the history of what they computed. */
  datatype Server = Server(uplink: seq<nat>, tasks: map<nat, Work>, answers: map<nat, Bytes>)

  /** The holder of the writer lock and how much of its frame it has written. */
  datatype Hold = Hold(payload: Bytes, written: nat)

  /** From the writer lock to the dispatcher; order and dispatched are histories. */
  datatype Link = Link(
    lock: Option<Hold>,
    order: seq<Bytes>,      // payloads in the order in which their writers took the lock
    staged: Bytes,          // inside the server's BufWriter
    pipe: Bytes,            // written to stdout, not yet read by the client
    buffer: Bytes,          // the client's process buffer
    depth: nat,             // active filter calls: callbacks re-enter the filter
    dispatched: seq<Bytes>)

  datatype State = State(calls: Calls, server: Server, link: Link)

  datatype Event =
    | Issue(kind: Kind, size: nat)
    | Send(id: nat)
    | Take(id: nat)
    | Expire(id: nat)
    | Spawn
    | DropOversized
    | Answer(id: nat, payload: Bytes)
    | LockForReply(id: nat)
    | LockForNotice(payload: Bytes)
    | Write(count: nat)
    | Spill(count: nat)
    | Unlock
    | Chunk(count: nat)
    | Dispatch
    | FilterReturns
    | FilterAborts

  const INITIAL := State(
    Calls(0, map[], map[], {}, map[], map[], {}, [], map[], {}),
    Server([], map[], map[]),
    Link(None, [], [], [], [], 0, []))

  // ---------------------------------------------------------------- the client's calls

  function IssueCall(c: Calls, kind: Kind, size: nat): Calls {
    var id := c.nextId + 1;
    c.(nextId := id,
       issued := c.issued[id := kind],
       sizes := c.sizes[id := size],
       unsent := c.unsent + {id},
       callbacks := if kind.Async? then c.callbacks[id := kind.callback] else c.callbacks,
       waiting := if kind.Sync? then c.waiting + {id} else c.waiting)
  }

  /** The tables after the filter has routed one payload; requests here are well formed, so a reply has an id. */
  function RouteReply(unpack: Unpack, c: Calls, payload: Bytes): (r: Calls)
    ensures r.nextId == c.nextId && r.issued == c.issued && r.sizes == c.sizes && r.unsent == c.unsent
    ensures r.waiting == c.waiting && r.timedOut == c.timedOut && r.returned == c.returned
  {
    match C.RouteOf(unpack, c.callbacks, payload)
    case ToHandler => c
    case ToCallback(id, callback) =>
      c.(callbacks := c.callbacks - {id}, fired := c.fired + [Delivery(id, callback, payload)])
    case ToPending(key) =>
      if key.None? then c else c.(pending := c.pending[key.value := payload])
  }

  function StepCalls(c: Calls, e: Event): Option<Calls> {
    match e
    case Issue(kind, size) => Some(IssueCall(c, kind, size))
    case Take(id) =>
      if id in c.waiting && id in c.pending then
        Some(c.(waiting := c.waiting - {id}, pending := c.pending - {id}, returned := c.returned[id := c.pending[id]]))
      else None
    case Expire(id) =>
      if id in c.waiting then Some(c.(waiting := c.waiting - {id}, timedOut := c.timedOut + {id})) else None
    case _ => None
  }

  // ---------------------------------------------------------------- the server's tasks

  predicate AnswerFits(unpack: Unpack, id: nat, payload: Bytes) {
    |payload| < LENGTH_LIMIT && C.Decode(unpack, payload).Reply? && C.Decode(unpack, payload).id == Some(id)
  }

  function StepServer(unpack: Unpack, v: Server, e: Event): Option<Server> {
    match e
    case Spawn =>
      if v.uplink != [] then Some(v.(uplink := v.uplink[1..], tasks := v.tasks[v.uplink[0] := Running])) else None
    case DropOversized =>
      if v.uplink != [] then Some(v.(uplink := v.uplink[1..])) else None
    case Answer(id, payload) =>
      if id in v.tasks && v.tasks[id].Running? && AnswerFits(unpack, id, payload) then
        Some(v.(tasks := v.tasks[id := Answered(payload)], answers := v.answers[id := payload]))
      else None
    case _ => None
  }

  // ---------------------------------------------------------------- the byte link

  function TakeLock(l: Link, payload: Bytes): Link {
    l.(lock := Some(Hold(payload, 0)), order := l.order + [payload])
  }

  function StepLink(l: Link, e: Event): Option<Link> {
    match e
    case Write(count) =>
      if l.lock.Some? && l.lock.value.written + count <= |Frame(l.lock.value.payload)| then
        var h := l.lock.value;
        Some(l.(lock := Some(h.(written := h.written + count)),
                staged := l.staged + Frame(h.payload)[h.written..h.written + count]))
      else None
    case Spill(count) =>
      if count <= |l.staged| then Some(l.(staged := l.staged[count..], pipe := l.pipe + l.staged[..count])) else None
    case Unlock =>
      if l.lock.Some? && l.lock.value.written == |Frame(l.lock.value.payload)| && l.staged == [] then
        Some(l.(lock := None))
      else None
    case Chunk(count) =>
      if count <= |l.pipe| then
        Some(l.(pipe := l.pipe[count..], buffer := l.buffer + l.pipe[..count], depth := l.depth + 1))
      else None
    case Dispatch =>
      if l.depth > 0 && TryRead(l.buffer).Some? then
        Some(l.(buffer := Rest(l.buffer), dispatched := l.dispatched + [TryRead(l.buffer).value]))
      else None
    case FilterReturns =>
      if l.depth > 0 && TryRead(l.buffer).None? then Some(l.(depth := l.depth - 1)) else None
    case FilterAborts => // a quit leaves the callback and the filter around it, and whole frames in the buffer
      if l.depth > 0 then Some(l.(depth := l.depth - 1)) else None
    case _ => None
  }

  // ---------------------------------------------------------------- all of it

  function Step(unpack: Unpack, s: State, e: Event): Option<State> {
    match e
    case Issue(_, _) => LiftCalls(s, e)
    case Take(_) => LiftCalls(s, e)
    case Expire(_) => LiftCalls(s, e)
    case Send(id) =>
      if id in s.calls.unsent then
        Some(s.(calls := s.calls.(unsent := s.calls.unsent - {id}),
                server := s.server.(uplink := s.server.uplink + [id])))
      else None
    case LockForReply(id) =>
      if s.link.lock.None? && id in s.server.tasks && s.server.tasks[id].Answered? then
        Some(s.(link := TakeLock(s.link, s.server.tasks[id].payload),
                server := s.server.(tasks := s.server.tasks - {id})))
      else None
    case LockForNotice(payload) =>
      if s.link.lock.None? && |payload| < LENGTH_LIMIT && C.Decode(unpack, payload).Notification? then
        Some(s.(link := TakeLock(s.link, payload)))
      else None
    case Dispatch =>
      (match StepLink(s.link, e)
       case None => None
       case Some(l) => Some(s.(link := l, calls := RouteReply(unpack, s.calls, TryRead(s.link.buffer).value))))
    case Spawn => if FrontFits(s) then LiftServer(unpack, s, e) else None
    case DropOversized => if FrontFits(s) then None else LiftServer(unpack, s, e)
    case Answer(_, _) => LiftServer(unpack, s, e)
    case _ => (match StepLink(s.link, e) case None => None case Some(l) => Some(s.(link := l)))
  }

  /** The request loop reads requests up to the limit, and skips the others. */
  predicate Fits(c: Calls, id: nat) {
    id in c.sizes ==> c.sizes[id] <= ServerLoop.MAX_MESSAGE
  }

  predicate FrontFits(s: State) {
    s.server.uplink != [] ==> Fits(s.calls, s.server.uplink[0])
  }

  function LiftCalls(s: State, e: Event): Option<State> {
    match StepCalls(s.calls, e) case None => None case Some(c) => Some(s.(calls := c))
  }

  function LiftServer(unpack: Unpack, s: State, e: Event): Option<State> {
    match StepServer(unpack, s.server, e) case None => None case Some(v) => Some(s.(server := v))
  }

  /** The state after a run of events, or None where some event was not possible. */
  function Exec(unpack: Unpack, s: State, events: seq<Event>): Option<State>
    decreases |events|
  {
    if events == [] then Some(s)
    else match Step(unpack, s, events[0]) case None => None case Some(t) => Exec(unpack, t, events[1..])
  }

  ghost predicate Reachable(unpack: Unpack, s: State) {
    exists events :: Exec(unpack, INITIAL, events) == Some(s)
  }

  // ---------------------------------------------------------------- invariant of the byte link

  /** The part of the lock holder's frame that is not yet in the BufWriter. */
  function Unwritten(l: Link): Bytes {
    if l.lock.Some? && l.lock.value.written <= |Frame(l.lock.value.payload)|
    then Frame(l.lock.value.payload)[l.lock.value.written..] else []
  }

  /** Every byte of every started frame is in exactly one place, in order. */
  ghost predicate LinkInv(l: Link) {
    && Frameable(l.order) && Frameable(l.dispatched)
    && Stream(l.dispatched) + (l.buffer + (l.pipe + (l.staged + Unwritten(l)))) == Stream(l.order)
    && (l.lock.None? ==> l.staged == [])
    && (l.lock.Some? ==> l.lock.value.written <= |Frame(l.lock.value.payload)|)
  }

  lemma MoveBytes(a: Bytes, b: Bytes, n: nat, tail: Bytes)
    requires n <= |b|
    ensures (a + b[..n]) + (b[n..] + tail) == a + (b + tail)
  {
    assert b == b[..n] + b[n..];
  }

  lemma LinkStep(l: Link, e: Event)
    requires LinkInv(l) && StepLink(l, e).Some?
    ensures LinkInv(StepLink(l, e).value)
  {
    hide Stream, Frame, TryRead, Rest;
    var t := StepLink(l, e).value;
    match e
    case Write(count) =>
      var h := l.lock.value;
      var left := Unwritten(l);
      assert Frame(h.payload)[h.written..h.written + count] == left[..count];
      assert Unwritten(t) == left[count..];
      MoveBytes(l.staged, left, count, []);
      assert left + [] == left && left[count..] + [] == left[count..];
    case Spill(count) =>
      MoveBytes(l.pipe, l.staged, count, Unwritten(l));
    case Unlock =>
      assert Unwritten(l) == [];
    case Chunk(count) =>
      MoveBytes(l.buffer, l.pipe, count, l.staged + Unwritten(l));
    case Dispatch =>
      var behind := l.pipe + (l.staged + Unwritten(l));
      C.TakeFront(l.dispatched, l.buffer);
      AppendAssociative(Stream(l.dispatched), l.buffer, behind);
      AppendAssociative(Stream(t.dispatched), t.buffer, behind);
    case FilterReturns =>
    case FilterAborts =>
  }

  lemma LinkTakesLock(l: Link, payload: Bytes)
    requires LinkInv(l) && l.lock.None? && |payload| < LENGTH_LIMIT
    ensures LinkInv(TakeLock(l, payload))
  {
    StreamSnoc(l.order, payload);
    var t := TakeLock(l, payload);
    assert Unwritten(t) == Frame(payload);
    var held := l.buffer + (l.pipe + (l.staged + []));
    assert l.buffer + (l.pipe + (l.staged + Frame(payload))) == held + Frame(payload);
    AppendAssociative(Stream(l.dispatched), held, Frame(payload));
  }

  /**
   The link delivers frames whole, once, and in the order in which their writers got the lock; all
   of them, once no byte is on its way, exactly if no whole frame waits in the client's buffer.
   */
  lemma LinkDeliversPrefix(l: Link)
    requires LinkInv(l)
    ensures l.dispatched <= l.order
    ensures l.lock.None? && l.pipe == [] ==> (l.dispatched == l.order <==> TryRead(l.buffer).None?)
  {
    var behind := l.buffer + (l.pipe + (l.staged + Unwritten(l)));
    StreamPrefix(l.dispatched, l.order, []);
    if l.lock.None? && l.pipe == [] {
      assert behind == l.buffer;
      if TryRead(l.buffer).None? {
        MessagesOfStream(l.dispatched, l.buffer);
        MessagesOfStream(l.order, []);
        assert Stream(l.order) + [] == Stream(l.order);
      }
    }
  }

  // ---------------------------------------------------------------- invariant of the request ids

  /** A reply for the id has been among these payloads. */
  predicate Replied(answers: map<nat, Bytes>, payloads: seq<Bytes>, id: nat) {
    id in answers && answers[id] in payloads
  }

  /** Each sent id is in one place: unread, running, waiting for the lock, or on the wire. */
  ghost predicate ServerInv(unpack: Unpack, issued: set<nat>, unsent: set<nat>, v: Server, order: seq<Bytes>) {
    && unsent <= issued && unsent !! v.answers.Keys && unsent !! v.tasks.Keys
    && (forall i :: 0 <= i < |v.uplink| ==>
          v.uplink[i] in issued && v.uplink[i] !in unsent && v.uplink[i] !in v.answers && v.uplink[i] !in v.tasks)
    && (forall i, j :: 0 <= i < j < |v.uplink| ==> v.uplink[i] != v.uplink[j])
    && (forall id :: id in v.tasks ==> id in issued && (v.tasks[id].Running? <==> id !in v.answers))
    && (forall id :: id in v.tasks && v.tasks[id].Answered? ==>
          v.answers[id] == v.tasks[id].payload && v.answers[id] !in order)
    && (forall id :: id in v.answers ==> id in issued && AnswerFits(unpack, id, v.answers[id]))
    && (forall id :: id in v.answers ==> id in v.tasks || v.answers[id] in order)
    && OrderInv(unpack, v.answers, order)
  }

  /** What travels is notices and answers, and no answer travels twice. */
  ghost predicate OrderInv(unpack: Unpack, answers: map<nat, Bytes>, order: seq<Bytes>) {
    && (forall i :: 0 <= i < |order| ==>
          match C.Decode(unpack, order[i])
          case Notification(_, _) => true
          case Reply(id, _) => id.Some? && id.value in answers && answers[id.value] == order[i])
    && (forall i, j :: 0 <= i < j < |order| && order[i] == order[j] ==> C.Decode(unpack, order[i]).Notification?)
  }

  /** Asynchronous calls: registered until answered, and then fired once with their own answer. */
  ghost predicate AsyncInv(issued: map<nat, Kind>, callbacks: map<nat, nat>, fired: seq<Delivery>,
                           answers: map<nat, Bytes>, dispatched: seq<Bytes>)
  {
    && (forall id :: id in callbacks ==> id in issued && issued[id] == Async(callbacks[id]))
    && (forall id :: id in issued && issued[id].Async? ==>
          if Replied(answers, dispatched, id)
          then id !in callbacks && Delivery(id, issued[id].callback, answers[id]) in fired
          else id in callbacks)
    && (forall i :: 0 <= i < |fired| ==>
          var d := fired[i];
          d.id in issued && issued[d.id] == Async(d.callback)
          && Replied(answers, dispatched, d.id) && d.payload == answers[d.id])
    && (forall i, j :: 0 <= i < j < |fired| ==> fired[i].id != fired[j].id)
  }

  /** Synchronous calls: an answer that arrived is in the pending table until its caller takes it. */
  ghost predicate SyncInv(issued: map<nat, Kind>, pending: map<nat, Bytes>, returned: map<nat, Bytes>,
                          answers: map<nat, Bytes>, dispatched: seq<Bytes>)
  {
    && (forall id :: id in pending ==>
          id in issued && issued[id].Sync? && Replied(answers, dispatched, id)
          && pending[id] == answers[id] && id !in returned)
    && (forall id :: id in returned ==>
          id in issued && issued[id].Sync? && Replied(answers, dispatched, id) && returned[id] == answers[id])
    && (forall id :: id in issued && issued[id].Sync? && Replied(answers, dispatched, id) ==>
          id in pending || id in returned)
  }

  /** A synchronous caller waits, has given up, or has returned. */
  ghost predicate WaitInv(issued: map<nat, Kind>, waiting: set<nat>, timedOut: set<nat>, returned: set<nat>) {
    && waiting !! timedOut && waiting !! returned && timedOut !! returned
    && (forall id :: id in issued && issued[id].Sync? <==> id in waiting || id in timedOut || id in returned)
  }

  ghost predicate CallsInv(c: Calls, answers: map<nat, Bytes>, dispatched: seq<Bytes>) {
    && (forall id :: id in c.issued ==> id <= c.nextId)
    && AsyncInv(c.issued, c.callbacks, c.fired, answers, dispatched)
    && SyncInv(c.issued, c.pending, c.returned, answers, dispatched)
    && WaitInv(c.issued, c.waiting, c.timedOut, c.returned.Keys)
  }

  ghost predicate Inv(unpack: Unpack, s: State) {
    && LinkInv(s.link)
    && ServerInv(unpack, s.calls.issued.Keys, s.calls.unsent, s.server, s.link.order)
    && CallsInv(s.calls, s.server.answers, s.link.dispatched)
  }

  /** A new id has neither an answer nor an entry in any table. */
  lemma IssueKeepsAsync(c: Calls, answers: map<nat, Bytes>, dispatched: seq<Bytes>, kind: Kind, size: nat)
    requires AsyncInv(c.issued, c.callbacks, c.fired, answers, dispatched)
    requires c.nextId + 1 !in c.issued && c.nextId + 1 !in answers
    ensures var d := IssueCall(c, kind, size); AsyncInv(d.issued, d.callbacks, d.fired, answers, dispatched)
  {
  }

  lemma IssueKeepsSync(c: Calls, answers: map<nat, Bytes>, dispatched: seq<Bytes>, kind: Kind, size: nat)
    requires SyncInv(c.issued, c.pending, c.returned, answers, dispatched)
    requires c.nextId + 1 !in c.issued && c.nextId + 1 !in answers
    ensures var d := IssueCall(c, kind, size); SyncInv(d.issued, d.pending, d.returned, answers, dispatched)
  {
  }

  lemma IssueKeepsCalls(c: Calls, answers: map<nat, Bytes>, dispatched: seq<Bytes>, kind: Kind, size: nat)
    requires CallsInv(c, answers, dispatched) && c.nextId + 1 !in answers
    ensures CallsInv(IssueCall(c, kind, size), answers, dispatched)
  {
    hide AsyncInv, SyncInv;
    assert c.nextId + 1 !in c.issued;
    IssueKeepsAsync(c, answers, dispatched, kind, size);
    IssueKeepsSync(c, answers, dispatched, kind, size);
  }

  lemma StepOfIssue(unpack: Unpack, s: State, kind: Kind, size: nat)
    requires Inv(unpack, s)
    ensures Inv(unpack, s.(calls := IssueCall(s.calls, kind, size)))
  {
    hide LinkInv, AsyncInv, SyncInv, OrderInv, WaitInv;
    var id := s.calls.nextId + 1;
    assert id !in s.calls.issued && id !in s.server.answers;
    IssueKeepsCalls(s.calls, s.server.answers, s.link.dispatched, kind, size);
    assert IssueCall(s.calls, kind, size).issued.Keys == s.calls.issued.Keys + {id};
  }

  /** The end of a wait concerns only the synchronous tables. */
  lemma StepOfWait(unpack: Unpack, s: State, e: Event)
    requires Inv(unpack, s) && (e.Take? || e.Expire?) && StepCalls(s.calls, e).Some?
    ensures Inv(unpack, s.(calls := StepCalls(s.calls, e).value))
  {
    hide LinkInv, ServerInv, AsyncInv;
  }

  lemma StepOfSend(unpack: Unpack, s: State, id: nat)
    requires Inv(unpack, s) && id in s.calls.unsent
    ensures Inv(unpack, Step(unpack, s, Send(id)).value)
  {
    hide LinkInv, OrderInv, AsyncInv, SyncInv, WaitInv;
  }

  /** A new answer has not been dispatched, so that it changes nothing for the client yet. */
  lemma AnswerKeepsCalls(c: Calls, answers: map<nat, Bytes>, dispatched: seq<Bytes>, id: nat, payload: Bytes)
    requires id !in answers && payload !in dispatched && CallsInv(c, answers, dispatched)
    ensures CallsInv(c, answers[id := payload], dispatched)
  {
    forall other
      ensures Replied(answers[id := payload], dispatched, other) <==> Replied(answers, dispatched, other)
    {
    }
  }

  lemma StepOfUplink(unpack: Unpack, s: State, e: Event)
    requires Inv(unpack, s) && (e.Spawn? || e.DropOversized?) && StepServer(unpack, s.server, e).Some?
    ensures Inv(unpack, s.(server := StepServer(unpack, s.server, e).value))
  {
    hide LinkInv, CallsInv, OrderInv;
    assert s.server.uplink[0] in s.calls.issued;
  }

  lemma AnswerKeepsServer(unpack: Unpack, issued: set<nat>, unsent: set<nat>, v: Server, order: seq<Bytes>, e: Event)
    requires ServerInv(unpack, issued, unsent, v, order) && e.Answer? && StepServer(unpack, v, e).Some?
    ensures e.payload !in order
    ensures ServerInv(unpack, issued, unsent, StepServer(unpack, v, e).value, order)
  {
    assert e.payload !in order;
  }

  lemma StepOfAnswer(unpack: Unpack, s: State, e: Event)
    requires Inv(unpack, s) && e.Answer? && StepServer(unpack, s.server, e).Some?
    ensures Inv(unpack, s.(server := StepServer(unpack, s.server, e).value))
  {
    hide LinkInv, CallsInv, OrderInv, ServerInv;
    AnswerKeepsServer(unpack, s.calls.issued.Keys, s.calls.unsent, s.server, s.link.order, e);
    LinkDeliversPrefix(s.link);
    assert e.id !in s.server.answers by {
      NotYetAnswered(unpack, s, e);
    }
    AnswerKeepsCalls(s.calls, s.server.answers, s.link.dispatched, e.id, e.payload);
  }

  lemma NotYetAnswered(unpack: Unpack, s: State, e: Event)
    requires Inv(unpack, s) && e.Answer? && StepServer(unpack, s.server, e).Some?
    ensures e.id !in s.server.answers
  {
    hide LinkInv, CallsInv, OrderInv;
  }

  lemma StepOfReplyLock(unpack: Unpack, s: State, id: nat)
    requires Inv(unpack, s) && Step(unpack, s, LockForReply(id)).Some?
    ensures Inv(unpack, Step(unpack, s, LockForReply(id)).value)
  {
    hide LinkInv, CallsInv;
    LinkTakesLock(s.link, s.server.tasks[id].payload);
  }

  lemma StepOfNoticeLock(unpack: Unpack, s: State, payload: Bytes)
    requires Inv(unpack, s) && Step(unpack, s, LockForNotice(payload)).Some?
    ensures Inv(unpack, Step(unpack, s, LockForNotice(payload)).value)
  {
    hide LinkInv, CallsInv;
    LinkTakesLock(s.link, payload);
    forall id | id in s.server.tasks && s.server.tasks[id].Answered?
      ensures s.server.answers[id] !in s.link.order + [payload]
    {
    }
  }

  lemma StepOfDispatch(unpack: Unpack, s: State)
    requires Inv(unpack, s) && Step(unpack, s, Dispatch).Some?
    ensures Inv(unpack, Step(unpack, s, Dispatch).value)
  {
    hide LinkInv, AsyncInv, SyncInv, WaitInv, RouteReply;
    var payload := TryRead(s.link.buffer).value;
    var t := Step(unpack, s, Dispatch).value;
    LinkStep(s.link, Dispatch);
    LinkDeliversPrefix(s.link);
    LinkDeliversPrefix(t.link);
    var k := |s.link.dispatched|;
    assert t.link.dispatched[k] == s.link.order[k] == payload;
    match C.Decode(unpack, payload)
    case Notification(_, _) =>
      NoticeKeepsCalls(unpack, s.calls, s.server.answers, s.link.dispatched, payload);
    case Reply(key, _) =>
      var id := key.value;
      assert payload !in s.link.dispatched;
      RouteKeepsCalls(unpack, s.calls, s.server.answers, s.link.dispatched, payload, id);
  }

  /** A notification answers nobody. */
  lemma NoticeKeepsCalls(unpack: Unpack, c: Calls, answers: map<nat, Bytes>, dispatched: seq<Bytes>, payload: Bytes)
    requires C.Decode(unpack, payload).Notification?
    requires forall id :: id in answers ==> AnswerFits(unpack, id, answers[id])
    requires CallsInv(c, answers, dispatched)
    ensures CallsInv(RouteReply(unpack, c, payload), answers, dispatched + [payload])
  {
    forall id
      ensures Replied(answers, dispatched + [payload], id) <==> Replied(answers, dispatched, id)
    {
    }
  }

  ghost predicate FreshAnswer(unpack: Unpack, c: Calls, answers: map<nat, Bytes>, dispatched: seq<Bytes>,
                              payload: Bytes, id: nat)
  {
    && id in c.issued && id in answers && answers[id] == payload && payload !in dispatched
    && (forall other :: other in answers ==> AnswerFits(unpack, other, answers[other]))
  }

  lemma RepliedAfter(unpack: Unpack, c: Calls, answers: map<nat, Bytes>, dispatched: seq<Bytes>,
                     payload: Bytes, id: nat)
    requires FreshAnswer(unpack, c, answers, dispatched, payload, id)
    ensures !Replied(answers, dispatched, id)
    ensures forall other ::
      Replied(answers, dispatched + [payload], other) <==> other == id || Replied(answers, dispatched, other)
  {
    assert C.Decode(unpack, payload).id == Some(id);
  }

  lemma RouteKeepsAsync(unpack: Unpack, c: Calls, answers: map<nat, Bytes>, dispatched: seq<Bytes>,
                        payload: Bytes, id: nat)
    requires FreshAnswer(unpack, c, answers, dispatched, payload, id)
    requires AsyncInv(c.issued, c.callbacks, c.fired, answers, dispatched)
    ensures var t := RouteReply(unpack, c, payload);
      AsyncInv(t.issued, t.callbacks, t.fired, answers, dispatched + [payload])
  {
    RepliedAfter(unpack, c, answers, dispatched, payload, id);
    assert C.Decode(unpack, payload).id == Some(id);
    var t := RouteReply(unpack, c, payload);
    if id in c.callbacks {
      assert t.fired[|c.fired|] == Delivery(id, c.callbacks[id], payload);
    }
  }

  lemma RouteKeepsSync(unpack: Unpack, c: Calls, answers: map<nat, Bytes>, dispatched: seq<Bytes>,
                       payload: Bytes, id: nat)
    requires FreshAnswer(unpack, c, answers, dispatched, payload, id)
    requires AsyncInv(c.issued, c.callbacks, c.fired, answers, dispatched)
    requires SyncInv(c.issued, c.pending, c.returned, answers, dispatched)
    ensures var t := RouteReply(unpack, c, payload);
      SyncInv(t.issued, t.pending, t.returned, answers, dispatched + [payload])
  {
    RepliedAfter(unpack, c, answers, dispatched, payload, id);
    assert C.Decode(unpack, payload).id == Some(id);
    assert id in c.callbacks <==> c.issued[id].Async?;
  }

  lemma RouteKeepsCalls(unpack: Unpack, c: Calls, answers: map<nat, Bytes>, dispatched: seq<Bytes>,
                        payload: Bytes, id: nat)
    requires FreshAnswer(unpack, c, answers, dispatched, payload, id) && CallsInv(c, answers, dispatched)
    ensures CallsInv(RouteReply(unpack, c, payload), answers, dispatched + [payload])
  {
    hide AsyncInv, SyncInv;
    RouteKeepsAsync(unpack, c, answers, dispatched, payload, id);
    RouteKeepsSync(unpack, c, answers, dispatched, payload, id);
  }

  lemma StepKeepsInv(unpack: Unpack, s: State, e: Event)
    requires Inv(unpack, s) && Step(unpack, s, e).Some?
    ensures Inv(unpack, Step(unpack, s, e).value)
  {
    hide LinkInv, ServerInv, CallsInv, RouteReply, IssueCall;
    match e
    case Issue(kind, size) => StepOfIssue(unpack, s, kind, size);
    case Take(_) => StepOfWait(unpack, s, e);
    case Expire(_) => StepOfWait(unpack, s, e);
    case Send(id) => StepOfSend(unpack, s, id);
    case Spawn => StepOfUplink(unpack, s, e);
    case DropOversized => StepOfUplink(unpack, s, e);
    case Answer(_, _) => StepOfAnswer(unpack, s, e);
    case LockForReply(id) => StepOfReplyLock(unpack, s, id);
    case LockForNotice(payload) => StepOfNoticeLock(unpack, s, payload);
    case Dispatch => StepOfDispatch(unpack, s);
    case _ => LinkStep(s.link, e);
  }

  lemma {:induction false} ExecKeepsInv(unpack: Unpack, s: State, events: seq<Event>)
    requires Inv(unpack, s) && Exec(unpack, s, events).Some?
    ensures Inv(unpack, Exec(unpack, s, events).value)
    decreases |events|
  {
    if events != [] {
      StepKeepsInv(unpack, s, events[0]);
      ExecKeepsInv(unpack, Step(unpack, s, events[0]).value, events[1..]);
    }
  }

  lemma ReachableInv(unpack: Unpack, s: State)
    requires Reachable(unpack, s)
    ensures Inv(unpack, s)
  {
    var events :| Exec(unpack, INITIAL, events) == Some(s);
    assert Stream([]) + ([] + ([] + ([] + []))) == Stream([]);
    ExecKeepsInv(unpack, INITIAL, events);
  }

  // ---------------------------------------------------------------- main results

  /**
   Whatever the interleaving of tasks and watcher, the splitting into chunks and the nesting of
   filter calls: the client has dispatched a prefix of the payloads in lock order, byte for byte.
   Once no byte is on its way, these are all, exactly if no whole frame waits in the buffer; and none
   waits while no filter is active, unless a filter was left by a quit.
   */
  lemma DispatchesFollowLockOrder(unpack: Unpack, s: State)
    requires Reachable(unpack, s)
    ensures s.link.dispatched <= s.link.order
    ensures s.link.lock.None? && s.link.pipe == [] ==>
      (s.link.dispatched == s.link.order <==> TryRead(s.link.buffer).None?)
  {
    ReachableInv(unpack, s);
    LinkDeliversPrefix(s.link);
  }

  lemma StepKeepsEmptied(unpack: Unpack, s: State, e: Event)
    requires Emptied(s.link) && Step(unpack, s, e).Some? && !e.FilterAborts?
    ensures Emptied(Step(unpack, s, e).value.link)
  {
    hide RouteReply;
  }

  /** Filters only return when they have dispatched every whole frame. */
  predicate Emptied(l: Link) {
    l.depth == 0 ==> TryRead(l.buffer).None?
  }

  /** If every callback returns, no whole frame is left when no filter is active. */
  lemma {:induction false} NothingWaitsWithoutQuit(unpack: Unpack, s: State, events: seq<Event>)
    requires Emptied(s.link) && Exec(unpack, s, events).Some?
    requires forall i :: 0 <= i < |events| ==> !events[i].FilterAborts?
    ensures Emptied(Exec(unpack, s, events).value.link)
    decreases |events|
  {
    hide Step, Emptied;
    if events != [] {
      StepKeepsEmptied(unpack, s, events[0]);
      NothingWaitsWithoutQuit(unpack, Step(unpack, s, events[0]).value, events[1..]);
    }
  }

  /** Each callback fires at most once, and only with the answer the server computed for its request. */
  lemma CallbacksGetTheirOwnAnswer(unpack: Unpack, s: State, i: nat)
    requires Reachable(unpack, s) && i < |s.calls.fired|
    ensures var d := s.calls.fired[i];
      && d.id in s.calls.issued && s.calls.issued[d.id] == Async(d.callback)
      && d.id in s.server.answers && s.server.answers[d.id] == d.payload
      && d.id !in s.calls.callbacks && d.id !in s.calls.pending
    ensures forall j :: 0 <= j < |s.calls.fired| && s.calls.fired[j].id == s.calls.fired[i].id ==> j == i
  {
    ReachableInv(unpack, s);
  }

  /** A synchronous call returns only its own answer, and a call that timed out never returns one. */
  lemma CallersGetTheirOwnAnswer(unpack: Unpack, s: State, id: nat)
    requires Reachable(unpack, s) && id in s.calls.returned
    ensures id in s.calls.issued && s.calls.issued[id].Sync?
    ensures id in s.server.answers && s.calls.returned[id] == s.server.answers[id]
    ensures id !in s.calls.timedOut && id !in s.calls.pending && id !in s.calls.waiting
  {
    ReachableInv(unpack, s);
  }

  /** The answer to a call that timed out stays in the pending table, where only its own id finds it. */
  lemma LateAnswerStaysUnclaimed(unpack: Unpack, s: State, id: nat, events: seq<Event>)
    requires Reachable(unpack, s) && id in s.calls.timedOut
    requires Exec(unpack, s, events).Some?
    ensures var t := Exec(unpack, s, events).value;
      && id in t.calls.timedOut && id !in t.calls.returned
      && (id in s.calls.pending ==> id in t.calls.pending && t.calls.pending[id] == s.calls.pending[id])
      && (id in t.calls.pending ==> id in t.server.answers && t.calls.pending[id] == t.server.answers[id])
  {
    ReachableInv(unpack, s);
    ExecKeepsAbandoned(unpack, s, id, if id in s.calls.pending then Some(s.calls.pending[id]) else None, events);
    ExecKeepsInv(unpack, s, events);
  }

  ghost predicate Abandoned(c: Calls, id: nat, answer: Option<Bytes>) {
    id in c.timedOut && (answer.Some? ==> id in c.pending && c.pending[id] == answer.value)
  }

  /** The next frame to dispatch is no answer that has been dispatched before. */
  lemma NextDispatchIsNew(unpack: Unpack, s: State, id: nat)
    requires s.link.depth > 0 && TryRead(s.link.buffer).Some? && Inv(unpack, s)
    requires Replied(s.server.answers, s.link.dispatched, id)
    ensures var next := C.Decode(unpack, TryRead(s.link.buffer).value);
      next.Reply? ==> next.id != Some(id)
  {
    hide LinkInv, AsyncInv, SyncInv;
    var k := |s.link.dispatched|;
    LinkStep(s.link, Dispatch);
    LinkDeliversPrefix(s.link);
    LinkDeliversPrefix(StepLink(s.link, Dispatch).value);
    assert StepLink(s.link, Dispatch).value.dispatched[k] == s.link.order[k];
  }

  /** No event but a dispatch for the same id can touch what an abandoned call left behind. */
  lemma EventKeepsAbandoned(unpack: Unpack, s: State, id: nat, answer: Option<Bytes>, e: Event)
    requires Abandoned(s.calls, id, answer) && id !in s.calls.waiting && Step(unpack, s, e).Some?
    requires e.Dispatch? && answer.Some? ==>
      var next := C.Decode(unpack, TryRead(s.link.buffer).value);
      next.Reply? ==> next.id != Some(id)
    ensures Abandoned(Step(unpack, s, e).value.calls, id, answer)
  {
  }

  lemma StepKeepsAbandoned(unpack: Unpack, s: State, id: nat, answer: Option<Bytes>, e: Event)
    requires Inv(unpack, s) && Abandoned(s.calls, id, answer) && Step(unpack, s, e).Some?
    ensures Abandoned(Step(unpack, s, e).value.calls, id, answer)
  {
    hide LinkInv, AsyncInv;
    assert id !in s.calls.waiting;
    if e.Dispatch? && answer.Some? {
      assert Replied(s.server.answers, s.link.dispatched, id);
      NextDispatchIsNew(unpack, s, id);
    }
    EventKeepsAbandoned(unpack, s, id, answer, e);
  }

  lemma {:induction false} ExecKeepsAbandoned(unpack: Unpack, s: State, id: nat, answer: Option<Bytes>,
                                              events: seq<Event>)
    requires Inv(unpack, s) && Abandoned(s.calls, id, answer) && Exec(unpack, s, events).Some?
    ensures Abandoned(Exec(unpack, s, events).value.calls, id, answer)
    decreases |events|
  {
    if events != [] {
      StepKeepsInv(unpack, s, events[0]);
      StepKeepsAbandoned(unpack, s, id, answer, events[0]);
      ExecKeepsAbandoned(unpack, Step(unpack, s, events[0]).value, id, answer, events[1..]);
    }
  }

  /** Nothing is lost: once the system is quiet, every computed answer has reached its caller. */
  lemma QuietMeansDelivered(unpack: Unpack, s: State, id: nat)
    requires Reachable(unpack, s) && id in s.server.answers
    requires s.server.tasks == map[] && s.link.lock.None? && s.link.pipe == [] && TryRead(s.link.buffer).None?
    ensures id in s.calls.issued
    ensures match s.calls.issued[id]
      case Async(callback) => Delivery(id, callback, s.server.answers[id]) in s.calls.fired
      case Sync =>
        || (id in s.calls.returned && s.calls.returned[id] == s.server.answers[id])
        || (id in s.calls.pending && s.calls.pending[id] == s.server.answers[id]
            && (id in s.calls.waiting || id in s.calls.timedOut))
  {
    ReachableInv(unpack, s);
    LinkDeliversPrefix(s.link);
    assert Replied(s.server.answers, s.link.dispatched, id);
  }

  // ---------------------------------------------------------------- the client's tables

  /** The tables of the client are those of the step system, with replies unpacked. */
  ghost predicate Shows(unpack: Unpack, t: C.Tables, c: Calls) {
    && t.nextId == c.nextId && t.callbacks == c.callbacks
    && (forall id :: Some(id) in t.pending <==> id in c.pending)
    && (forall id :: id in c.pending ==> C.Decode(unpack, c.pending[id]) == C.Reply(Some(id), t.pending[Some(id)]))
  }

  /** Routing a frame at the client is what the event Dispatch does to the calls. */
  lemma RouteIsDispatch(unpack: Unpack, t: C.Tables, c: Calls, payload: Bytes)
    requires Shows(unpack, t, c)
    ensures Shows(unpack, C.AfterRoute(unpack, t, payload), RouteReply(unpack, c, payload))
    ensures var route := C.RouteOf(unpack, t.callbacks, payload);
      RouteReply(unpack, c, payload).fired ==
        c.fired + if route.ToCallback? then [Delivery(route.id, route.callback, payload)] else []
  {
    assert c.fired + [] == c.fired;
  }

  /** A waiting caller finds a reply exactly if the event Take is possible, and gets what it returns. */
  lemma FindIsTake(unpack: Unpack, t: C.Tables, c: Calls, id: nat)
    requires Shows(unpack, t, c) && id in c.waiting
    ensures var taken := StepCalls(c, Take(id));
      && (taken.Some? <==> Some(id) in t.pending)
      && (taken.Some? ==>
            && Shows(unpack, C.AfterFind(t, id), taken.value)
            && C.Decode(unpack, taken.value.returned[id]) == C.Reply(Some(id), t.pending[Some(id)]))
      && (taken.None? ==> C.AfterFind(t, id) == t)
  {
    if Some(id) !in t.pending {
      assert t.pending - {Some(id)} == t.pending;
    }
  }

  /** Starting a call is the event Issue; giving up waiting leaves the tables alone. */
  lemma CallIsIssue(unpack: Unpack, t: C.Tables, c: Calls, callback: nat, size: nat)
    requires Shows(unpack, t, c)
    ensures Shows(unpack, C.AfterCall(t, Some(callback)), IssueCall(c, Async(callback), size))
    ensures Shows(unpack, C.AfterCall(t, None), IssueCall(c, Sync, size))
    ensures forall id :: id in c.waiting ==> Shows(unpack, t, StepCalls(c, Expire(id)).value)
  {
  }

  // ---------------------------------------------------------------- a filter that is left by a quit

  lemma {:induction false} ExecSnoc(unpack: Unpack, s: State, events: seq<Event>, e: Event)
    requires Exec(unpack, s, events).Some? && Step(unpack, Exec(unpack, s, events).value, e).Some?
    ensures Exec(unpack, s, events + [e]) == Step(unpack, Exec(unpack, s, events).value, e)
    decreases |events|
  {
    hide Step;
    if events == [] {
      assert events + [e] == [e] && [e][1..] == [];
    } else {
      assert (events + [e])[1..] == events[1..] + [e];
      ExecSnoc(unpack, Step(unpack, s, events[0]).value, events[1..], e);
    }
  }

  lemma ReachNext(unpack: Unpack, s: State, e: Event) returns (t: State)
    requires Reachable(unpack, s) && Step(unpack, s, e).Some?
    ensures t == Step(unpack, s, e).value && Reachable(unpack, t)
  {
    hide Step;
    t := Step(unpack, s, e).value;
    var events :| Exec(unpack, INITIAL, events) == Some(s);
    ExecSnoc(unpack, INITIAL, events, e);
  }

  lemma InitialIsReachable(unpack: Unpack)
    ensures Reachable(unpack, INITIAL)
  {
    assert Exec(unpack, INITIAL, []) == Some(INITIAL);
  }

  predicate IsNotice(unpack: Unpack, payload: Bytes) {
    |payload| < LENGTH_LIMIT && C.Decode(unpack, payload).Notification?
  }

  /** The server writes a notification; its frame is in the pipe. */
  lemma NoticeIsWritten(unpack: Unpack, s: State, payload: Bytes) returns (t: State)
    requires Reachable(unpack, s) && IsNotice(unpack, payload) && s.link.lock.None? && s.link.staged == []
    ensures Reachable(unpack, t)
    ensures t.link == s.link.(order := s.link.order + [payload], pipe := s.link.pipe + Frame(payload))
  {
    hide Reachable, Frame, TryRead;
    var bytes := Frame(payload);
    t := ReachNext(unpack, s, LockForNotice(payload));
    t := ReachNext(unpack, t, Write(|bytes|));
    assert bytes[0..|bytes|] == bytes && t.link.staged == [] + bytes == bytes;
    t := ReachNext(unpack, t, Spill(|bytes|));
    assert bytes[..|bytes|] == bytes && bytes[|bytes|..] == [];
    t := ReachNext(unpack, t, Unlock);
  }

  /** All that is in the pipe comes in one chunk. */
  lemma AllArrives(unpack: Unpack, s: State) returns (t: State)
    requires Reachable(unpack, s) && s.link.buffer == []
    ensures Reachable(unpack, t)
    ensures t.link == s.link.(pipe := [], buffer := s.link.pipe, depth := s.link.depth + 1)
  {
    hide Reachable;
    var bytes := s.link.pipe;
    assert bytes[..|bytes|] == bytes && bytes[|bytes|..] == [] && [] + bytes == bytes;
    t := ReachNext(unpack, s, Chunk(|bytes|));
  }

  /** The filter dispatches the frame at the front, and the handler quits. */
  lemma HandlerQuits(unpack: Unpack, s: State, payload: Bytes, rest: Bytes) returns (t: State)
    requires Reachable(unpack, s) && IsNotice(unpack, payload)
    requires s.link.depth > 0 && s.link.buffer == Frame(payload) + rest
    ensures Reachable(unpack, t)
    ensures t.link == s.link.(buffer := rest, depth := s.link.depth - 1, dispatched := s.link.dispatched + [payload])
  {
    hide Reachable, Frame, RouteReply, TryRead, Rest;
    ReadFrame(payload, rest);
    t := ReachNext(unpack, s, Dispatch);
    t := ReachNext(unpack, t, FilterAborts);
  }

  /** A run in which the handler of one notification quits: the next one stays in the buffer. */
  lemma QuitLeavesFrameWaiting(unpack: Unpack, first: Bytes, second: Bytes) returns (s: State)
    requires IsNotice(unpack, first) && IsNotice(unpack, second)
    ensures Reachable(unpack, s) && s.link.lock.None? && s.link.pipe == [] && s.link.depth == 0
    ensures s.link.order == [first, second] && s.link.dispatched == [first] && TryRead(s.link.buffer) == Some(second)
  {
    hide Reachable, Frame, TryRead;
    InitialIsReachable(unpack);
    s := NoticeIsWritten(unpack, INITIAL, first);
    s := NoticeIsWritten(unpack, s, second);
    assert s.link.pipe == Frame(first) + Frame(second);
    s := AllArrives(unpack, s);
    s := HandlerQuits(unpack, s, first, Frame(second));
    ReadFrame(second, []);
    assert Frame(second) + [] == Frame(second);
  }

  // ---------------------------------------------------------------- every call can end

  ghost predicate Leads(unpack: Unpack, s: State, t: State) {
    exists events :: Exec(unpack, s, events) == Some(t)
  }

  /** The request is unsent, unread, at work, or answered. */
  predicate Underway(s: State, id: nat) {
    id in s.calls.unsent || id in s.server.uplink || id in s.server.tasks || id in s.server.answers
  }

  /** No request that fits gets lost, and none that does not fit is ever worked on. */
  ghost predicate SizeInv(s: State) {
    SizesFit(s.calls.issued.Keys, s.calls.sizes, s.calls.unsent, s.server)
  }

  ghost predicate SizesFit(issued: set<nat>, sizes: map<nat, nat>, unsent: set<nat>, v: Server) {
    forall id :: id in issued ==>
      && id in sizes
      && if sizes[id] <= ServerLoop.MAX_MESSAGE then id in unsent || id in v.uplink || id in v.tasks || id in v.answers
         else id !in v.tasks && id !in v.answers
  }

  lemma IssueKeepsSizes(unpack: Unpack, s: State, kind: Kind, size: nat)
    requires Inv(unpack, s) && SizeInv(s)
    ensures SizeInv(s.(calls := IssueCall(s.calls, kind, size)))
    ensures s.calls.nextId + 1 !in s.calls.issued
  {
    hide LinkInv, AsyncInv, SyncInv, WaitInv, OrderInv;
  }

  lemma UplinkKeepsSizes(unpack: Unpack, s: State, e: Event)
    requires Inv(unpack, s) && SizeInv(s) && (e.Send? || e.Spawn? || e.DropOversized?) && Step(unpack, s, e).Some?
    ensures SizeInv(Step(unpack, s, e).value) && Step(unpack, s, e).value.calls.issued == s.calls.issued
    ensures Step(unpack, s, e).value.calls.sizes == s.calls.sizes
  {
    hide LinkInv, CallsInv, OrderInv;
  }

  lemma TaskKeepsSizes(unpack: Unpack, s: State, e: Event)
    requires Inv(unpack, s) && SizeInv(s) && (e.Answer? || e.LockForReply?) && Step(unpack, s, e).Some?
    ensures SizeInv(Step(unpack, s, e).value) && Step(unpack, s, e).value.calls == s.calls
  {
    hide LinkInv, CallsInv, OrderInv;
  }

  lemma StepKeepsSizes(unpack: Unpack, s: State, e: Event)
    requires Inv(unpack, s) && SizeInv(s) && Step(unpack, s, e).Some?
    ensures SizeInv(Step(unpack, s, e).value)
    ensures forall id :: id in s.calls.issued ==>
      var t := Step(unpack, s, e).value;
      id in t.calls.issued && id in t.calls.sizes && t.calls.sizes[id] == s.calls.sizes[id]
  {
    hide Inv, SizesFit, RouteReply;
    SizesAreKnown(s);
    match e
    case Issue(kind, size) => IssueKeepsSizes(unpack, s, kind, size);
    case Send(_) => UplinkKeepsSizes(unpack, s, e);
    case Spawn => UplinkKeepsSizes(unpack, s, e);
    case DropOversized => UplinkKeepsSizes(unpack, s, e);
    case Answer(_, _) => TaskKeepsSizes(unpack, s, e);
    case LockForReply(_) => TaskKeepsSizes(unpack, s, e);
    case _ =>
  }

  lemma SizesAreKnown(s: State)
    requires SizeInv(s)
    ensures forall id :: id in s.calls.issued ==> id in s.calls.sizes
  {
  }

  lemma {:induction false} ExecKeepsSizes(unpack: Unpack, s: State, events: seq<Event>)
    requires Inv(unpack, s) && SizeInv(s) && Exec(unpack, s, events).Some?
    ensures SizeInv(Exec(unpack, s, events).value)
    ensures forall id :: id in s.calls.issued ==>
      var t := Exec(unpack, s, events).value;
      id in t.calls.issued && id in t.calls.sizes && t.calls.sizes[id] == s.calls.sizes[id]
    decreases |events|
  {
    hide Step, Inv, SizeInv;
    SizesAreKnown(s);
    if events != [] {
      StepKeepsInv(unpack, s, events[0]);
      StepKeepsSizes(unpack, s, events[0]);
      ExecKeepsSizes(unpack, Step(unpack, s, events[0]).value, events[1..]);
    }
  }

  /** A state on the way from s. */
  ghost predicate OnTheWay(unpack: Unpack, s: State, t: State) {
    Leads(unpack, s, t) && Inv(unpack, t) && SizeInv(t)
  }

  lemma StartsHere(unpack: Unpack, s: State)
    requires Reachable(unpack, s)
    ensures OnTheWay(unpack, s, s)
  {
    ReachableInv(unpack, s);
    assert Exec(unpack, s, []) == Some(s);
    var events :| Exec(unpack, INITIAL, events) == Some(s);
    InitialIsReachable(unpack);
    ReachableInv(unpack, INITIAL);
    ExecKeepsSizes(unpack, INITIAL, events);
  }

  lemma GoOn(unpack: Unpack, s: State, t: State, e: Event) returns (u: State)
    requires OnTheWay(unpack, s, t) && Step(unpack, t, e).Some?
    ensures u == Step(unpack, t, e).value && OnTheWay(unpack, s, u)
  {
    hide Step, Inv, SizeInv;
    u := Step(unpack, t, e).value;
    var events :| Exec(unpack, s, events) == Some(t);
    ExecSnoc(unpack, s, events, e);
    StepKeepsInv(unpack, t, e);
    StepKeepsSizes(unpack, t, e);
  }

  /** Sending and reading, in the order in which requests were sent, starts the request's task. */
  lemma TaskStarts(unpack: Unpack, s: State, t: State, id: nat) returns (u: State)
    requires OnTheWay(unpack, s, t) && Underway(t, id) && Fits(t.calls, id)
    ensures OnTheWay(unpack, s, u) && (id in u.server.tasks || id in u.server.answers)
    ensures u.calls == t.calls.(unsent := u.calls.unsent) && u.server.answers == t.server.answers
    decreases id in t.calls.unsent, |t.server.uplink|
  {
    hide OnTheWay;
    if id in t.server.tasks || id in t.server.answers {
      u := t;
    } else if id in t.server.uplink {
      u := GoOn(unpack, s, t, if FrontFits(t) then Spawn else DropOversized);
      if t.server.uplink[0] != id {
        u := TaskStarts(unpack, s, u, id);
      }
    } else {
      u := GoOn(unpack, s, t, Send(id));
      u := TaskStarts(unpack, s, u, id);
    }
  }

  lemma TaskAnswers(unpack: Unpack, s: State, t: State, id: nat, payload: Bytes) returns (u: State)
    requires OnTheWay(unpack, s, t) && (id in t.server.tasks || id in t.server.answers)
    requires AnswerFits(unpack, id, payload)
    ensures OnTheWay(unpack, s, u) && u.calls == t.calls && id in u.server.answers
    ensures u.server.answers == if id in t.server.answers then t.server.answers else t.server.answers[id := payload]
  {
    u := t;
    if id !in t.server.answers {
      u := GoOn(unpack, s, t, Answer(id, payload));
    }
  }

  /** Whoever holds the lock finishes its frame. */
  lemma LockIsFreed(unpack: Unpack, s: State, t: State) returns (u: State)
    requires OnTheWay(unpack, s, t)
    ensures OnTheWay(unpack, s, u) && u.calls == t.calls && u.server == t.server
    ensures u.link == t.link.(lock := None, staged := [], pipe := u.link.pipe)
  {
    hide ServerInv, CallsInv, Stream, Frame, Leads;
    u := t;
    if t.link.lock.Some? {
      var h := t.link.lock.value;
      u := GoOn(unpack, s, u, Write(|Frame(h.payload)| - h.written));
      var staged := u.link.staged;
      assert staged[..|staged|] == staged && staged[|staged|..] == [];
      u := GoOn(unpack, s, u, Spill(|staged|));
      u := GoOn(unpack, s, u, Unlock);
    }
  }

  lemma AnswerTakesLock(unpack: Unpack, s: State, t: State, id: nat) returns (u: State)
    requires OnTheWay(unpack, s, t) && id in t.server.answers
    ensures OnTheWay(unpack, s, u) && u.calls == t.calls && u.server.answers == t.server.answers
    ensures u.server.answers[id] in u.link.order
  {
    u := t;
    if t.server.answers[id] !in t.link.order {
      assert id in t.server.tasks && t.server.tasks[id].Answered?;
      u := LockIsFreed(unpack, s, t);
      u := GoOn(unpack, s, u, LockForReply(id));
    }
  }

  /** The bytes come to the client in one chunk. */
  lemma BytesArrive(unpack: Unpack, s: State, t: State) returns (u: State)
    requires OnTheWay(unpack, s, t)
    ensures OnTheWay(unpack, s, u) && u.calls == t.calls && u.server == t.server
    ensures u.link.order == t.link.order && u.link.lock.None? && u.link.pipe == [] && u.link.depth > 0
  {
    u := LockIsFreed(unpack, s, t);
    u := GoOn(unpack, s, u, Chunk(|u.link.pipe|));
  }

  /** The filter dispatches frame after frame, until it has come to the answer. */
  lemma AnswerIsDispatched(unpack: Unpack, s: State, t: State, answer: Bytes) returns (u: State)
    requires OnTheWay(unpack, s, t) && answer in t.link.order
    requires t.link.lock.None? && t.link.pipe == [] && t.link.depth > 0
    ensures OnTheWay(unpack, s, u) && u.server == t.server && answer in u.link.dispatched
    ensures u.calls.issued == t.calls.issued && u.calls.waiting == t.calls.waiting
    ensures u.calls.timedOut == t.calls.timedOut
    decreases |t.link.buffer|
  {
    u := t;
    if answer !in t.link.dispatched {
      LinkDeliversPrefix(t.link);
      u := GoOn(unpack, s, t, Dispatch);
      u := AnswerIsDispatched(unpack, s, u, answer);
    }
  }

  /** The caller has its answer: its callback has fired with it, or it has returned it. */
  predicate HasAnswer(s: State, id: nat) {
    && id in s.calls.issued && id in s.server.answers
    && match s.calls.issued[id]
       case Async(callback) => Delivery(id, callback, s.server.answers[id]) in s.calls.fired
       case Sync => id in s.calls.returned && s.calls.returned[id] == s.server.answers[id]
  }

  lemma AnswerIsClaimed(unpack: Unpack, s: State, t: State, id: nat) returns (u: State)
    requires OnTheWay(unpack, s, t) && id in t.calls.issued && Replied(t.server.answers, t.link.dispatched, id)
    requires t.calls.issued[id].Sync? ==> id in t.calls.waiting
    ensures OnTheWay(unpack, s, u) && HasAnswer(u, id) && u.server == t.server && u.calls.issued == t.calls.issued
  {
    hide LinkInv, ServerInv, OrderInv;
    u := t;
    if t.calls.issued[id].Sync? {
      u := GoOn(unpack, s, t, Take(id));
    }
  }

  /**
   Nobody waits in vain: whatever has happened so far, a request that the server accepts can still be
   answered with any payload that fits it, and that answer can come to its own caller.
   */
  lemma AnswerReachesCaller(unpack: Unpack, s: State, id: nat, payload: Bytes) returns (t: State)
    requires Reachable(unpack, s) && id in s.calls.issued && Fits(s.calls, id) && AnswerFits(unpack, id, payload)
    requires s.calls.issued[id].Sync? ==> id in s.calls.waiting
    ensures Leads(unpack, s, t) && HasAnswer(t, id) && t.calls.issued[id] == s.calls.issued[id]
    ensures t.server.answers[id] == if id in s.server.answers then s.server.answers[id] else payload
  {
    hide Inv;
    StartsHere(unpack, s);
    t := TaskStarts(unpack, s, s, id);
    t := TaskAnswers(unpack, s, t, id, payload);
    t := AnswerTakesLock(unpack, s, t, id);
    t := BytesArrive(unpack, s, t);
    t := AnswerIsDispatched(unpack, s, t, t.server.answers[id]);
    t := AnswerIsClaimed(unpack, s, t, id);
  }

  lemma LeadsFurther(unpack: Unpack, s: State, e: Event, t: State)
    requires Step(unpack, s, e).Some? && Leads(unpack, Step(unpack, s, e).value, t)
    ensures Leads(unpack, s, t)
  {
    hide Step;
    var events :| Exec(unpack, Step(unpack, s, e).value, events) == Some(t);
    assert ([e] + events)[1..] == events;
    assert Exec(unpack, s, [e] + events) == Some(t);
  }

  lemma CallIsMade(unpack: Unpack, s: State, kind: Kind, size: nat) returns (t: State)
    requires Reachable(unpack, s)
    ensures t == s.(calls := IssueCall(s.calls, kind, size)) && Step(unpack, s, Issue(kind, size)) == Some(t)
    ensures Reachable(unpack, t) && s.calls.nextId + 1 !in s.calls.issued && s.calls.nextId + 1 !in s.server.answers
  {
    ReachableInv(unpack, s);
    IdIsNew(unpack, s);
    hide Inv, Reachable;
    t := ReachNext(unpack, s, Issue(kind, size));
  }

  /** At any moment a new call can be made, and it can get its answer. */
  lemma NewCallGetsAnswer(unpack: Unpack, s: State, kind: Kind, size: nat, payload: Bytes) returns (t: State)
    requires Reachable(unpack, s) && size <= 100 * 1024 * 1024 && AnswerFits(unpack, s.calls.nextId + 1, payload)
    ensures var id := s.calls.nextId + 1;
      && Leads(unpack, s, t) && HasAnswer(t, id)
      && id !in s.calls.issued && t.calls.issued[id] == kind && t.server.answers[id] == payload
  {
    hide Reachable, Leads, Step, AnswerFits, Inv;
    var u := CallIsMade(unpack, s, kind, size);
    t := AnswerReachesCaller(unpack, u, s.calls.nextId + 1, payload);
    LeadsFurther(unpack, s, Issue(kind, size), t);
  }

  lemma IdIsNew(unpack: Unpack, s: State)
    requires Inv(unpack, s)
    ensures s.calls.nextId + 1 !in s.calls.issued && s.calls.nextId + 1 !in s.server.answers
  {
    hide LinkInv, AsyncInv, SyncInv, WaitInv, OrderInv;
  }

  /** A call that has not been given up can still get an answer exactly if its request has at most 100 MiB. */
  lemma CallCanEndIff(unpack: Unpack, s: State, id: nat, payload: Bytes)
    requires Reachable(unpack, s) && id in s.calls.issued && AnswerFits(unpack, id, payload)
    requires s.calls.issued[id].Sync? ==> id in s.calls.waiting
    ensures id in s.calls.sizes
    ensures s.calls.sizes[id] <= 100 * 1024 * 1024 <==> exists t :: Leads(unpack, s, t) && HasAnswer(t, id)
  {
    hide LinkInv, ServerInv, CallsInv;
    StartsHere(unpack, s);
    if Fits(s.calls, id) {
      var t := AnswerReachesCaller(unpack, s, id, payload);
    } else {
      forall t | Leads(unpack, s, t)
        ensures !HasAnswer(t, id)
      {
        var events :| Exec(unpack, s, events) == Some(t);
        ExecKeepsSizes(unpack, s, events);
      }
    }
  }

  /** Two steps on the server: a request that has been read gets its task, and the task can answer it. */
  lemma ReadRequestIsAnswered(unpack: Unpack, s: State, payload: Bytes)
    requires Reachable(unpack, s) && s.server.uplink != [] && AnswerFits(unpack, s.server.uplink[0], payload)
    requires FrontFits(s)
    ensures var id := s.server.uplink[0];
      var r := Exec(unpack, s, [Spawn, Answer(id, payload)]);
      && r.Some? && r.value.calls == s.calls && r.value.link == s.link
      && r.value.server.answers == s.server.answers[id := payload] && r.value.server.uplink == s.server.uplink[1..]
  {
    hide Reachable;
    var id := s.server.uplink[0];
    var t := Step(unpack, s, Spawn).value;
    var u := Step(unpack, t, Answer(id, payload)).value;
    assert [Spawn, Answer(id, payload)][1..] == [Answer(id, payload)] && [Answer(id, payload)][1..] == [];
    assert Exec(unpack, u, []) == Some(u);
    assert Exec(unpack, t, [Answer(id, payload)]) == Some(u);
  }

  /**
   A caller may give up at any moment.  The answer can still come, and then lies in the pending table
   under the abandoned id.
   */
  lemma LateAnswerCanCome(unpack: Unpack, s: State, id: nat, payload: Bytes) returns (t: State)
    requires Reachable(unpack, s) && id in s.calls.waiting && Fits(s.calls, id) && AnswerFits(unpack, id, payload)
    requires id !in s.server.answers
    ensures Leads(unpack, s, t) && id in t.calls.timedOut && id in t.calls.pending && t.calls.pending[id] == payload
  {
    hide Inv, SizeInv, Step, Exec, Reachable;
    StartsHere(unpack, s);
    t := CallerGivesUp(unpack, s, id);
    t := TaskStarts(unpack, s, t, id);
    t := TaskAnswers(unpack, s, t, id, payload);
    t := AnswerTakesLock(unpack, s, t, id);
    t := BytesArrive(unpack, s, t);
    t := AnswerIsDispatched(unpack, s, t, payload);
    UnclaimedIsPending(unpack, t, id);
  }

  lemma CallerGivesUp(unpack: Unpack, s: State, id: nat) returns (t: State)
    requires OnTheWay(unpack, s, s) && id in s.calls.waiting && Fits(s.calls, id)
    ensures OnTheWay(unpack, s, t) && t.server == s.server && id in t.calls.timedOut
    ensures Underway(t, id) && Fits(t.calls, id)
  {
    hide Inv, SizesFit;
    WaitingIsIssued(unpack, s, id);
    t := GoOn(unpack, s, s, Expire(id));
    FittingIsUnderway(t, id);
  }

  lemma FittingIsUnderway(s: State, id: nat)
    requires SizeInv(s) && id in s.calls.issued && Fits(s.calls, id)
    ensures Underway(s, id)
  {
  }

  lemma WaitingIsIssued(unpack: Unpack, s: State, id: nat)
    requires Inv(unpack, s) && id in s.calls.waiting
    ensures id in s.calls.issued && s.calls.issued[id].Sync?
  {
    hide LinkInv, ServerInv;
  }

  lemma UnclaimedIsPending(unpack: Unpack, s: State, id: nat)
    requires Inv(unpack, s) && id in s.calls.timedOut && Replied(s.server.answers, s.link.dispatched, id)
    ensures id in s.calls.pending && s.calls.pending[id] == s.server.answers[id]
  {
    hide LinkInv, ServerInv;
  }

  /** The transport can always come to rest without a quit: no byte on its way, no filter active, all dispatched. */
  lemma CanComeToRest(unpack: Unpack, s: State) returns (t: State)
    requires Reachable(unpack, s)
    ensures Leads(unpack, s, t) && t.link.lock.None? && t.link.pipe == [] && t.link.depth == 0
    ensures t.link.dispatched == t.link.order == s.link.order && t.server == s.server
  {
    StartsHere(unpack, s);
    t := BytesArrive(unpack, s, s);
    t := FiltersReturn(unpack, s, t);
    LinkDeliversPrefix(t.link);
  }

  lemma FiltersReturn(unpack: Unpack, s: State, t: State) returns (u: State)
    requires OnTheWay(unpack, s, t) && t.link.lock.None? && t.link.pipe == [] && Emptied(t.link)
    ensures OnTheWay(unpack, s, u) && u.link.lock.None? && u.link.pipe == [] && u.link.depth == 0
    ensures TryRead(u.link.buffer).None? && u.link.order == t.link.order && u.server == t.server
    decreases |t.link.buffer|, t.link.depth
  {
    u := t;
    if t.link.depth > 0 {
      u := GoOn(unpack, s, t, if TryRead(t.link.buffer).Some? then Dispatch else FilterReturns);
      u := FiltersReturn(unpack, s, u);
    }
  }
}
