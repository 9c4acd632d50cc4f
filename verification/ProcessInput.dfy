/**
 One remote process's standard input as a step system: the client's write queue and drain, and the
 server's concurrent process.write and close_stdin tasks around the per-process stdin lock.
 */
module ProcessInput {
  import opened Prelude
  import opened Framing
  import opened WriteQueue
  import ServerLoop

  datatype Phase = Submitted | Holding | Answered | Acknowledged | Dropped

  /** A process.write request: its string, how much of it reached the child, and how it ended. */
  datatype Write = Write(data: Bytes, done: nat, phase: Phase, failed: bool)

  /** Closing: before counts the strings accepted when close_stdin was sent. */
  datatype Close = NotAsked | Draining | Asked(before: nat, drained: bool)

  datatype State = State(
    queue: Option<Queue>,
    strings: seq<Bytes>, // history of all strings accepted for this process
    writes: seq<Write>,  // history of all requests, in the order in which they were sent
    lock: Option<nat>,   // the request that holds the stdin lock
    open: bool,          // the server still has the stdin handle
    child: Bytes,        // what the child can read
    close: Close)

  datatype Event =
    | WriteString(data: Bytes)
    | Lock(index: nat)
    | Pipe(count: nat)
    | Finish
    | Fail(index: nat)
    | DropOversized(index: nat, size: nat)
    | Acknowledged(index: nat)
    | BeginClose
    | CloseWhenIdle
    | CloseAtDeadline
    | TakeHandle
    | ForgetQueue

  const INITIAL := State(None, [], [], None, true, [], NotAsked)

  function Requests(strings: seq<Bytes>): seq<Write> {
    seq(|strings|, i requires 0 <= i < |strings| => Write(strings[i], 0, Submitted, false))
  }

  function WithQueue(s: State, change: (Option<Queue>, seq<Bytes>)): State {
    s.(queue := change.0, writes := s.writes + Requests(change.1))
  }

  function SetPhase(s: State, i: nat, phase: Phase): State
    requires i < |s.writes|
  {
    s.(writes := s.writes[i := s.writes[i].(phase := phase)])
  }

  /** The server's request loop does not accept such a request, whose payload is even larger. */
  predicate TooLarge(w: Write) {
    |w.data| > ServerLoop.MAX_MESSAGE
  }

  function Step(s: State, e: Event): Option<State> {
    match e
    case WriteString(data) => Some(WithQueue(s.(strings := s.strings + [data]), Enqueue(s.queue, data)))
    case Lock(i) =>
      if i < |s.writes| && s.writes[i].phase == Submitted && !TooLarge(s.writes[i]) && s.lock.None? then
        if s.open then Some(SetPhase(s, i, Holding).(lock := Some(i)))
        else Some(SetPhase(s, i, Answered)) // reports success without writing
      else None
    case Pipe(count) =>
      if s.lock.Some? && s.lock.value < |s.writes|
         && s.writes[s.lock.value].done + count <= |s.writes[s.lock.value].data| then
        var w := s.writes[s.lock.value];
        Some(s.(writes := s.writes[s.lock.value := w.(done := w.done + count)],
                child := s.child + w.data[w.done..w.done + count]))
      else None
    case Finish =>
      if s.lock.Some? && s.lock.value < |s.writes| && s.writes[s.lock.value].done == |s.writes[s.lock.value].data| then
        Some(SetPhase(s, s.lock.value, Answered).(lock := None))
      else None
    case Fail(i) =>
      if i < |s.writes| && ((s.writes[i].phase == Submitted && !TooLarge(s.writes[i])) || s.lock == Some(i)) then
        Some(s.(writes := s.writes[i := s.writes[i].(phase := Answered, failed := true)],
                lock := if s.lock == Some(i) then None else s.lock))
      else None
    case DropOversized(i, size) => // skipped by the server's request loop, without any reply
      if i < |s.writes| && s.writes[i].phase == Submitted
         && size > ServerLoop.MAX_MESSAGE && size >= |s.writes[i].data| then
        Some(SetPhase(s, i, Dropped))
      else None
    case Acknowledged(i) =>
      if i < |s.writes| && s.writes[i].phase == Answered then
        Some(WithQueue(SetPhase(s, i, Phase.Acknowledged), Acknowledge(s.queue)))
      else None
    case BeginClose => if s.close.NotAsked? then Some(s.(close := Draining)) else None
    case CloseWhenIdle =>
      if s.close.Draining? && Idle(s.queue) then Some(s.(close := Asked(|s.strings|, true))) else None
    case CloseAtDeadline =>
      if s.close.Draining? then Some(s.(close := Asked(|s.strings|, false))) else None
    case TakeHandle =>
      if s.close.Asked? && s.open && s.lock.None? then Some(s.(open := false)) else None
    case ForgetQueue => Some(s.(queue := None))
  }

  function Exec(s: State, events: seq<Event>): Option<State>
    decreases |events|
  {
    if events == [] then Some(s)
    else match Step(s, events[0]) case None => None case Some(t) => Exec(t, events[1..])
  }

  predicate InFlight(w: Write) {
    w.phase != Phase.Acknowledged
  }

  predicate NoneInFlight(s: State) {
    forall i :: 0 <= i < |s.writes| ==> !InFlight(s.writes[i])
  }

  predicate AtMostOneInFlight(s: State) {
    forall i, j :: 0 <= i < j < |s.writes| ==> !(InFlight(s.writes[i]) && InFlight(s.writes[j]))
  }

  /** Exit handling drops the queue only while no write is under way. */
  predicate Orderly(s: State, events: seq<Event>)
    decreases |events|
  {
    || events == []
    || ((events[0].ForgetQueue? ==> NoneInFlight(s))
        && Step(s, events[0]).Some? && Orderly(Step(s, events[0]).value, events[1..]))
  }

  ghost predicate OrderlyReachable(s: State) {
    exists events :: Orderly(INITIAL, events) && Exec(INITIAL, events) == Some(s)
  }

  function Datas(writes: seq<Write>): seq<Bytes> {
    seq(|writes|, i requires 0 <= i < |writes| => writes[i].data)
  }

  /** What the requests have put into the pipe, if they never overlapped. */
  function Contributions(writes: seq<Write>): Bytes {
    if writes == [] then []
    else
      var w := writes[|writes| - 1];
      Contributions(writes[..|writes| - 1]) + if w.done <= |w.data| then w.data[..w.done] else w.data
  }

  function Pending(q: Option<Queue>): seq<Bytes> {
    if q.None? then [] else q.value.pending
  }

  predicate Complete(w: Write) {
    w.done == |w.data|
  }

  // ---------------------------------------------------------------- the invariant

  /** Only the last request can be under way, and the queue knows it. */
  predicate SerialInv(queue: Option<Queue>, strings: seq<Bytes>, writes: seq<Write>) {
    && (forall i :: 0 <= i < |writes| - 1 ==> !InFlight(writes[i]))
    && Consistent(queue)
    && ((queue.Some? && queue.value.writing) <==> (writes != [] && InFlight(writes[|writes| - 1])))
    && strings == Datas(writes) + Pending(queue)
  }

  /** What holds of one request: it misses bytes only by failure or after closing, or because it waits. */
  predicate WriteInv(w: Write, holds: bool, open: bool) {
    && w.done <= |w.data|
    && (w.phase == Submitted || w.phase == Dropped ==> w.done == 0 && !w.failed)
    && (TooLarge(w) ==> w.phase == Submitted || w.phase == Dropped)
    && (w.phase == Holding <==> holds)
    && (w.phase == Holding ==> !w.failed && open)
    && ((w.phase == Answered || !InFlight(w)) && !w.failed && !Complete(w) ==> w.done == 0 && !open)
  }

  /** The child has the requests' bytes in order. */
  predicate PipeInv(writes: seq<Write>, lock: Option<nat>, open: bool, child: Bytes) {
    && child == Contributions(writes)
    && (forall i :: 0 <= i < |writes| ==> WriteInv(writes[i], lock == Some(i), open))
    && (lock.Some? ==> lock.value < |writes|)
    && NothingBehindIncomplete(writes)
  }

  predicate NothingBehindIncomplete(writes: seq<Write>) {
    forall i, j :: 0 <= i < j < |writes| && !writes[i].failed && !Complete(writes[i]) ==> writes[j].done == 0
  }

  predicate CloseInv(writes: seq<Write>, open: bool, close: Close) {
    && (!open ==> close.Asked?)
    && (close.Asked? && close.drained ==>
          && close.before <= |writes|
          && (forall i :: 0 <= i < close.before ==>
                !InFlight(writes[i]) && (writes[i].failed || Complete(writes[i]))))
  }

  predicate Inv(s: State) {
    && SerialInv(s.queue, s.strings, s.writes)
    && PipeInv(s.writes, s.lock, s.open, s.child)
    && CloseInv(s.writes, s.open, s.close)
  }

  lemma {:induction false} ContributionsOfUpdate(writes: seq<Write>, i: nat, w: Write)
    requires i < |writes| && w.data == writes[i].data && w.done == writes[i].done
    ensures Contributions(writes[i := w]) == Contributions(writes)
  {
    var last := |writes| - 1;
    if i < last {
      assert writes[i := w][..last] == writes[..last][i := w];
      ContributionsOfUpdate(writes[..last], i, w);
    } else {
      assert writes[i := w][..last] == writes[..last];
    }
  }

  lemma ContributionsOfNew(writes: seq<Write>, data: Bytes)
    ensures Contributions(writes + [Write(data, 0, Submitted, false)]) == Contributions(writes)
  {
    var all := writes + [Write(data, 0, Submitted, false)];
    assert all[..|writes|] == writes;
  }

  lemma ContributionsOfPipe(writes: seq<Write>, count: nat)
    requires writes != [] && writes[|writes| - 1].done + count <= |writes[|writes| - 1].data|
    ensures var i := |writes| - 1;
      var w := writes[i];
      Contributions(writes[i := w.(done := w.done + count)]) == Contributions(writes) + w.data[w.done..w.done + count]
  {
    var i := |writes| - 1;
    var w := writes[i];
    assert writes[i := w.(done := w.done + count)][..i] == writes[..i];
    assert w.data[..w.done + count] == w.data[..w.done] + w.data[w.done..w.done + count];
    AppendAssociative(Contributions(writes[..i]), w.data[..w.done], w.data[w.done..w.done + count]);
  }

  lemma RequestsOfOne(strings: seq<Bytes>)
    requires |strings| <= 1
    ensures Requests(strings) == if strings == [] then [] else [Write(strings[0], 0, Submitted, false)]
  {
  }

  /** Adding the strings that the queue released keeps the invariant, if nothing is under way. */
  lemma SubmitKeepsPipe(s: State, q: Option<Queue>, out: seq<Bytes>)
    requires PipeInv(s.writes, s.lock, s.open, s.child) && CloseInv(s.writes, s.open, s.close) && |out| <= 1
    requires out != [] ==> NoneInFlight(s)
    ensures var t := WithQueue(s, (q, out));
      PipeInv(t.writes, t.lock, t.open, t.child) && CloseInv(t.writes, t.open, t.close)
  {
    hide Contributions, Requests;
    RequestsOfOne(out);
    if out == [] {
      assert s.writes + Requests(out) == s.writes;
    } else {
      ContributionsOfNew(s.writes, out[0]);
    }
  }

  lemma SubmitKeepsSerial(s: State, q: Option<Queue>, out: seq<Bytes>)
    requires |out| <= 1 && Consistent(q)
    requires out != [] ==> NoneInFlight(s)
    requires forall i :: 0 <= i < |s.writes| - 1 ==> !InFlight(s.writes[i])
    requires (q.Some? && q.value.writing) <==> (out != [] || (s.writes != [] && InFlight(s.writes[|s.writes| - 1])))
    requires s.strings == Datas(s.writes) + (out + Pending(q))
    ensures var t := WithQueue(s, (q, out)); SerialInv(t.queue, t.strings, t.writes)
  {
    var t := WithQueue(s, (q, out));
    assert Datas(t.writes) == Datas(s.writes) + out;
    AppendAssociative(Datas(s.writes), out, Pending(q));
  }

  lemma StepOfWriteString(s: State, data: Bytes)
    requires Inv(s)
    ensures Inv(Step(s, WriteString(data)).value)
  {
    hide PipeInv, CloseInv, Datas, WithQueue;
    var t := s.(strings := s.strings + [data]);
    var change := Enqueue(s.queue, data);
    EnqueueKeepsOrder(s.queue, data);
    AppendAssociative(Datas(s.writes), Pending(s.queue), [data]);
    SubmitKeepsSerial(t, change.0, change.1);
    SubmitKeepsPipe(t, change.0, change.1);
  }

  /** The last request's reply has been handled; the queue does not know it yet. */
  lemma LastAnswered(s: State, i: nat)
    requires Inv(s) && i < |s.writes| && s.writes[i].phase == Answered
    ensures var t := SetPhase(s, i, Phase.Acknowledged);
      && NoneInFlight(t) && Datas(t.writes) == Datas(s.writes)
      && PipeInv(t.writes, t.lock, t.open, t.child) && CloseInv(t.writes, t.open, t.close)
  {
    hide Contributions;
    var t := SetPhase(s, i, Phase.Acknowledged);
    ContributionsOfUpdate(s.writes, i, t.writes[i]);
  }

  lemma StepOfAcknowledge(s: State, i: nat)
    requires Inv(s) && Step(s, Event.Acknowledged(i)).Some?
    ensures Inv(Step(s, Event.Acknowledged(i)).value)
  {
    hide PipeInv, CloseInv, Datas;
    var t := SetPhase(s, i, Phase.Acknowledged);
    var change := Acknowledge(s.queue);
    LastAnswered(s, i);
    AcknowledgeKeepsOrder(s.queue);
    SubmitKeepsSerial(t, change.0, change.1);
    SubmitKeepsPipe(t, change.0, change.1);
  }

  /** What one task does to its request: the reply is not handled yet, and no bytes go into the pipe. */
  predicate IsTaskEvent(e: Event) {
    e.Lock? || e.Finish? || e.Fail? || e.DropOversized?
  }

  lemma TaskKeepsSerial(s: State, e: Event)
    requires SerialInv(s.queue, s.strings, s.writes) && PipeInv(s.writes, s.lock, s.open, s.child)
    requires IsTaskEvent(e) && Step(s, e).Some?
    ensures var t := Step(s, e).value; SerialInv(t.queue, t.strings, t.writes)
  {
    hide Contributions, NothingBehindIncomplete;
    assert Datas(Step(s, e).value.writes) == Datas(s.writes);
  }

  lemma TaskKeepsPipe(s: State, e: Event)
    requires SerialInv(s.queue, s.strings, s.writes) && PipeInv(s.writes, s.lock, s.open, s.child)
    requires IsTaskEvent(e) && Step(s, e).Some?
    ensures var t := Step(s, e).value; PipeInv(t.writes, t.lock, t.open, t.child)
  {
    hide Contributions, Datas;
    var t := Step(s, e).value;
    var i := if e.Finish? then s.lock.value else e.index;
    ContributionsOfUpdate(s.writes, i, t.writes[i]);
  }

  lemma TaskKeepsClose(s: State, e: Event)
    requires PipeInv(s.writes, s.lock, s.open, s.child) && CloseInv(s.writes, s.open, s.close)
    requires IsTaskEvent(e) && Step(s, e).Some?
    ensures var t := Step(s, e).value; CloseInv(t.writes, t.open, t.close)
  {
    hide Contributions, NothingBehindIncomplete;
  }

  lemma StepOfTask(s: State, e: Event)
    requires Inv(s) && IsTaskEvent(e) && Step(s, e).Some?
    ensures Inv(Step(s, e).value)
  {
    hide SerialInv, PipeInv, CloseInv, Step;
    TaskKeepsSerial(s, e);
    TaskKeepsPipe(s, e);
    TaskKeepsClose(s, e);
  }

  lemma StepOfPipe(s: State, count: nat)
    requires Inv(s) && Step(s, Pipe(count)).Some?
    ensures Inv(Step(s, Pipe(count)).value)
  {
    hide Contributions;
    var t := Step(s, Pipe(count)).value;
    assert s.lock.value == |s.writes| - 1;
    ContributionsOfPipe(s.writes, count);
    assert Datas(t.writes) == Datas(s.writes);
  }

  lemma StepOfClose(s: State, e: Event)
    requires Inv(s) && (e.BeginClose? || e.CloseAtDeadline? || e.ForgetQueue?)
    requires (e.ForgetQueue? ==> NoneInFlight(s)) && Step(s, e).Some?
    ensures Inv(Step(s, e).value)
  {
    hide PipeInv, Datas;
  }

  lemma StepOfIdleClose(s: State)
    requires Inv(s) && Step(s, CloseWhenIdle).Some?
    ensures Inv(Step(s, CloseWhenIdle).value)
  {
    hide Contributions, NothingBehindIncomplete;
    assert s.strings == Datas(s.writes);
    assert forall i :: 0 <= i < |s.writes| ==> !InFlight(s.writes[i]);
  }

  lemma StepOfTakeHandle(s: State)
    requires Inv(s) && Step(s, TakeHandle).Some?
    ensures Inv(Step(s, TakeHandle).value)
  {
    hide Contributions, NothingBehindIncomplete, SerialInv;
  }

  lemma StepKeepsInv(s: State, e: Event)
    requires Inv(s) && (e.ForgetQueue? ==> NoneInFlight(s)) && Step(s, e).Some?
    ensures Inv(Step(s, e).value)
  {
    hide Inv, Step;
    match e
    case WriteString(data) => StepOfWriteString(s, data);
    case Acknowledged(i) => StepOfAcknowledge(s, i);
    case Lock(_) => StepOfTask(s, e);
    case Finish => StepOfTask(s, e);
    case Fail(_) => StepOfTask(s, e);
    case DropOversized(_, _) => StepOfTask(s, e);
    case CloseWhenIdle => StepOfIdleClose(s);
    case TakeHandle => StepOfTakeHandle(s);
    case Pipe(count) => StepOfPipe(s, count);
    case _ => StepOfClose(s, e);
  }

  lemma {:induction false} RunKeepsInv(s: State, events: seq<Event>)
    requires Inv(s) && Orderly(s, events)
    ensures Exec(s, events).Some? && Inv(Exec(s, events).value)
    decreases |events|
  {
    hide Inv, Step;
    if events != [] {
      StepKeepsInv(s, events[0]);
      RunKeepsInv(Step(s, events[0]).value, events[1..]);
    }
  }

  lemma ReachableInv(s: State)
    requires OrderlyReachable(s)
    ensures Inv(s)
  {
    var events :| Orderly(INITIAL, events) && Exec(INITIAL, events) == Some(s);
    RunKeepsInv(INITIAL, events);
  }

  // ---------------------------------------------------------------- order of the child's input

  predicate NoFailure(s: State) {
    forall i :: 0 <= i < |s.writes| ==> !s.writes[i].failed
  }

  /** How many requests at the front have reached the child whole. */
  function WholeCount(writes: seq<Write>): (k: nat)
    ensures k <= |writes|
    ensures forall i :: 0 <= i < k ==> Complete(writes[i])
    ensures k < |writes| ==> !Complete(writes[k])
  {
    if writes == [] then 0
    else
      var last := |writes| - 1;
      var k := WholeCount(writes[..last]);
      if k == last && Complete(writes[last]) then k + 1 else k
  }

  lemma DatasSnoc(writes: seq<Write>)
    requires writes != []
    ensures Datas(writes) == Datas(writes[..|writes| - 1]) + [writes[|writes| - 1].data]
  {
  }

  /** The last request follows whole ones. */
  lemma {:induction false} LastInOrder(writes: seq<Write>)
    requires writes != [] && writes[|writes| - 1].done <= |writes[|writes| - 1].data|
    requires Contributions(writes[..|writes| - 1]) == Flatten(Datas(writes[..|writes| - 1]))
    ensures var last := |writes| - 1;
      Contributions(writes) ==
        if Complete(writes[last]) then Flatten(Datas(writes))
        else Flatten(Datas(writes)[..last]) + writes[last].data[..writes[last].done]
  {
    hide Flatten, Datas;
    var front, w := writes[..|writes| - 1], writes[|writes| - 1];
    DatasSnoc(writes);
    DatasOf(front);
    assert Datas(writes)[..|front|] == Datas(front);
    if Complete(w) {
      assert w.data[..w.done] == w.data;
      FlattenSnoc(Datas(front), w.data);
    }
  }

  /** If nothing follows the first incomplete request, the pipe holds whole strings and a part of the next. */
  lemma {:induction false} ContributionsInOrder(writes: seq<Write>)
    requires forall i :: 0 <= i < |writes| ==> writes[i].done <= |writes[i].data|
    requires forall i, j :: 0 <= i < j < |writes| && !Complete(writes[i]) ==> writes[j].done == 0
    ensures var k := WholeCount(writes);
      Contributions(writes) ==
        Flatten(Datas(writes)[..k]) + if k < |writes| then writes[k].data[..writes[k].done] else []
  {
    hide Datas;
    DatasOf(writes);
    if writes != [] {
      hide Flatten;
      var last := |writes| - 1;
      var front, w := writes[..last], writes[last];
      var k := WholeCount(front);
      ContributionsInOrder(front);
      DatasSnoc(writes);
      DatasOf(front);
      if k == last {
        assert Datas(front)[..last] == Datas(front);
        LastInOrder(writes);
        assert Datas(writes)[..last + 1] == Datas(writes);
      } else {
        assert Datas(writes)[..k] == Datas(front)[..k];
        assert !Complete(writes[k]);
        assert w.data[..w.done] == [];
        assert Contributions(writes) == Contributions(front) + [];
      }
    }
  }

  lemma DatasOf(writes: seq<Write>)
    ensures |Datas(writes)| == |writes| && forall i :: 0 <= i < |writes| ==> Datas(writes)[i] == writes[i].data
  {
  }

  /** The bytes are the first k strings, whole and in order, and then m bytes of the next one. */
  predicate SplitsAt(strings: seq<Bytes>, bytes: Bytes, k: nat, m: nat) {
    k <= |strings| &&
    if k < |strings| then m <= |strings[k]| && bytes == Flatten(strings[..k]) + strings[k][..m]
    else m == 0 && bytes == Flatten(strings)
  }

  /**
   The child's input is an initial segment of the strings, whole and in order, possibly followed by
   a part of the next one; and at most one write is ever in flight.
   */
  lemma ChildReadsStringsInOrder(s: State)
    requires OrderlyReachable(s)
    ensures AtMostOneInFlight(s)
    ensures NoFailure(s) ==>
      exists k, m :: SplitsAt(s.strings, s.child, k, m)
  {
    hide Flatten, Contributions, Datas;
    ReachableInv(s);
    if NoFailure(s) {
      DatasOf(s.writes);
      ContributionsInOrder(s.writes);
      var k := WholeCount(s.writes);
      var m := if k < |s.writes| then s.writes[k].done else 0;
      assert s.strings[..k] == Datas(s.writes)[..k];
      assert k == |s.strings| ==> s.strings[..k] == s.strings;
      assert k < |s.writes| ==> s.strings[k] == s.writes[k].data;
      assert SplitsAt(s.strings, s.child, k, m);
    }
  }

  // ---------------------------------------------------------------- closing

  lemma {:induction false} ContributionsOfComplete(writes: seq<Write>, n: nat)
    requires n <= |writes| && forall i :: 0 <= i < n ==> Complete(writes[i])
    ensures Flatten(Datas(writes)[..n]) <= Contributions(writes)
  {
    if writes == [] {
    } else {
      var last := |writes| - 1;
      if n <= last {
        ContributionsOfComplete(writes[..last], n);
        assert Datas(writes)[..n] == Datas(writes[..last])[..n];
      } else {
        ContributionsOfComplete(writes[..last], last);
        assert Datas(writes[..last])[..last] == Datas(writes[..last]);
        AllComplete(writes);
      }
    }
  }

  lemma {:induction false} AllComplete(writes: seq<Write>)
    requires forall i :: 0 <= i < |writes| ==> Complete(writes[i])
    ensures Contributions(writes) == Flatten(Datas(writes))
    ensures Datas(writes)[..|writes|] == Datas(writes)
  {
    if writes != [] {
      var last := |writes| - 1;
      AllComplete(writes[..last]);
      assert writes[last].data[..writes[last].done] == writes[last].data;
      assert Datas(writes) == Datas(writes[..last]) + [writes[last].data];
      FlattenSnoc(Datas(writes[..last]), writes[last].data);
    }
  }

  /**
   If the drain found the queue idle, everything written before is in the child's input already
   when close_stdin is sent, unless the server reported a failure for it.
   */
  lemma DrainedCloseIsLossless(s: State)
    requires OrderlyReachable(s) && s.close.Asked? && s.close.drained && NoFailure(s)
    ensures s.close.before <= |s.strings| && Flatten(s.strings[..s.close.before]) <= s.child
  {
    ReachableInv(s);
    ContributionsOfComplete(s.writes, s.close.before);
    assert s.strings[..s.close.before] == Datas(s.writes)[..s.close.before];
  }

  /**
   The drain ends by itself exactly when every string has been sent and every reply handled; then the
   child's input is complete, and all strings count as written before the closing.
   */
  lemma IdleCloseIsComplete(s: State)
    requires OrderlyReachable(s)
    ensures Step(s, CloseWhenIdle).Some? <==>
      && s.close.Draining? && |s.writes| == |s.strings|
      && forall i :: 0 <= i < |s.writes| ==> s.writes[i].phase == Phase.Acknowledged
    ensures NoFailure(s) && Step(s, CloseWhenIdle).Some? ==>
      s.child == Flatten(s.strings) && Step(s, CloseWhenIdle).value == s.(close := Asked(|s.strings|, true))
  {
    ReachableInv(s);
    DatasOf(s.writes);
    if Step(s, CloseWhenIdle).Some? {
      assert s.strings == Datas(s.writes);
      if NoFailure(s) {
        StepKeepsInv(s, CloseWhenIdle);
        AllComplete(s.writes);
      }
    } else if s.close.Draining? {
      assert s.queue.value.writing ==> InFlight(s.writes[|s.writes| - 1]);
    }
  }

  /** Nothing of the request has been written. */
  predicate Unbegun(w: Write) {
    w.phase == Submitted || w.phase == Dropped
  }

  /** The strings of which the server has not begun to write anything. */
  function Unstarted(s: State): seq<Bytes> {
    (if s.writes != [] && Unbegun(s.writes[|s.writes| - 1]) then [s.writes[|s.writes| - 1].data] else [])
    + Pending(s.queue)
  }

  predicate Faultless(events: seq<Event>) {
    forall i :: 0 <= i < |events| ==> !events[i].Fail? && !events[i].ForgetQueue?
  }

  /** However the server schedules the tasks: once the handle is gone, the first n strings are in the pipe. */
  ghost predicate ClosesWithoutLoss(s: State, n: nat) {
    forall events ::
      && Faultless(events) && Exec(s, events).Some?
      && !Exec(s, events).value.open && n <= |Exec(s, events).value.strings| ==>
        Flatten(Exec(s, events).value.strings[..n]) <= Exec(s, events).value.child
  }

  /** The first n strings are empty, in the pipe, or being written under the lock. */
  predicate Underway(s: State, n: nat) {
    && n <= |s.strings|
    && (forall i :: 0 <= i < n ==>
          s.strings[i] == [] || (i < |s.writes| && (s.writes[i].phase == Holding || Complete(s.writes[i]))))
  }

  /** Requests carry the strings in order, and the lock is where a request says it is. */
  predicate Aligned(s: State) {
    forall i :: 0 <= i < |s.writes| ==>
      i < |s.strings| && s.strings[i] == s.writes[i].data && (s.writes[i].phase == Holding ==> s.lock == Some(i))
  }

  lemma InvAligned(s: State)
    requires Inv(s)
    ensures Aligned(s)
  {
    hide Contributions;
    DatasOf(s.writes);
  }

  /** No event but a failure takes a string back that is under way. */
  lemma EventKeepsUnderway(s: State, n: nat, e: Event)
    requires Aligned(s) && NoFailure(s) && Underway(s, n) && Step(s, e).Some? && !e.Fail? && !e.ForgetQueue?
    ensures NoFailure(Step(s, e).value) && Underway(Step(s, e).value, n)
    ensures Step(s, e).value.strings[..n] == s.strings[..n]
  {
    hide Enqueue, Acknowledge, WithQueue;
    if e.WriteString? {
      var t := s.(strings := s.strings + [e.data]);
      assert t.strings[..n] == s.strings[..n];
      NewRequestsKeepUnderway(t, n, Enqueue(s.queue, e.data));
    } else if e.Acknowledged? {
      NewRequestsKeepUnderway(SetPhase(s, e.index, Phase.Acknowledged), n, Acknowledge(s.queue));
    }
  }

  lemma NewRequestsKeepUnderway(s: State, n: nat, change: (Option<Queue>, seq<Bytes>))
    requires NoFailure(s) && Underway(s, n)
    ensures NoFailure(WithQueue(s, change)) && Underway(WithQueue(s, change), n)
    ensures WithQueue(s, change).strings == s.strings
  {
  }

  lemma StepKeepsUnderway(s: State, n: nat, e: Event)
    requires Inv(s) && NoFailure(s) && Underway(s, n) && Step(s, e).Some? && !e.Fail? && !e.ForgetQueue?
    ensures Inv(Step(s, e).value) && NoFailure(Step(s, e).value) && Underway(Step(s, e).value, n)
    ensures Step(s, e).value.strings[..n] == s.strings[..n]
  {
    hide Inv, Step, NoFailure, Underway;
    StepKeepsInv(s, e);
    InvAligned(s);
    EventKeepsUnderway(s, n, e);
  }

  lemma {:induction false} RunKeepsUnderway(s: State, n: nat, events: seq<Event>)
    requires Inv(s) && NoFailure(s) && Underway(s, n) && Faultless(events) && Exec(s, events).Some?
    ensures var t := Exec(s, events).value;
      Inv(t) && NoFailure(t) && Underway(t, n) && t.strings[..n] == s.strings[..n]
    decreases |events|
  {
    hide Inv, Step, NoFailure, Underway;
    if events != [] {
      StepKeepsUnderway(s, n, events[0]);
      RunKeepsUnderway(Step(s, events[0]).value, n, events[1..]);
    }
  }

  lemma UnderwayEndsInPipe(s: State, n: nat)
    requires Inv(s) && NoFailure(s) && Underway(s, n) && !s.open
    ensures Flatten(s.strings[..n]) <= s.child
  {
    var m := if n < |s.writes| then n else |s.writes|;
    forall i | 0 <= i < m ensures Complete(s.writes[i]) {
      assert s.strings[i] == s.writes[i].data;
    }
    ContributionsOfComplete(s.writes, m);
    assert s.strings[..m] == Datas(s.writes)[..m];
    EmptyTail(s.strings[..n], m);
    assert s.strings[..n][..m] == s.strings[..m];
  }

  lemma {:induction false} EmptyTail(strings: seq<Bytes>, m: nat)
    requires m <= |strings| && forall i :: m <= i < |strings| ==> strings[i] == []
    ensures Flatten(strings) == Flatten(strings[..m])
  {
    if m == |strings| {
      assert strings[..m] == strings;
    } else {
      var last := |strings| - 1;
      EmptyTail(strings[..last], m);
      assert strings[..last][..m] == strings[..m];
      FlattenSnoc(strings[..last], strings[last]);
      assert strings == strings[..last] + [strings[last]];
    }
  }

  /** The schedule that closes as early as the lock allows. */
  function CloseAtOnce(s: State): seq<Event> {
    if s.lock.Some? && s.lock.value < |s.writes| && s.writes[s.lock.value].done <= |s.writes[s.lock.value].data| then
      var w := s.writes[s.lock.value];
      [Pipe(|w.data| - w.done), Finish, TakeHandle]
    else [TakeHandle]
  }

  lemma EmptyRun(s: State)
    ensures Exec(s, []) == Some(s) && Orderly(s, [])
  {
  }

  lemma ExecCons(s: State, e: Event, events: seq<Event>)
    requires Step(s, e).Some?
    ensures Exec(s, [e] + events) == Exec(Step(s, e).value, events)
    ensures !e.ForgetQueue? ==> (Orderly(s, [e] + events) <==> Orderly(Step(s, e).value, events))
  {
    assert ([e] + events)[1..] == events;
  }

  lemma CloseAtOnceRuns(s: State)
    requires Inv(s) && NoFailure(s) && s.open && s.close.Asked?
    ensures Faultless(CloseAtOnce(s)) && Exec(s, CloseAtOnce(s)).Some?
    ensures var t := Exec(s, CloseAtOnce(s)).value;
      && !t.open && t.strings == s.strings && t.queue == s.queue && |t.writes| == |s.writes|
      && (forall i :: 0 <= i < |s.writes| ==>
            && t.writes[i].data == s.writes[i].data
            && (Unbegun(s.writes[i]) ==> t.writes[i] == s.writes[i])
            && (!Unbegun(s.writes[i]) ==> Complete(t.writes[i])))
  {
    hide Contributions, Orderly, Exec, Datas;
    if s.lock.Some? {
      var w := s.writes[s.lock.value];
      var rest := Pipe(|w.data| - w.done);
      var t := Step(s, rest).value;
      var u := Step(t, Finish).value;
      var v := Step(u, TakeHandle).value;
      ExecCons(s, rest, [Finish, TakeHandle]);
      ExecCons(t, Finish, [TakeHandle]);
      ExecCons(u, TakeHandle, []);
      EmptyRun(v);
      assert [rest] + [Finish, TakeHandle] == CloseAtOnce(s);
      assert [Finish] + [TakeHandle] == [Finish, TakeHandle] && [TakeHandle] + [] == [TakeHandle];
    } else {
      ExecCons(s, TakeHandle, []);
      EmptyRun(Step(s, TakeHandle).value);
      assert [TakeHandle] + [] == CloseAtOnce(s);
    }
  }

  lemma {:induction false} CompleteButLast(writes: seq<Write>)
    requires writes != [] && writes[|writes| - 1].done == 0
    requires forall i :: 0 <= i < |writes| - 1 ==> Complete(writes[i])
    ensures Flatten(Datas(writes)) == Contributions(writes) + writes[|writes| - 1].data
  {
    hide Flatten, Datas;
    var front, w := writes[..|writes| - 1], writes[|writes| - 1];
    AllComplete(front);
    DatasSnoc(writes);
    FlattenSnoc(Datas(front), w.data);
    assert w.data[..0] == [];
    assert Contributions(writes) == Contributions(front) + [];
  }

  lemma EarlyCloseLosesUnstarted(s: State)
    requires Inv(s) && NoFailure(s) && s.open && s.close.Asked?
    ensures var r := Exec(s, CloseAtOnce(s));
      && r.Some? && !r.value.open && r.value.strings == s.strings
      && |r.value.child| + |Flatten(Unstarted(s))| == |Flatten(s.strings)|
  {
    hide Contributions, Flatten, Exec, CloseAtOnce, Datas, NoFailure;
    var events := CloseAtOnce(s);
    CloseAtOnceRuns(s);
    var t := Exec(s, events).value;
    RunKeepsInvFaultless(s, events);
    var last := |s.writes| - 1;
    FlattenAppend(Datas(t.writes), Pending(t.queue));
    if s.writes != [] && Unbegun(s.writes[last]) {
      var data := t.writes[last].data;
      CompleteButLast(t.writes);
      FlattenAppend([data], Pending(t.queue));
      FlattenOne(data);
    } else {
      AllComplete(t.writes);
      assert Unstarted(s) == [] + Pending(s.queue) == Pending(s.queue);
    }
  }

  lemma FlattenOne(data: Bytes)
    ensures Flatten([data]) == data
  {
    assert Flatten([data]) == data + Flatten([]);
  }

  lemma RunKeepsInvFaultless(s: State, events: seq<Event>)
    requires Inv(s) && NoFailure(s) && Faultless(events) && Exec(s, events).Some?
    ensures Inv(Exec(s, events).value) && NoFailure(Exec(s, events).value)
  {
    RunKeepsUnderway(s, 0, events);
  }

  lemma {:induction false} AllEmpty(strings: seq<Bytes>)
    requires Flatten(strings) == []
    ensures forall i :: 0 <= i < |strings| ==> strings[i] == []
  {
    if strings != [] {
      AllEmpty(strings[1..]);
    }
  }

  /**
   Sending close_stdin is safe under every schedule exactly when the server has begun to write all
   the non-empty strings.  An idle queue guarantees that; giving up at the deadline does not.
   */
  lemma CloseIsLosslessIffAllStarted(s: State)
    requires OrderlyReachable(s) && s.close.Draining? && NoFailure(s)
    ensures ClosesWithoutLoss(Step(s, CloseAtDeadline).value, |s.strings|) <==> Flatten(Unstarted(s)) == []
    ensures Idle(s.queue) ==> Unstarted(s) == []
  {
    ReachableInv(s);
    var t := Step(s, CloseAtDeadline).value;
    var n := |s.strings|;
    StepKeepsInv(s, CloseAtDeadline);
    if Flatten(Unstarted(s)) == [] {
      StartedIsUnderway(t);
      forall events | Faultless(events) && Exec(t, events).Some? && !Exec(t, events).value.open
          && n <= |Exec(t, events).value.strings|
        ensures Flatten(Exec(t, events).value.strings[..n]) <= Exec(t, events).value.child
      {
        RunKeepsUnderway(t, n, events);
        UnderwayEndsInPipe(Exec(t, events).value, n);
      }
    } else {
      var events := CloseAtOnce(t);
      CloseAtOnceRuns(t);
      EarlyCloseLosesUnstarted(t);
      assert t.strings[..n] == t.strings;
      assert |Exec(t, events).value.child| < |Flatten(t.strings)|;
    }
  }

  lemma StartedIsUnderway(s: State)
    requires Inv(s) && NoFailure(s) && s.open && Flatten(Unstarted(s)) == []
    ensures Underway(s, |s.strings|)
  {
    AllEmpty(Unstarted(s));
    var submitted := s.writes != [] && Unbegun(s.writes[|s.writes| - 1]);
    forall i | 0 <= i < |s.strings|
      ensures s.strings[i] == [] || (i < |s.writes| && (s.writes[i].phase == Holding || Complete(s.writes[i])))
    {
      if i < |s.writes| {
        assert s.strings[i] == s.writes[i].data;
        assert submitted && i == |s.writes| - 1 ==> Unstarted(s)[0] == s.strings[i];
      } else {
        var k := i - |s.writes|;
        assert s.strings[i] == Pending(s.queue)[k] == Unstarted(s)[if submitted then k + 1 else k];
      }
    }
  }

  lemma {:induction false} RunSnoc(s: State, events: seq<Event>, e: Event)
    requires Orderly(s, events) && Exec(s, events).Some?
    requires Step(Exec(s, events).value, e).Some? && !e.ForgetQueue?
    ensures Orderly(s, events + [e]) && Exec(s, events + [e]) == Step(Exec(s, events).value, e)
    decreases |events|
  {
    hide Step;
    if events == [] {
      assert events + [e] == [e] && [e][1..] == [];
    } else {
      assert (events + [e])[1..] == events[1..] + [e];
      RunSnoc(Step(s, events[0]).value, events[1..], e);
    }
  }

  lemma ReachNext(s: State, e: Event) returns (t: State)
    requires OrderlyReachable(s) && Step(s, e).Some? && !e.ForgetQueue?
    ensures t == Step(s, e).value && OrderlyReachable(t)
  {
    t := Step(s, e).value;
    var events :| Orderly(INITIAL, events) && Exec(INITIAL, events) == Some(s);
    RunSnoc(INITIAL, events, e);
  }

  lemma InitialIsReachable()
    ensures OrderlyReachable(INITIAL)
  {
    EmptyRun(INITIAL);
  }

  /** A run in which closing at the deadline overtakes a write, which still reports success. */
  lemma DeadlineLosesWrite(data: Bytes) returns (s: State)
    requires |data| <= 100 * 1024 * 1024
    ensures OrderlyReachable(s) && s.strings == [data] && s.child == [] && !s.open
    ensures |s.writes| == 1 && !InFlight(s.writes[0]) && !s.writes[0].failed
  {
    hide OrderlyReachable, Exec;
    s := INITIAL;
    InitialIsReachable();
    s := ReachNext(s, WriteString(data));
    assert s.writes == [Write(data, 0, Submitted, false)];
    s := ReachNext(s, BeginClose);
    s := ReachNext(s, CloseAtDeadline);
    s := ReachNext(s, TakeHandle);
    s := ReachNext(s, Lock(0));
    s := ReachNext(s, Event.Acknowledged(0));
  }

  // ---------------------------------------------------------------- exit handling

  ghost predicate StaysSerial(s: State) {
    forall events :: Orderly(s, events) && Exec(s, events).Some? ==> AtMostOneInFlight(Exec(s, events).value)
  }

  /** Dropping the queue on exit keeps writes serial exactly when no write is in flight at that moment. */
  lemma ForgettingIsSafeIffNoneInFlight(s: State)
    requires OrderlyReachable(s)
    ensures StaysSerial(Step(s, ForgetQueue).value) <==> NoneInFlight(s)
  {
    ReachableInv(s);
    var t := Step(s, ForgetQueue).value;
    if NoneInFlight(s) {
      StepKeepsInv(s, ForgetQueue);
      forall events | Orderly(t, events)
        ensures Exec(t, events).Some? && AtMostOneInFlight(Exec(t, events).value)
      {
        RunKeepsInv(t, events);
      }
    } else {
      var e := WriteString([]);
      var u := Step(t, e).value;
      ExecCons(t, e, []);
      EmptyRun(u);
      assert Exec(t, [e] + []) == Some(u) && Orderly(t, [e] + []);
      var last := |s.writes| - 1;
      assert InFlight(u.writes[last]) && InFlight(u.writes[last + 1]);
    }
  }

  // ---------------------------------------------------------------- requests that are too large

  /** The server has skipped the request, or is bound to. */
  predicate Blocked(w: Write) {
    w.phase == Dropped || TooLarge(w)
  }

  predicate NoneBlocked(s: State) {
    forall i :: 0 <= i < |s.writes| ==> !Blocked(s.writes[i])
  }

  predicate LastBlocked(s: State) {
    s.writes != [] && Blocked(s.writes[|s.writes| - 1])
  }

  lemma StepKeepsBlocked(s: State, e: Event)
    requires Inv(s) && LastBlocked(s) && Step(s, e).Some? && !e.ForgetQueue?
    ensures var t := Step(s, e).value;
      LastBlocked(t) && |t.writes| == |s.writes| && t.child == s.child && s.strings <= t.strings
  {
    hide Contributions, NothingBehindIncomplete, Datas;
    LastIsInFlight(s);
    assert InFlight(s.writes[|s.writes| - 1]) && s.queue.Some? && s.queue.value.writing;
    if e.WriteString? {
      RequestsOfOne([]);
      assert s.writes + [] == s.writes;
    }
  }

  lemma {:induction false} RunKeepsBlocked(s: State, events: seq<Event>)
    requires Inv(s) && LastBlocked(s) && Orderly(s, events)
    ensures Exec(s, events).Some?
    ensures var t := Exec(s, events).value;
      Inv(t) && LastBlocked(t) && |t.writes| == |s.writes| && t.child == s.child && s.strings <= t.strings
    decreases |events|
  {
    hide Inv, Step, LastBlocked;
    if events != [] {
      LastIsInFlight(s);
      StepKeepsInv(s, events[0]);
      StepKeepsBlocked(s, events[0]);
      RunKeepsBlocked(Step(s, events[0]).value, events[1..]);
    }
  }

  lemma LastIsInFlight(s: State)
    requires Inv(s) && LastBlocked(s)
    ensures !NoneInFlight(s) && InFlight(s.writes[|s.writes| - 1])
  {
    hide Contributions, NothingBehindIncomplete;
    assert InFlight(s.writes[|s.writes| - 1]);
  }

  /**
   Once a request has been sent that the server skips because it is too large, the queue waits for its
   reply for ever: in no further run is any later string sent or does the child get another byte, and no drain finds
   the queue idle.
   */
  lemma DroppedBlocksQueue(s: State, i: nat, events: seq<Event>)
    requires OrderlyReachable(s) && i < |s.writes| && Blocked(s.writes[i]) && Orderly(s, events)
    ensures Exec(s, events).Some?
    ensures var t := Exec(s, events).value;
      && |t.writes| == |s.writes| && t.child == s.child && !Idle(t.queue)
      && s.strings <= t.strings && |s.writes| <= |t.strings| && Pending(t.queue) == t.strings[|s.writes|..]
  {
    ReachableInv(s);
    assert InFlight(s.writes[i]);
    RunKeepsBlocked(s, events);
    BlockedQueue(Exec(s, events).value);
  }

  lemma BlockedQueue(s: State)
    requires Inv(s) && LastBlocked(s)
    ensures !Idle(s.queue) && |s.writes| <= |s.strings| && Pending(s.queue) == s.strings[|s.writes|..]
  {
    LastIsInFlight(s);
    hide PipeInv;
    assert s.strings[|Datas(s.writes)|..] == Pending(s.queue);
  }

  /** A next step on the way to another request, and how long that way is. */
  function NextTowardsSend(s: State): (Event, nat) {
    if s.writes == [] || !InFlight(s.writes[|s.writes| - 1]) then (WriteString([]), 0)
    else
      var last := |s.writes| - 1;
      var w := s.writes[last];
      if w.phase == Submitted then (Lock(last), 5)
      else if w.phase == Holding then (if w.done < |w.data| then (Pipe(|w.data| - w.done), 4) else (Finish, 3))
      else if Pending(s.queue) == [] then (WriteString([]), 2)
      else (Event.Acknowledged(last), 1)
  }

  lemma StepTowardsSend(s: State)
    requires Inv(s) && NoneBlocked(s)
    ensures var e := NextTowardsSend(s).0;
      && !e.ForgetQueue? && Step(s, e).Some?
      && var t := Step(s, e).value;
         && |t.writes| >= |s.writes|
         && (|t.writes| == |s.writes| ==> NoneBlocked(t) && NextTowardsSend(t).1 < NextTowardsSend(s).1)
  {
    hide Contributions, NothingBehindIncomplete, Datas;
  }

  lemma {:induction false} SendIsReachable(s: State) returns (events: seq<Event>)
    requires Inv(s) && NoneBlocked(s)
    ensures Orderly(s, events) && Exec(s, events).Some? && |Exec(s, events).value.writes| > |s.writes|
    decreases NextTowardsSend(s).1
  {
    hide Step, Inv, NextTowardsSend, NoneBlocked;
    var e := NextTowardsSend(s).0;
    StepTowardsSend(s);
    StepKeepsInv(s, e);
    var t := Step(s, e).value;
    var rest := [];
    if |t.writes| == |s.writes| {
      rest := SendIsReachable(t);
    } else {
      EmptyRun(t);
    }
    events := [e] + rest;
    assert events[1..] == rest;
  }

  /** Further strings of the process can still be sent exactly if no request was too large for the server. */
  lemma QueueMovesOnIff(s: State)
    requires OrderlyReachable(s)
    ensures NoneBlocked(s) <==>
      exists events :: Orderly(s, events) && Exec(s, events).Some? && |Exec(s, events).value.writes| > |s.writes|
  {
    ReachableInv(s);
    if NoneBlocked(s) {
      var events := SendIsReachable(s);
    } else {
      var i :| 0 <= i < |s.writes| && Blocked(s.writes[i]);
      forall events | Orderly(s, events) && Exec(s, events).Some?
        ensures |Exec(s, events).value.writes| == |s.writes|
      {
        DroppedBlocksQueue(s, i, events);
      }
    }
  }

  /** A string above 100 MiB has such a request, and the server skips it; it never skips a smaller payload. */
  lemma LargeWriteIsDropped(data: Bytes) returns (s: State)
    requires |data| > 100 * 1024 * 1024
    ensures OrderlyReachable(s) && s.strings == [data] && |s.writes| == 1 && s.writes[0].phase == Dropped
    ensures forall t: State, i, size :: 0 <= size <= 100 * 1024 * 1024 ==> Step(t, DropOversized(i, size)).None?
  {
    hide OrderlyReachable, Exec;
    InitialIsReachable();
    s := ReachNext(INITIAL, WriteString(data));
    assert s.writes == [Write(data, 0, Submitted, false)];
    s := ReachNext(s, DropOversized(0, |data|));
  }
}
