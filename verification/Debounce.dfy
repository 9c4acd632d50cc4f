/**
 The server's watcher as a timed step system: file system events go through a bounded channel to the
 debounce task, which collects them over fixed windows and sends one notification per window.
 */
module Debounce {
  import opened Prelude

  type Path = string

  const WINDOW := 200       // milliseconds
  const CAPACITY := 10_000  // events in the channel

  datatype Kind = Create | Modify | Remove | Access | Other

  datatype FsEvent = FsEvent(kind: Kind, paths: seq<Path>)

  /** What the debounce task is doing. */
  datatype Task =
    | Waiting
    | Collecting(paths: set<Path>, deadline: nat)
    | Sending(paths: set<Path>)
    | Stopped

  /** History of a window: when it began, the events it collected, and what was sent for it. */
  datatype Window = Window(start: nat, events: seq<FsEvent>, sent: Option<set<Path>>)

  datatype State = State(
    now: nat,
    channel: seq<FsEvent>,
    closed: bool,           // the watcher, which holds the sender, is gone
    task: Task,             // once it has stopped, the receiver is gone
    accepted: seq<FsEvent>, // history of all events that got into the channel
    dropped: nat,           // history: how many mutations were dropped
    lost: seq<FsEvent>,     // history: accepted events that were still queued when the task stopped
    windows: seq<Window>)   // history, the current window last

  datatype Event =
    | Tick(elapsed: nat)
    | Observe(event: FsEvent)
    | Receive
    | Expire
    | SendSucceeds
    | SendFails
    | CloseChannel
    | NoticeClosed

  const INITIAL := State(0, [], false, Waiting, [], 0, [], [])

  predicate IsMutation(e: FsEvent) {
    e.kind.Create? || e.kind.Modify? || e.kind.Remove?
  }

  function PathsOf(events: seq<FsEvent>): set<Path> {
    set i, j | 0 <= i < |events| && 0 <= j < |events[i].paths| :: events[i].paths[j]
  }

  function SetOf(paths: seq<Path>): set<Path> {
    set p | p in paths
  }

  /** The callback of the operating system's watcher: it never blocks, but drops what it cannot send. */
  function Offer(s: State, e: FsEvent): State {
    if !IsMutation(e) then s
    else if s.task.Stopped? || |s.channel| >= CAPACITY then s.(dropped := s.dropped + 1)
    else s.(channel := s.channel + [e], accepted := s.accepted + [e])
  }

  function LastWindow(s: State, w: Window): State
    requires s.windows != []
  {
    s.(windows := s.windows[|s.windows| - 1 := w])
  }

  function Step(s: State, e: Event): Option<State> {
    match e
    case Tick(elapsed) => Some(s.(now := s.now + elapsed))
    case Observe(event) => if s.closed then None else Some(Offer(s, event))
    case CloseChannel => Some(s.(closed := true))
    case Receive =>
      if s.channel == [] then None
      else
        var event := s.channel[0];
        var t := s.(channel := s.channel[1..]);
        (match s.task
         case Waiting =>
           Some(t.(task := Collecting(SetOf(event.paths), s.now + WINDOW),
                   windows := s.windows + [Window(s.now, [event], None)]))
         case Collecting(paths, deadline) =>
           if s.windows == [] then None
           else
             var w := s.windows[|s.windows| - 1];
             Some(LastWindow(t, w.(events := w.events + [event])).(
                    task := Collecting(paths + SetOf(event.paths), deadline)))
         case _ => None)
    case Expire =>
      if s.task.Collecting? && s.now >= s.task.deadline then
        Some(s.(task := if s.task.paths == {} then Waiting else Sending(s.task.paths)))
      else None
    case SendSucceeds =>
      if s.task.Sending? && s.windows != [] then
        var w := s.windows[|s.windows| - 1];
        Some(LastWindow(s, w.(sent := Some(s.task.paths))).(task := Waiting))
      else None
    case SendFails => // the receiver goes, and with it whatever is queued
      if s.task.Sending? then Some(s.(task := Stopped, channel := [], lost := s.channel)) else None
    case NoticeClosed =>
      if s.closed && s.channel == [] && (s.task.Waiting? || s.task.Collecting?) then Some(s.(task := Stopped))
      else None
  }

  function Exec(s: State, events: seq<Event>): Option<State>
    decreases |events|
  {
    if events == [] then Some(s)
    else match Step(s, events[0]) case None => None case Some(t) => Exec(t, events[1..])
  }

  ghost predicate Reachable(s: State) {
    exists events :: Exec(INITIAL, events) == Some(s)
  }

  function Collected(windows: seq<Window>): seq<FsEvent> {
    if windows == [] then [] else Collected(windows[..|windows| - 1]) + windows[|windows| - 1].events
  }

  /** A window that is over has been notified, unless its events named no path at all. */
  predicate Settled(w: Window) {
    if PathsOf(w.events) == {} then w.sent == None else w.sent == Some(PathsOf(w.events))
  }

  predicate WindowsInv(s: State) {
    && (forall i :: 0 <= i < |s.windows| - 1 ==> Settled(s.windows[i]))
    && (forall i :: 0 <= i < |s.windows| ==> s.windows[i].events != [] && s.windows[i].start <= s.now)
    && (forall i, j :: 0 <= i < j < |s.windows| ==> s.windows[i].start + WINDOW <= s.windows[j].start)
  }

  predicate TaskInv(s: State) {
    match s.task
    case Waiting =>
      s.windows != [] ==>
        Settled(s.windows[|s.windows| - 1]) && s.windows[|s.windows| - 1].start + WINDOW <= s.now
    case Collecting(paths, deadline) =>
      && s.windows != [] && s.windows[|s.windows| - 1].sent == None
      && paths == PathsOf(s.windows[|s.windows| - 1].events)
      && deadline == s.windows[|s.windows| - 1].start + WINDOW
    case Sending(paths) =>
      && s.windows != [] && s.windows[|s.windows| - 1].sent == None && paths != {}
      && paths == PathsOf(s.windows[|s.windows| - 1].events)
      && s.windows[|s.windows| - 1].start + WINDOW <= s.now
    case Stopped =>
      s.windows != [] ==> s.windows[|s.windows| - 1].sent == None || Settled(s.windows[|s.windows| - 1])
  }

  predicate Inv(s: State) {
    && WindowsInv(s) && TaskInv(s)
    && Collected(s.windows) + (if s.task.Stopped? then s.lost else s.channel) == s.accepted
    && (if s.task.Stopped? then s.channel == [] else s.lost == [])
    && |s.channel| <= CAPACITY
  }

  /** The paths of events are those that some event names. */
  lemma PathsAreNamed(events: seq<FsEvent>, p: Path)
    ensures p in PathsOf(events) <==> exists e :: e in events && p in e.paths
  {
    if e :| e in events && p in e.paths {
      var i :| 0 <= i < |events| && events[i] == e;
      var j :| 0 <= j < |e.paths| && e.paths[j] == p;
      assert events[i].paths[j] == p;
    }
  }

  lemma PathsOfMore(events: seq<FsEvent>, e: FsEvent)
    ensures PathsOf(events + [e]) == PathsOf(events) + SetOf(e.paths)
    ensures PathsOf([e]) == SetOf(e.paths)
  {
    var all := events + [e];
    forall p | p in PathsOf(events) + SetOf(e.paths) ensures p in PathsOf(all) {
      if p in PathsOf(events) {
        var i, j :| 0 <= i < |events| && 0 <= j < |events[i].paths| && events[i].paths[j] == p;
        assert all[i].paths[j] == p;
      } else {
        var j :| 0 <= j < |e.paths| && e.paths[j] == p;
        assert all[|events|].paths[j] == p;
      }
    }
    forall p | p in PathsOf(all) ensures p in PathsOf(events) + SetOf(e.paths) {
      var i, j :| 0 <= i < |all| && 0 <= j < |all[i].paths| && all[i].paths[j] == p;
      if i < |events| {
        assert events[i].paths[j] == p;
      }
    }
    forall p | p in SetOf(e.paths) ensures p in PathsOf([e]) {
      var j :| 0 <= j < |e.paths| && e.paths[j] == p;
      assert [e][0].paths[j] == p;
    }
  }

  lemma CollectedOfNew(windows: seq<Window>, w: Window)
    ensures Collected(windows + [w]) == Collected(windows) + w.events
  {
    assert (windows + [w])[..|windows|] == windows;
  }

  lemma CollectedOfLast(windows: seq<Window>, w: Window)
    requires windows != []
    ensures Collected(windows[|windows| - 1 := w]) == Collected(windows[..|windows| - 1]) + w.events
  {
    assert windows[|windows| - 1 := w][..|windows| - 1] == windows[..|windows| - 1];
  }

  lemma FirstOfWindow(s: State)
    requires Inv(s) && s.task.Waiting? && Step(s, Receive).Some?
    ensures Inv(Step(s, Receive).value)
  {
    hide PathsOf, SetOf, Collected;
    var event := s.channel[0];
    assert s.channel == [event] + s.channel[1..];
    PathsOfMore([], event);
    CollectedOfNew(s.windows, Window(s.now, [event], None));
    AppendAssociative(Collected(s.windows), [event], s.channel[1..]);
  }

  lemma NextOfWindow(s: State)
    requires Inv(s) && s.task.Collecting? && Step(s, Receive).Some?
    ensures Inv(Step(s, Receive).value)
  {
    hide PathsOf, SetOf, Collected;
    var event, w := s.channel[0], s.windows[|s.windows| - 1];
    assert s.channel == [event] + s.channel[1..];
    PathsOfMore(w.events, event);
    CollectedOfLast(s.windows, w);
    CollectedOfLast(s.windows, w.(events := w.events + [event]));
    assert s.windows[|s.windows| - 1 := w] == s.windows;
    AppendAssociative(Collected(s.windows[..|s.windows| - 1]), w.events, [event]);
    AppendAssociative(Collected(s.windows), [event], s.channel[1..]);
  }

  lemma StepOfSend(s: State)
    requires Inv(s) && Step(s, SendSucceeds).Some?
    ensures Inv(Step(s, SendSucceeds).value)
  {
    hide PathsOf, SetOf, Collected;
    var w := s.windows[|s.windows| - 1];
    CollectedOfLast(s.windows, w);
    CollectedOfLast(s.windows, w.(sent := Some(s.task.paths)));
    assert s.windows[|s.windows| - 1 := w] == s.windows;
  }

  lemma StepOfWatcher(s: State, e: Event)
    requires Inv(s) && (e.Tick? || e.Observe? || e.CloseChannel?) && Step(s, e).Some?
    ensures Inv(Step(s, e).value)
  {
    hide PathsOf, SetOf, Collected, LastWindow;
    if e.Observe? {
      AppendAssociative(Collected(s.windows), s.channel, [e.event]);
    }
  }

  lemma StepOfTask(s: State, e: Event)
    requires Inv(s) && (e.Expire? || e.SendFails? || e.NoticeClosed?) && Step(s, e).Some?
    ensures Inv(Step(s, e).value)
  {
    hide PathsOf, SetOf, Collected, LastWindow, Offer;
  }

  lemma StepKeepsInv(s: State, e: Event)
    requires Inv(s) && Step(s, e).Some?
    ensures Inv(Step(s, e).value)
  {
    if e.Receive? {
      hide Inv;
      if s.task.Waiting? {
        FirstOfWindow(s);
      } else {
        NextOfWindow(s);
      }
      return;
    }
    hide Inv, Step;
    match e
    case SendSucceeds => StepOfSend(s);
    case Tick(_) => StepOfWatcher(s, e);
    case Observe(_) => StepOfWatcher(s, e);
    case CloseChannel => StepOfWatcher(s, e);
    case _ => StepOfTask(s, e);
  }

  lemma {:induction false} ExecKeepsInv(s: State, events: seq<Event>)
    requires Inv(s) && Exec(s, events).Some?
    ensures Inv(Exec(s, events).value)
    decreases |events|
  {
    hide Step, Inv;
    if events != [] {
      StepKeepsInv(s, events[0]);
      ExecKeepsInv(Step(s, events[0]).value, events[1..]);
    }
  }

  lemma ReachableInv(s: State)
    requires Reachable(s)
    ensures Inv(s)
  {
    var events :| Exec(INITIAL, events) == Some(s);
    ExecKeepsInv(INITIAL, events);
  }

  /**
   Every accepted event is in exactly one window, or still in the channel, all in order; only those
   that were queued when a failed write stopped the task are in neither.
   */
  lemma EachEventInOneWindow(s: State)
    requires Reachable(s)
    ensures Collected(s.windows) + (s.channel + s.lost) == s.accepted
    ensures if s.task.Stopped? then s.channel == [] else s.lost == []
    ensures |s.channel| <= 10_000
  {
    ReachableInv(s);
    assert s.channel + [] == s.channel && [] + s.lost == s.lost;
  }

  /**
   Every window but the current one has been answered by one notification with exactly the paths of
   its events, or by none if there were none; windows begin at least 200 ms apart.
   */
  lemma WindowsNotifyTheirPaths(s: State, i: nat)
    requires Reachable(s) && i < |s.windows|
    ensures i < |s.windows| - 1 || s.task.Waiting? ==> Settled(s.windows[i])
    ensures s.windows[i].sent.Some? ==> s.windows[i].sent.value == PathsOf(s.windows[i].events) != {}
    ensures i > 0 ==> s.windows[i - 1].start + 200 <= s.windows[i].start
  {
    ReachableInv(s);
  }

  /**
   A mutation is dropped exactly when 10,000 events are queued or a failed write has ended the task;
   other events never count.
   */
  lemma DropsIffFullOrStopped(s: State, e: FsEvent)
    requires Reachable(s) && !s.closed
    ensures var t := Step(s, Observe(e)).value;
      && (e.kind in {Access, Other} ==> t == s)
      && (e.kind in {Create, Modify, Remove} ==>
            if s.task.Stopped? || |s.channel| == 10_000 then t == s.(dropped := s.dropped + 1)
            else t == s.(channel := s.channel + [e], accepted := s.accepted + [e]))
  {
    ReachableInv(s);
  }

  /** Where an accepted event can be: notified, in the window that is not answered yet, queued, or lost. */
  lemma NothingAcceptedIsForgotten(s: State, k: nat)
    requires Reachable(s) && k < |s.accepted|
    ensures
      || s.accepted[k] in s.channel
      || (s.task.Stopped? && s.accepted[k] in s.lost)
      || (!s.task.Waiting? && s.windows != [] && s.accepted[k] in s.windows[|s.windows| - 1].events)
      || exists i :: 0 <= i < |s.windows| && s.accepted[k] in s.windows[i].events && Settled(s.windows[i])
  {
    ReachableInv(s);
    if k >= |Collected(s.windows)| {
      assert s.accepted[k] == (s.channel + s.lost)[k - |Collected(s.windows)|];
    } else {
      assert s.accepted[k] == Collected(s.windows)[k];
      var i := WindowOf(s.windows, k);
    }
  }

  /** The task only ever stops after a failed write or because the channel was closed. */
  lemma {:induction false} StopNeedsCause(s: State, events: seq<Event>)
    requires !s.closed && !s.task.Stopped? && Exec(s, events).Some?
    requires forall i :: 0 <= i < |events| ==> !events[i].SendFails? && !events[i].CloseChannel?
    ensures !Exec(s, events).value.task.Stopped?
    decreases |events|
  {
    if events != [] {
      StopNeedsCause(Step(s, events[0]).value, events[1..]);
    }
  }

  lemma {:induction false} WindowOf(windows: seq<Window>, k: nat) returns (i: nat)
    requires k < |Collected(windows)|
    ensures i < |windows| && Collected(windows)[k] in windows[i].events
  {
    var last := |windows| - 1;
    var before := |Collected(windows[..last])|;
    if k < before {
      i := WindowOf(windows[..last], k);
    } else {
      i := last;
      assert Collected(windows)[k] == windows[last].events[k - before];
    }
  }

  /** A task that has stopped never comes back: no window changes, and what is observed is dropped. */
  lemma {:induction false} StoppedStaysStopped(s: State, events: seq<Event>)
    requires s.task.Stopped? && s.channel == [] && Exec(s, events).Some?
    ensures var t := Exec(s, events).value;
      t.task.Stopped? && t.windows == s.windows && t.accepted == s.accepted && t.lost == s.lost && t.channel == []
    decreases |events|
  {
    if events != [] {
      StoppedStaysStopped(Step(s, events[0]).value, events[1..]);
    }
  }

  /**
   When the task stops, the last window is answered as it should be, then and for ever, exactly if
   it was over already or its events named no path.  So closing the channel inside a window loses
   that window, and a failed write always loses the one it was for.
   */
  lemma StopKeepsWindowIff(s: State, e: Event, events: seq<Event>)
    requires Reachable(s) && s.windows != [] && !s.task.Stopped?
    requires Step(s, e).Some? && Step(s, e).value.task.Stopped? && Exec(Step(s, e).value, events).Some?
    ensures var t := Exec(Step(s, e).value, events).value;
      && t.windows == s.windows
      && (Settled(t.windows[|t.windows| - 1]) <==>
            s.task.Waiting? || (s.task.Collecting? && s.task.paths == {}))
  {
    ReachableInv(s);
    StepKeepsInv(s, e);
    StoppedStaysStopped(Step(s, e).value, events);
  }

  lemma {:induction false} ExecSnoc(s: State, events: seq<Event>, e: Event)
    requires Exec(s, events).Some? && Step(Exec(s, events).value, e).Some?
    ensures Exec(s, events + [e]) == Step(Exec(s, events).value, e)
    decreases |events|
  {
    hide Step;
    if events == [] {
      assert events + [e] == [e] && [e][1..] == [];
    } else {
      assert (events + [e])[1..] == events[1..] + [e];
      ExecSnoc(Step(s, events[0]).value, events[1..], e);
    }
  }

  lemma ReachNext(s: State, e: Event) returns (t: State)
    requires Reachable(s) && Step(s, e).Some?
    ensures t == Step(s, e).value && Reachable(t)
  {
    hide Step;
    t := Step(s, e).value;
    var events :| Exec(INITIAL, events) == Some(s);
    ExecSnoc(INITIAL, events, e);
  }

  /** One event has opened a window. */
  lemma WindowOpens(e: FsEvent) returns (s: State)
    requires IsMutation(e) && e.paths != []
    ensures Reachable(s) && s.accepted == [e] && s.channel == [] && !s.closed && s.dropped == 0 && s.lost == []
    ensures s.windows == [Window(0, [e], None)] && s.now == 0
    ensures s.task == Collecting(SetOf(e.paths), WINDOW) && SetOf(e.paths) == PathsOf([e]) != {}
  {
    hide Reachable;
    assert Reachable(INITIAL) by {
      InitialIsReachable();
    }
    s := ReachNext(INITIAL, Observe(e));
    s := ReachNext(s, Receive);
    PathsOfMore([], e);
    assert e.paths[0] in SetOf(e.paths);
  }

  lemma InitialIsReachable()
    ensures Reachable(INITIAL)
  {
    assert Exec(INITIAL, []) == Some(INITIAL);
  }

  /** Closing the channel inside a window loses that window's paths. */
  lemma ClosingLosesTheWindow(e: FsEvent) returns (s: State)
    requires IsMutation(e) && e.paths != []
    ensures Reachable(s) && s.task.Stopped? && s.accepted == [e] && s.channel == []
    ensures |s.windows| == 1 && s.windows[0].events == [e] && s.windows[0].sent == None && !Settled(s.windows[0])
  {
    hide Reachable;
    s := WindowOpens(e);
    s := ReachNext(s, CloseChannel);
    s := ReachNext(s, NoticeClosed);
  }

  /** A failed write loses its window as well, and whatever is observed afterwards, with the channel empty. */
  lemma FailedWriteLosesTheWindow(e: FsEvent, later: FsEvent) returns (s: State)
    requires IsMutation(e) && e.paths != [] && IsMutation(later)
    ensures Reachable(s) && s.task.Stopped? && !s.closed && s.accepted == [e] && s.channel == []
    ensures |s.windows| == 1 && s.windows[0].events == [e] && !Settled(s.windows[0])
    ensures Step(s, Observe(later)) == Some(s.(dropped := s.dropped + 1))
  {
    hide Reachable, SetOf, PathsOf;
    s := WindowOpens(e);
    s := ReachNext(s, Tick(WINDOW));
    s := ReachNext(s, Expire);
    s := ReachNext(s, SendFails);
  }

  /** A next step of the task towards rest, and how many there are at most. */
  function NextToRest(s: State): (Event, nat) {
    if s.channel != [] && !s.task.Sending? then (Receive, 4 * |s.channel|)
    else if s.task.Collecting? then
      (if s.now < s.task.deadline then (Tick(s.task.deadline - s.now), 4 * |s.channel| + 3)
       else (Expire, 4 * |s.channel| + 2))
    else (SendSucceeds, 4 * |s.channel| + 1)
  }

  predicate AtRest(s: State) {
    s.task.Waiting? && s.channel == []
  }

  lemma StepToRest(s: State)
    requires Inv(s) && !s.task.Stopped? && !AtRest(s)
    ensures var (e, left) := NextToRest(s);
      && Step(s, e).Some?
      && var t := Step(s, e).value;
         && !t.task.Stopped? && t.accepted == s.accepted && t.closed == s.closed
         && (AtRest(t) || NextToRest(t).1 < left)
  {
    hide PathsOf, SetOf, Collected, Offer;
  }

  /**
   As long as the task runs, all events accepted so far can still be notified: in some further run
   each of them is in a window that has been answered as it should.
   */
  lemma {:induction false} AllCanBeNotified(s: State) returns (events: seq<Event>)
    requires Inv(s) && !s.task.Stopped?
    ensures Exec(s, events).Some?
    ensures var t := Exec(s, events).value;
      && t.accepted == s.accepted && Collected(t.windows) == s.accepted
      && forall i :: 0 <= i < |t.windows| ==> Settled(t.windows[i])
    decreases if AtRest(s) then 0 else 1 + NextToRest(s).1
  {
    hide Step, NextToRest, PathsOf, SetOf, Collected;
    if AtRest(s) {
      events := [];
      assert Collected(s.windows) + [] == Collected(s.windows);
    } else {
      var e := NextToRest(s).0;
      StepToRest(s);
      StepKeepsInv(s, e);
      var rest := AllCanBeNotified(Step(s, e).value);
      events := [e] + rest;
      assert events[1..] == rest;
    }
  }

  // ---------------------------------------------------------------- the loop itself

  /** What the task's awaits yield, one after the other. */
  datatype Poll = Got(event: FsEvent) | DeadlinePassed | ChannelClosed

  /** The rest of a window: its paths, or None if the channel closed in it, and the polls after it. */
  function WindowOver(polls: seq<Poll>, paths: set<Path>): (Option<set<Path>>, seq<Poll>) {
    if polls == [] || polls[0].ChannelClosed? then (None, [])
    else if polls[0].DeadlinePassed? then (Some(paths), polls[1..])
    else WindowOver(polls[1..], paths + SetOf(polls[0].event.paths))
  }

  lemma {:induction false} WindowConsumes(polls: seq<Poll>, paths: set<Path>)
    ensures |WindowOver(polls, paths).1| <= |polls|
  {
    if polls != [] && polls[0].Got? {
      WindowConsumes(polls[1..], paths + SetOf(polls[0].event.paths));
    }
  }

  /** The notifications that the polls lead to; writes tells of each attempt to send whether it succeeds. */
  function Notified(polls: seq<Poll>, writes: seq<bool>): seq<set<Path>>
    decreases |polls|, 0
  {
    if polls == [] || polls[0].ChannelClosed? then []
    else if polls[0].DeadlinePassed? then Notified(polls[1..], writes) // no timer runs between windows
    else
      WindowConsumes(polls[1..], SetOf(polls[0].event.paths));
      var (paths, rest) := WindowOver(polls[1..], SetOf(polls[0].event.paths));
      if paths.None? then [] else NotifiedAfter(paths.value, rest, writes)
  }

  /** The same when a window is over and its paths, if any, are to be sent. */
  function NotifiedAfter(paths: set<Path>, rest: seq<Poll>, writes: seq<bool>): seq<set<Path>>
    decreases |rest|, 1
  {
    if paths == {} then Notified(rest, writes)
    else if writes == [] || !writes[0] then []
    else [paths] + Notified(rest, writes[1..])
  }

  method InsertAll(paths: set<Path>, more: seq<Path>) returns (all: set<Path>)
    ensures all == paths + SetOf(more)
    ensures forall p :: p in all <==> p in paths || p in more
  {
    all := paths;
    for i := 0 to |more|
      invariant all == paths + SetOf(more[..i])
    {
      assert more[..i + 1] == more[..i] + [more[i]];
      all := all + {more[i]};
    }
    assert more[..|more|] == more;
  }

  method DebounceLoop(polls: seq<Poll>, writes: seq<bool>) returns (sent: seq<set<Path>>)
    ensures sent == Notified(polls, writes)
  {
    sent := [];
    var rest, outcomes := polls, writes;
    while rest != []
      invariant sent + Notified(rest, outcomes) == Notified(polls, writes)
      decreases |rest|
    {
      var first := rest[0];
      if first.ChannelClosed? {
        return;
      }
      ghost var before := rest;
      rest := rest[1..];
      if first.Got? {
        var pending := InsertAll({}, first.event.paths);
        assert pending == SetOf(first.event.paths);
        ghost var window := WindowOver(rest, pending);
        WindowConsumes(rest, pending);
        var open := true;
        while open
          invariant open ==> WindowOver(rest, pending) == window && |rest| < |before|
          invariant !open ==> window == (Some(pending), rest)
          decreases open, |rest|
        {
          if rest == [] || rest[0].ChannelClosed? {
            return;
          }
          if rest[0].DeadlinePassed? {
            open := false;
          } else {
            pending := InsertAll(pending, rest[0].event.paths);
          }
          rest := rest[1..];
        }
        assert Notified(before, outcomes) == NotifiedAfter(pending, rest, outcomes);
        if pending != {} {
          if outcomes == [] || !outcomes[0] {
            return; // the output is broken
          }
          AppendAssociative(sent, [pending], Notified(rest, outcomes[1..]));
          sent := sent + [pending];
          outcomes := outcomes[1..];
        }
      }
    }
  }

  function Events(polls: seq<Poll>): seq<FsEvent> {
    if polls == [] then []
    else (if polls[0].Got? then [polls[0].event] else []) + Events(polls[1..])
  }

  predicate NoneClosed(polls: seq<Poll>) {
    forall i :: 0 <= i < |polls| ==> !polls[i].ChannelClosed?
  }

  function Union(sets: seq<set<Path>>): set<Path> {
    if sets == [] then {} else sets[0] + Union(sets[1..])
  }

  lemma PathsOfConcat(xs: seq<FsEvent>, ys: seq<FsEvent>)
    ensures PathsOf(xs + ys) == PathsOf(xs) + PathsOf(ys)
  {
    var all := xs + ys;
    forall p | p in PathsOf(xs) + PathsOf(ys) ensures p in PathsOf(all) {
      if p in PathsOf(xs) {
        var i, j :| 0 <= i < |xs| && 0 <= j < |xs[i].paths| && xs[i].paths[j] == p;
        assert all[i].paths[j] == p;
      } else {
        var i, j :| 0 <= i < |ys| && 0 <= j < |ys[i].paths| && ys[i].paths[j] == p;
        assert all[|xs| + i].paths[j] == p;
      }
    }
    forall p | p in PathsOf(all) ensures p in PathsOf(xs) + PathsOf(ys) {
      var i, j :| 0 <= i < |all| && 0 <= j < |all[i].paths| && all[i].paths[j] == p;
      if i < |xs| {
        assert xs[i].paths[j] == p;
      } else {
        assert ys[i - |xs|].paths[j] == p;
      }
    }
  }

  lemma {:induction false} WindowCollects(polls: seq<Poll>, paths: set<Path>)
    requires NoneClosed(polls) && polls != [] && polls[|polls| - 1].DeadlinePassed?
    ensures var (over, rest) := WindowOver(polls, paths);
      && over.Some? && NoneClosed(rest) && |rest| < |polls|
      && (rest != [] ==> rest[|rest| - 1].DeadlinePassed?)
      && over.value + PathsOf(Events(rest)) == paths + PathsOf(Events(polls))
  {
    if polls[0].Got? {
      var e := polls[0].event;
      WindowCollects(polls[1..], paths + SetOf(e.paths));
      PathsOfMore([], e);
      PathsOfConcat([e], Events(polls[1..]));
    } else {
      assert Events(polls) == Events(polls[1..]);
    }
  }

  /** If no write fails, then when the last window is over the notifications name exactly all paths. */
  lemma {:induction false} NotificationsCoverAllEvents(polls: seq<Poll>, writes: seq<bool>)
    requires NoneClosed(polls) && (polls != [] ==> polls[|polls| - 1].DeadlinePassed?)
    requires |writes| >= |polls| && forall i :: 0 <= i < |writes| ==> writes[i]
    ensures Union(Notified(polls, writes)) == PathsOf(Events(polls))
    decreases |polls|
  {
    hide PathsOf, SetOf;
    if polls == [] {
      NoEventsNoPaths();
    } else if polls[0].DeadlinePassed? {
      NotificationsCoverAllEvents(polls[1..], writes);
      assert Events(polls) == Events(polls[1..]);
    } else {
      var e := polls[0].event;
      var (over, rest) := WindowOver(polls[1..], SetOf(e.paths));
      WindowCollects(polls[1..], SetOf(e.paths));
      var left := if over.value == {} then writes else writes[1..];
      NotificationsCoverAllEvents(rest, left);
      PathsOfMore([], e);
      PathsOfConcat([e], Events(polls[1..]));
      assert over.value != {} ==> ([over.value] + Notified(rest, left))[1..] == Notified(rest, left);
    }
  }

  lemma NoEventsNoPaths()
    ensures PathsOf([]) == {}
  {
  }

  // ---------------------------------------------------------------- runs of the loop

  /** What the task's wait yields in one step of the whole system. */
  function PollOf(s: State, e: Event): seq<Poll> {
    match e
    case Receive => if s.channel == [] then [] else [Got(s.channel[0])]
    case Expire => [DeadlinePassed]
    case NoticeClosed => [ChannelClosed]
    case _ => []
  }

  function WriteOf(e: Event): seq<bool> {
    if e.SendSucceeds? then [true] else if e.SendFails? then [false] else []
  }

  function PollsOf(s: State, events: seq<Event>): seq<Poll>
    decreases |events|
  {
    if events == [] || Step(s, events[0]).None? then []
    else PollOf(s, events[0]) + PollsOf(Step(s, events[0]).value, events[1..])
  }

  function WritesOf(events: seq<Event>): seq<bool> {
    if events == [] then [] else WriteOf(events[0]) + WritesOf(events[1..])
  }

  /** What has been sent for the windows. */
  function Answers(windows: seq<Window>): seq<set<Path>> {
    if windows == [] then []
    else
      var last := windows[|windows| - 1];
      Answers(windows[..|windows| - 1]) + if last.sent.Some? then [last.sent.value] else []
  }

  /** What the loop sends when it goes on from the middle of its work. */
  function NotifiedFrom(task: Task, polls: seq<Poll>, writes: seq<bool>): seq<set<Path>> {
    match task
    case Waiting => Notified(polls, writes)
    case Collecting(paths, _) =>
      var (over, rest) := WindowOver(polls, paths);
      if over.None? then [] else NotifiedAfter(over.value, rest, writes)
    case Sending(paths) => NotifiedAfter(paths, polls, writes)
    case Stopped => []
  }

  lemma AnswersOfNew(windows: seq<Window>, w: Window)
    ensures Answers(windows + [w]) == Answers(windows) + if w.sent.Some? then [w.sent.value] else []
  {
    assert (windows + [w])[..|windows|] == windows;
  }

  lemma AnswersOfLast(windows: seq<Window>, w: Window)
    requires windows != [] && windows[|windows| - 1].sent == None
    ensures Answers(windows[|windows| - 1 := w]) == Answers(windows) + if w.sent.Some? then [w.sent.value] else []
  {
    var last := |windows| - 1;
    assert windows[last := w][..last] == windows[..last];
    assert Answers(windows) == Answers(windows[..last]) + [];
    assert Answers(windows[..last]) + [] == Answers(windows[..last]);
  }

  lemma ReceiveNotifies(s: State, polls: seq<Poll>, writes: seq<bool>)
    requires TaskInv(s) && Step(s, Receive).Some?
    ensures var t := Step(s, Receive).value;
      && Answers(s.windows) == Answers(t.windows)
      && NotifiedFrom(s.task, [Got(s.channel[0])] + polls, writes) == NotifiedFrom(t.task, polls, writes)
  {
    hide PathsOf, SetOf, Answers;
    var all := [Got(s.channel[0])] + polls;
    assert all[1..] == polls;
    if s.task.Waiting? {
      AnswersOfNew(s.windows, Window(s.now, [s.channel[0]], None));
      assert Answers(s.windows) + [] == Answers(s.windows);
    } else {
      var w := s.windows[|s.windows| - 1];
      AnswersOfLast(s.windows, w.(events := w.events + [s.channel[0]]));
      assert Answers(s.windows) + [] == Answers(s.windows);
    }
  }

  lemma SendNotifies(s: State, polls: seq<Poll>, writes: seq<bool>)
    requires TaskInv(s) && Step(s, SendSucceeds).Some?
    ensures var t := Step(s, SendSucceeds).value;
      Answers(s.windows) + NotifiedFrom(s.task, polls, [true] + writes) ==
      Answers(t.windows) + NotifiedFrom(t.task, polls, writes)
  {
    hide PathsOf, Answers;
    var w := s.windows[|s.windows| - 1];
    AnswersOfLast(s.windows, w.(sent := Some(s.task.paths)));
    assert ([true] + writes)[1..] == writes;
    AppendAssociative(Answers(s.windows), [s.task.paths], Notified(polls, writes));
  }

  /** The other steps move the task between its waits, or do not concern it. */
  lemma OtherStepNotifies(s: State, e: Event, polls: seq<Poll>, writes: seq<bool>)
    requires TaskInv(s) && Step(s, e).Some? && !e.Receive? && !e.SendSucceeds?
    ensures var t := Step(s, e).value;
      && s.windows == t.windows
      && NotifiedFrom(s.task, PollOf(s, e) + polls, WriteOf(e) + writes) == NotifiedFrom(t.task, polls, writes)
  {
    hide PathsOf;
    assert [] + polls == polls && [] + writes == writes;
    match e
    case Expire => assert ([DeadlinePassed] + polls)[1..] == polls;
    case NoticeClosed => assert ([ChannelClosed] + polls)[0] == ChannelClosed;
    case SendFails => assert !([false] + writes)[0];
    case _ =>
  }

  lemma StepNotifies(s: State, e: Event, polls: seq<Poll>, writes: seq<bool>)
    requires Inv(s) && Step(s, e).Some?
    ensures var t := Step(s, e).value;
      Answers(s.windows) + NotifiedFrom(s.task, PollOf(s, e) + polls, WriteOf(e) + writes) ==
      Answers(t.windows) + NotifiedFrom(t.task, polls, writes)
  {
    hide Answers, NotifiedFrom, WindowsInv, TaskInv, LastWindow, Offer;
    assert [] + polls == polls && [] + writes == writes;
    if e.Receive? {
      ReceiveNotifies(s, polls, writes);
    } else if e.SendSucceeds? {
      SendNotifies(s, polls, writes);
    } else {
      OtherStepNotifies(s, e, polls, writes);
    }
  }

  lemma {:induction false} RunNotifies(s: State, events: seq<Event>)
    requires Inv(s) && Exec(s, events).Some?
    ensures Answers(s.windows) + NotifiedFrom(s.task, PollsOf(s, events), WritesOf(events)) ==
      Answers(Exec(s, events).value.windows)
    decreases |events|
  {
    hide Step, Inv, Answers, WriteOf, PollOf;
    if events == [] {
      assert Answers(s.windows) + [] == Answers(s.windows);
      assert NotifiedFrom(s.task, [], []) == [];
    } else {
      var t := Step(s, events[0]).value;
      StepNotifies(s, events[0], PollsOf(t, events[1..]), WritesOf(events[1..]));
      StepKeepsInv(s, events[0]);
      RunNotifies(t, events[1..]);
    }
  }

  /**
   The loop and the step system agree: in every run, the notifications sent are those that the loop
   sends when its waits and writes end as they do in that run.
   */
  lemma RunsFollowTheLoop(events: seq<Event>)
    requires Exec(INITIAL, events).Some?
    ensures Answers(Exec(INITIAL, events).value.windows) == Notified(PollsOf(INITIAL, events), WritesOf(events))
  {
    hide Exec, Notified, PollsOf, WritesOf;
    RunNotifies(INITIAL, events);
    var sent := Notified(PollsOf(INITIAL, events), WritesOf(events));
    assert [] + sent == sent;
  }
}
