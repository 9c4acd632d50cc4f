/**
 The client's end of the connection: the process filter that reassembles frames from arbitrary
 chunks and dispatches them, and the calls that wait for replies.  A callback may itself wait for
 a reply, which re-enters the filter while the outer filter is still in its loop.
 */
module Connection {
  import opened Prelude
  import opened Framing

  /** What the MessagePack library yields for a payload; only the two routing keys matter. */
  datatype Envelope = Envelope(id: Option<nat>, name: Option<string>, body: Bytes)

  datatype Message = Notification(name: string, params: Bytes) | Reply(id: Option<nat>, body: Bytes)

  /** A notification has a method and no id; everything else is a reply. */
  function Classify(e: Envelope): Message {
    if e.name.Some? && e.id.None? then Notification(e.name.value, e.body) else Reply(e.id, e.body)
  }

  /** Callbacks are closures; the model only needs to tell them apart. */
  type Callback = nat

  datatype Route = ToHandler | ToCallback(id: nat, callback: Callback) | ToPending(key: Option<nat>)

  function Decode(unpack: Bytes -> Envelope, payload: Bytes): Message {
    Classify(unpack(payload))
  }

  /** Each kind of message may only go its own way. */
  predicate RouteFits(unpack: Bytes -> Envelope, payload: Bytes, route: Route) {
    match route
    case ToHandler => Decode(unpack, payload).Notification?
    case ToPending(key) => Decode(unpack, payload).Reply? && Decode(unpack, payload).id == key
    case ToCallback(id, _) => Decode(unpack, payload).Reply? && Decode(unpack, payload).id == Some(id)
  }

  /** The filter's choice: a registered callback first, the pending table otherwise. */
  function RouteOf(unpack: Bytes -> Envelope, callbacks: map<nat, Callback>, payload: Bytes): (r: Route)
    ensures RouteFits(unpack, payload, r)
    ensures r.ToCallback? ==> r.id in callbacks && callbacks[r.id] == r.callback
    ensures r.ToPending? && r.key.Some? ==> r.key.value !in callbacks
  {
    match Decode(unpack, payload)
    case Notification(_, _) => ToHandler
    case Reply(id, _) =>
      if id.Some? && id.value in callbacks then ToCallback(id.value, callbacks[id.value]) else ToPending(id)
  }

  /** The client's id counter, its callbacks, and the replies that wait for their callers. */
  datatype Tables = Tables(nextId: nat, callbacks: map<nat, Callback>, pending: map<Option<nat>, Bytes>)

  function AfterCall(t: Tables, callback: Option<Callback>): Tables {
    var id := t.nextId + 1;
    t.(nextId := id, callbacks := if callback.Some? then t.callbacks[id := callback.value] else t.callbacks)
  }

  function AfterRoute(unpack: Bytes -> Envelope, t: Tables, payload: Bytes): Tables {
    match RouteOf(unpack, t.callbacks, payload)
    case ToHandler => t
    case ToCallback(id, _) => t.(callbacks := t.callbacks - {id})
    case ToPending(key) => t.(pending := t.pending[key := Decode(unpack, payload).body])
  }

  function AfterFind(t: Tables, id: nat): Tables {
    t.(pending := t.pending - {Some(id)})
  }

  /** The route by the two keys of the payload alone. */
  lemma RouteByKeys(unpack: Bytes -> Envelope, callbacks: map<nat, Callback>, payload: Bytes)
    ensures var e, r := unpack(payload), RouteOf(unpack, callbacks, payload);
      && (e.name.Some? && e.id.None? ==> r == ToHandler)
      && (e.id.Some? && e.id.value in callbacks ==> r == ToCallback(e.id.value, callbacks[e.id.value]))
      && (e.id.Some? && e.id.value !in callbacks ==> r == ToPending(e.id))
      && (e.name.None? && e.id.None? ==> r == ToPending(None))
  {
  }

  predicate Fired(routes: seq<Route>, id: nat, callback: Callback) {
    ToCallback(id, callback) in routes
  }

  predicate FiredOnce(routes: seq<Route>) {
    forall i, j :: 0 <= i < j < |routes| && routes[i].ToCallback? && routes[j].ToCallback? ==>
      routes[i].id != routes[j].id
  }

  /** The body was carried by a dispatched frame that the filter put into the pending table. */
  predicate Stored(unpack: Bytes -> Envelope, dispatched: seq<Bytes>, routes: seq<Route>, key: Option<nat>, body: Bytes)
  {
    exists i :: 0 <= i < |routes| && i < |dispatched|
      && routes[i] == ToPending(key) && Decode(unpack, dispatched[i]) == Reply(key, body)
  }

  predicate RoutesFit(unpack: Bytes -> Envelope, dispatched: seq<Bytes>, routes: seq<Route>) {
    && |routes| == |dispatched|
    && (forall i :: 0 <= i < |routes| ==> RouteFits(unpack, dispatched[i], routes[i]))
  }

  /** A registered callback is waiting or has fired, never both, and fired at most once. */
  predicate CallbacksFit(routes: seq<Route>, registered: map<nat, Callback>, callbacks: map<nat, Callback>, nextId: nat)
  {
    && FiredOnce(routes)
    && (forall id :: id in registered ==> id <= nextId && (id in callbacks <==> !Fired(routes, id, registered[id])))
    && (forall id :: id in callbacks ==> id in registered && registered[id] == callbacks[id])
    && (forall i :: 0 <= i < |routes| && routes[i].ToCallback? ==>
          routes[i].id in registered && routes[i].callback == registered[routes[i].id])
  }

  predicate PendingFits(unpack: Bytes -> Envelope, dispatched: seq<Bytes>, routes: seq<Route>,
                        pending: map<Option<nat>, Bytes>)
  {
    forall key :: key in pending ==> Stored(unpack, dispatched, routes, key, pending[key])
  }

  lemma PendingGrows(unpack: Bytes -> Envelope, dispatched: seq<Bytes>, routes: seq<Route>,
                     pending: map<Option<nat>, Bytes>, payload: Bytes, route: Route)
    requires RoutesFit(unpack, dispatched, routes) && PendingFits(unpack, dispatched, routes, pending)
    ensures PendingFits(unpack, dispatched + [payload], routes + [route], pending)
  {
    forall key | key in pending
      ensures Stored(unpack, dispatched + [payload], routes + [route], key, pending[key])
    {
      var i :| 0 <= i < |routes| && i < |dispatched|
        && routes[i] == ToPending(key) && Decode(unpack, dispatched[i]) == Reply(key, pending[key]);
      assert (routes + [route])[i] == ToPending(key) && (dispatched + [payload])[i] == dispatched[i];
    }
  }

  lemma PendingAfterStore(unpack: Bytes -> Envelope, dispatched: seq<Bytes>, routes: seq<Route>,
                          pending: map<Option<nat>, Bytes>, key: Option<nat>, body: Bytes)
    requires RoutesFit(unpack, dispatched, routes) && PendingFits(unpack, dispatched, routes, pending)
    requires routes != [] && routes[|routes| - 1] == ToPending(key)
    requires Decode(unpack, dispatched[|routes| - 1]) == Reply(key, body)
    ensures PendingFits(unpack, dispatched, routes, pending[key := body])
  {
  }

  lemma CallbacksAfterOther(routes: seq<Route>, route: Route, registered: map<nat, Callback>,
                            callbacks: map<nat, Callback>, nextId: nat)
    requires CallbacksFit(routes, registered, callbacks, nextId) && !route.ToCallback?
    ensures CallbacksFit(routes + [route], registered, callbacks, nextId)
  {
    forall id | id in registered
      ensures Fired(routes + [route], id, registered[id]) <==> Fired(routes, id, registered[id])
    {
    }
  }

  lemma CallbacksAfterFiring(routes: seq<Route>, id: nat, registered: map<nat, Callback>,
                             callbacks: map<nat, Callback>, nextId: nat)
    requires CallbacksFit(routes, registered, callbacks, nextId) && id in callbacks
    ensures CallbacksFit(routes + [ToCallback(id, callbacks[id])], registered, callbacks - {id}, nextId)
  {
    var fired := ToCallback(id, callbacks[id]);
    assert fired !in routes;
    forall i | 0 <= i < |routes| && routes[i].ToCallback?
      ensures routes[i].id != id
    {
      assert routes[i] in routes;
    }
    forall other | other in registered
      ensures Fired(routes + [fired], other, registered[other])
         <==> other == id || Fired(routes, other, registered[other])
    {
      assert fired == (routes + [fired])[|routes|];
    }
  }

  /** Taking the front frame out of the buffer accounts for exactly its bytes. */
  lemma TakeFront(dispatched: seq<Bytes>, buffer: Bytes)
    requires TryRead(buffer).Some?
    ensures Stream(dispatched + [TryRead(buffer).value]) + Rest(buffer) == Stream(dispatched) + buffer
  {
    var payload := TryRead(buffer).value;
    FrameOfRead(buffer);
    StreamSnoc(dispatched, payload);
    AppendAssociative(Stream(dispatched), Frame(payload), Rest(buffer));
  }

  class Connection {
    const unpack: Bytes -> Envelope
    var buffer: Bytes
    var mark: nat
    var nextId: nat
    var callbacks: map<nat, Callback>
    var pending: map<Option<nat>, Bytes>
    var wire: seq<Bytes> // chunks the operating system has yet to hand over

    ghost var received: Bytes               // all bytes ever passed to the filter
    ghost var dispatched: seq<Bytes>        // payloads, in the order their dispatch started
    ghost var routes: seq<Route>            // where each of them went
    ghost var registered: map<nat, Callback> // every callback ever registered

    ghost predicate BufferValid()
      reads this
    {
      && mark == 0
      && Frameable(dispatched)
      && Stream(dispatched) + buffer == received
    }

    ghost predicate TablesValid()
      reads this
    {
      && RoutesFit(unpack, dispatched, routes)
      && CallbacksFit(routes, registered, callbacks, nextId)
      && PendingFits(unpack, dispatched, routes, pending)
    }

    ghost predicate Valid()
      reads this
    {
      BufferValid() && TablesValid()
    }

    /** What every operation leaves behind, however deeply callbacks nested. */
    twostate predicate Grows()
      reads this
    {
      && old(dispatched) <= dispatched
      && old(routes) <= routes
      && old(nextId) <= nextId
      && |wire| <= |old(wire)|
      && (forall id :: id in old(registered) ==> id in registered && registered[id] == old(registered)[id])
    }

    /** At every moment, re-entrant or not, dispatches are the frames received so far, in order. */
    lemma DispatchedInStreamOrder()
      requires Valid()
      ensures Messages(received) == dispatched + Messages(buffer)
      ensures dispatched <= Messages(received)
    {
      var all := dispatched + Messages(buffer);
      StreamOfMessages(buffer);
      StreamAppend(dispatched, Messages(buffer));
      AppendAssociative(Stream(dispatched), Stream(Messages(buffer)), Remainder(buffer));
      assert received == Stream(all) + Remainder(buffer);
      MessagesOfStream(all, Remainder(buffer));
    }

    /** Every dispatched payload has gone the way its keys demand, and no callback has fired twice. */
    lemma EachWentItsWay(i: nat)
      requires Valid() && i < |dispatched|
      ensures |routes| == |dispatched|
      ensures var e, r := unpack(dispatched[i]), routes[i];
        && (r.ToHandler? <==> e.name.Some? && e.id.None?)
        && (r.ToCallback? ==> e.id == Some(r.id) && r.id in registered && registered[r.id] == r.callback)
        && (r.ToPending? ==> e.id == r.key)
      ensures routes[i].ToCallback? ==>
        && routes[i].id !in callbacks
        && forall j :: 0 <= j < |routes| && j != i && routes[j].ToCallback? ==> routes[j].id != routes[i].id
    {
      if routes[i].ToCallback? {
        var id := routes[i].id;
        assert routes[i] == ToCallback(id, registered[id]);
        assert Fired(routes, id, registered[id]);
      }
    }

    constructor (unpack: Bytes -> Envelope, wire: seq<Bytes>)
      ensures Valid()
      ensures this.unpack == unpack && this.wire == wire
      ensures received == [] && dispatched == [] && routes == []
    {
      this.unpack := unpack;
      this.wire := wire;
      buffer, mark, nextId, callbacks, pending := [], 0, 0, map[], map[];
      received, dispatched, routes, registered := [], [], [], map[];
    }

    /** Decodes the frame at the mark, if it is complete, and moves the mark behind it. */
    method TryReadMessage() returns (payload: Option<Bytes>)
      requires mark == 0
      modifies this`mark
      ensures payload == TryRead(buffer)
      ensures mark == if payload.Some? then PREFIX_LENGTH + |payload.value| else 0
    {
      var start := mark + PREFIX_LENGTH;
      if |buffer| < start {
        return None;
      }
      var length := DecodeLength(buffer[mark..start]);
      assert buffer[..PREFIX_LENGTH] == buffer[mark..start];
      if |buffer| < start + length {
        return None;
      }
      mark := start + length;
      payload := Some(buffer[start..start + length]);
    }

    /** Appends a chunk and dispatches every complete frame; the frame leaves the buffer first. */
    method Filter(output: Bytes)
      requires Valid()
      modifies this
      ensures Valid() && Grows()
      ensures received + Flatten(wire) == old(received) + output + old(Flatten(wire))
      ensures dispatched == Messages(received)
      decreases |wire|, 4
    {
      hide CallbacksFit, PendingFits, RoutesFit, Stream, Messages, Flatten;
      buffer := buffer + output;
      received := received + output;
      AppendAssociative(Stream(dispatched), old(buffer), output);
      var payload := TryReadMessage();
      while payload.Some?
        invariant payload == TryRead(buffer)
        invariant mark == if payload.Some? then PREFIX_LENGTH + |payload.value| else 0
        invariant Frameable(dispatched) && Stream(dispatched) + buffer == received
        invariant TablesValid() && Grows()
        invariant received + Flatten(wire) == old(received) + output + old(Flatten(wire))
        decreases |wire|, |buffer|
      {
        TakeFront(dispatched, buffer);
        buffer := buffer[mark..];
        mark := 0;
        Dispatch(payload.value);
        payload := TryReadMessage();
      }
      MessagesOfStream(dispatched, buffer);
    }

    /** The three tables as one value. */
    ghost function View(): Tables
      reads this
    {
      Tables(nextId, callbacks, pending)
    }

    /** Routes one payload.  Its frame has left the buffer, so the buffer may change meanwhile. */
    method Dispatch(payload: Bytes)
      requires mark == 0 && |payload| < LENGTH_LIMIT
      requires Frameable(dispatched) && Stream(dispatched + [payload]) + buffer == received
      requires TablesValid()
      modifies this
      ensures Valid() && Grows()
      ensures old(dispatched) + [payload] <= dispatched
      ensures old(routes) + [RouteOf(unpack, old(callbacks), payload)] <= routes
      ensures received + Flatten(wire) == old(received) + old(Flatten(wire))
      ensures |wire| < |old(wire)| || buffer == old(buffer)
      decreases |wire|, 3
    {
      hide CallbacksFit, PendingFits, Stream, Flatten;
      var callback := Route(payload);
      if callback.Some? {
        RunCallback();
      }
    }

    /** Updates the tables for one payload; a callback that is due has left them already. */
    method Route(payload: Bytes) returns (callback: Option<Callback>)
      requires TablesValid()
      modifies this`dispatched, this`routes, this`callbacks, this`pending
      ensures TablesValid()
      ensures View() == AfterRoute(unpack, old(View()), payload)
      ensures dispatched == old(dispatched) + [payload]
      ensures routes == old(routes) + [RouteOf(unpack, old(callbacks), payload)]
      ensures var route := RouteOf(unpack, old(callbacks), payload);
        callback == if route.ToCallback? then Some(route.callback) else None
    {
      hide CallbacksFit, PendingFits;
      callback := None;
      match Decode(unpack, payload)
      case Notification(_, _) =>
        CallbacksAfterOther(routes, ToHandler, registered, callbacks, nextId);
        Record(payload, ToHandler);
      case Reply(id, body) =>
        if id.Some? && id.value in callbacks {
          callback := Some(callbacks[id.value]);
          CallbacksAfterFiring(routes, id.value, registered, callbacks, nextId);
          callbacks := callbacks - {id.value};
          Record(payload, ToCallback(id.value, callback.value));
        } else {
          CallbacksAfterOther(routes, ToPending(id), registered, callbacks, nextId);
          Record(payload, ToPending(id));
          PendingAfterStore(unpack, dispatched, routes, pending, id, body);
          pending := pending[id := body];
        }
    }

    ghost method Record(payload: Bytes, route: Route)
      requires RoutesFit(unpack, dispatched, routes) && PendingFits(unpack, dispatched, routes, pending)
      requires RouteFits(unpack, payload, route)
      modifies this`dispatched, this`routes
      ensures dispatched == old(dispatched) + [payload] && routes == old(routes) + [route]
      ensures RoutesFit(unpack, dispatched, routes) && PendingFits(unpack, dispatched, routes, pending)
    {
      PendingGrows(unpack, dispatched, routes, pending, payload, route);
      dispatched := dispatched + [payload];
      routes := routes + [route];
    }

    /** Any callback: it may start asynchronous calls, and may wait for output or for replies. */
    method RunCallback()
      requires Valid()
      modifies this
      ensures Valid() && Grows()
      ensures received + Flatten(wire) == old(received) + old(Flatten(wire))
      ensures |wire| < |old(wire)| || buffer == old(buffer)
      decreases |wire|, 2
    {
      var actions: nat := *;
      while actions > 0
        invariant Valid() && Grows()
        invariant received + Flatten(wire) == old(received) + old(Flatten(wire))
        invariant |wire| < |old(wire)| || buffer == old(buffer)
      {
        var callback: nat := *;
        if {
          case true => var _ := CallAsync(callback);
          case true => var _, _, _ := CallWithTimeout();
          case true => AcceptOutput();
        }
        actions := actions - 1;
      }
    }

    /** Waits for output: the next chunk, if one arrives, goes through the filter. */
    method AcceptOutput()
      requires Valid()
      modifies this
      ensures Valid() && Grows()
      ensures received + Flatten(wire) == old(received) + old(Flatten(wire))
      ensures |wire| < |old(wire)| || buffer == old(buffer)
      ensures wire == [] || |wire| < |old(wire)|
      decreases |wire|, 0
    {
      if wire != [] {
        var chunk := wire[0];
        wire := wire[1..];
        AppendAssociative(received, chunk, Flatten(wire));
        Filter(chunk);
      }
    }

    method NextId() returns (id: nat)
      modifies this`nextId
      ensures id == nextId == old(nextId) + 1 && View() == AfterCall(old(View()), None)
    {
      nextId := nextId + 1;
      id := nextId;
    }

    /** Registers the callback under a fresh id before the request is sent. */
    method CallAsync(callback: Callback) returns (id: nat)
      requires Valid()
      modifies this
      ensures Valid() && Grows()
      ensures id == nextId && id !in old(registered) && View() == AfterCall(old(View()), Some(callback))
      ensures unchanged(`buffer, `wire, `received, `dispatched, `routes, `pending)
    {
      id := NextId();
      callbacks := callbacks[id := callback];
      registered := registered[id := callback];
    }

    /** Takes the reply with the given id out of the pending table. */
    method FindResponse(id: nat) returns (body: Option<Bytes>)
      requires Valid()
      modifies this`pending
      ensures Valid()
      ensures body == if Some(id) in old(pending) then Some(old(pending)[Some(id)]) else None
      ensures View() == AfterFind(old(View()), id)
      ensures body.Some? ==> Stored(unpack, dispatched, routes, Some(id), body.value)
    {
      if Some(id) in pending {
        body := Some(pending[Some(id)]);
        pending := pending - {Some(id)};
      } else {
        body := None;
      }
    }

    /** Sends a request and polls for its reply; whether the deadline has passed is asked before every wait. */
    method CallWithTimeout() returns (id: nat, body: Option<Bytes>, expired: bool)
      requires Valid()
      modifies this
      ensures Valid() && Grows()
      ensures received + Flatten(wire) == old(received) + old(Flatten(wire))
      ensures |wire| < |old(wire)| || buffer == old(buffer)
      ensures id > old(nextId)
      ensures body.Some? ==> Stored(unpack, dispatched, routes, Some(id), body.value) && Some(id) !in pending
      ensures body.None? ==> expired || (wire == [] && (old(wire) != [] ==> Some(id) !in pending))
      decreases |wire|, 1
    {
      hide RoutesFit, Stream, Flatten;
      id := NextId();
      body, expired := None, false;
      while body.None? && wire != []
        invariant Valid() && Grows() && id <= nextId
        invariant received + Flatten(wire) == old(received) + old(Flatten(wire))
        invariant |wire| < |old(wire)| || buffer == old(buffer)
        invariant body.Some? ==> Stored(unpack, dispatched, routes, Some(id), body.value) && Some(id) !in pending
        invariant |wire| < |old(wire)| && body.None? ==> Some(id) !in pending
        decreases |wire|
      {
        expired := *;
        if expired {
          break;
        }
        AcceptOutput();
        body := FindResponse(id);
      }
    }
  }
}
