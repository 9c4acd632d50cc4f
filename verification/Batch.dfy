/**
 Several requests at once: pipelined as requests of their own, whose replies arrive in any order, or
 as the parts of one batch request.
 */
module Batch {
  import opened Prelude
  import opened Framing

  const METHOD_NOT_FOUND := -32601
  const INVALID_PARAMS := -32602
  const BATCH := "batch"

  /** Parameters and results are opaque, except for those of the batch method itself. */
  datatype Params = Opaque(bytes: Bytes) | Parts(requests: seq<Request>)
  datatype Request = Request(name: string, params: Params)

  datatype Value = Plain(bytes: Bytes) | PartResults(results: seq<PartResult>)
  datatype PartResult = PartOk(value: Value) | PartError(code: int, message: string)

  datatype RpcError = RpcError(code: int, message: string, data: Option<Bytes>)
  datatype Reply = Success(value: Value) | Failure(error: RpcError)

  /** The handlers by method name, each a function of its parameters; None for an unknown method. */
  type Handlers = (string, Params) -> Option<Reply>

  // ---------------------------------------------------------------- the server

  /** Routing of single requests and of the parts of a batch: a batch is not among the methods. */
  function DispatchInner(handlers: Handlers, r: Request): Reply {
    if r.name == BATCH || handlers(r.name, r.params).None?
    then Failure(RpcError(METHOD_NOT_FOUND, "Method not found: " + r.name, None))
    else handlers(r.name, r.params).value
  }

  function PartOf(reply: Reply): PartResult {
    match reply
    case Success(value) => PartOk(value)
    case Failure(error) => PartError(error.code, error.message)
  }

  function BatchExecute(handlers: Handlers, params: Params): Reply {
    match params
    case Opaque(_) => Failure(RpcError(INVALID_PARAMS, "invalid batch parameters", None))
    case Parts(requests) =>
      Success(PartResults(
        seq(|requests|, i requires 0 <= i < |requests| => PartOf(DispatchInner(handlers, requests[i])))))
  }

  function Dispatch(handlers: Handlers, r: Request): Reply {
    if r.name == BATCH then BatchExecute(handlers, r.params) else DispatchInner(handlers, r)
  }

  // ---------------------------------------------------------------- the client

  /** One element of a result list: a value, or the code and message of an error. */
  datatype Outcome = Result(value: Value) | Error(code: int, message: string)

  function OutcomeOf(reply: Reply): Outcome {
    match reply
    case Success(value) => Result(value)
    case Failure(error) => Error(error.code, error.message)
  }

  function DecodePart(part: PartResult): Outcome {
    match part
    case PartOk(value) => Result(value)
    case PartError(code, message) => Error(code, message)
  }

  /** The result list of the batch call, or None where it signals an error. */
  function CallBatch(handlers: Handlers, requests: seq<Request>): Option<seq<Outcome>> {
    match Dispatch(handlers, Request(BATCH, Parts(requests)))
    case Failure(_) => None
    case Success(Plain(_)) => Some([])
    case Success(PartResults(parts)) => Some(seq(|parts|, i requires 0 <= i < |parts| => DecodePart(parts[i])))
  }

  /** The result list of pipelined calls whose replies all arrived. */
  function PipelinedOutcomes(handlers: Handlers, requests: seq<Request>): seq<Outcome> {
    seq(|requests|, i requires 0 <= i < |requests| => OutcomeOf(Dispatch(handlers, requests[i])))
  }

  /** Both ways give the same list exactly when no request is itself a batch. */
  lemma BatchEqualsPipelinedIff(handlers: Handlers, requests: seq<Request>)
    ensures CallBatch(handlers, requests) == Some(PipelinedOutcomes(handlers, requests))
       <==> forall i :: 0 <= i < |requests| ==> requests[i].name != BATCH
  {
    var batch := CallBatch(handlers, requests).value;
    var single := PipelinedOutcomes(handlers, requests);
    forall i | 0 <= i < |requests|
      ensures batch[i] == single[i] <==> requests[i].name != BATCH
    {
      if requests[i].name == BATCH {
        assert batch[i] == Error(METHOD_NOT_FOUND, "Method not found: " + BATCH);
        assert requests[i].params.Opaque? ==> single[i].code == INVALID_PARAMS;
      }
    }
    if forall i :: 0 <= i < |requests| ==> requests[i].name != BATCH {
      assert batch == single;
    }
  }

  /** What a request yields: its own handler's answer to its own parameters, or that there is no such method. */
  function Expected(handlers: Handlers, r: Request): Outcome {
    match handlers(r.name, r.params)
    case Some(Success(value)) => Result(value)
    case Some(Failure(error)) => Error(error.code, error.message)
    case None => Error(-32601, "Method not found: " + r.name)
  }

  /** Element i of both lists is what request i yields, unless it is itself a batch. */
  lemma EachRequestGetsItsAnswer(handlers: Handlers, requests: seq<Request>, i: nat)
    requires i < |requests| && requests[i].name != "batch"
    ensures CallBatch(handlers, requests).Some? && |CallBatch(handlers, requests).value| == |requests|
    ensures |PipelinedOutcomes(handlers, requests)| == |requests|
    ensures CallBatch(handlers, requests).value[i] == Expected(handlers, requests[i])
    ensures PipelinedOutcomes(handlers, requests)[i] == Expected(handlers, requests[i])
  {
  }

  /** A batch within a batch is an unknown method; a request of its own, it needs parts. */
  lemma BatchIsNoMethodOfItself(handlers: Handlers, requests: seq<Request>, i: nat)
    requires i < |requests| && requests[i].name == "batch"
    ensures CallBatch(handlers, requests).value[i] == Error(-32601, "Method not found: batch")
    ensures requests[i].params.Opaque? ==> PipelinedOutcomes(handlers, requests)[i].Error?
    ensures requests[i].params.Parts? ==>
      PipelinedOutcomes(handlers, requests)[i].Result? && PipelinedOutcomes(handlers, requests)[i].value.PartResults?
      && |PipelinedOutcomes(handlers, requests)[i].value.results| == |requests[i].params.requests|
  {
  }

  // ---------------------------------------------------------------- receiving pipelined replies

  /** The replies that come in with one poll, for whichever requests. */
  type Arrivals = seq<(nat, Reply)>

  function ArriveAll(pending: map<nat, Reply>, arrivals: Arrivals): map<nat, Reply> {
    if arrivals == [] then pending
    else ArriveAll(pending, arrivals[..|arrivals| - 1])[arrivals[|arrivals| - 1].0 := arrivals[|arrivals| - 1].1]
  }

  predicate DistinctIds(ids: seq<nat>) {
    forall i, j :: 0 <= i < j < |ids| ==> ids[i] != ids[j]
  }

  function WithoutId(ids: seq<nat>, id: nat): (r: seq<nat>)
    ensures forall x :: x in r <==> x in ids && x != id
    ensures |r| <= |ids|
  {
    if ids == [] then []
    else
      var rest := WithoutId(ids[1..], id);
      assert ids == [ids[0]] + ids[1..];
      if ids[0] == id then rest else [ids[0]] + rest
  }

  predicate Among(arrivals: Arrivals, id: nat) {
    exists i :: 0 <= i < |arrivals| && arrivals[i].0 == id
  }

  /** Every reply is the one that was meant for its id. */
  ghost predicate Faithful(arrivals: Arrivals, answer: map<nat, Reply>) {
    forall i :: 0 <= i < |arrivals| && arrivals[i].0 in answer ==> arrivals[i].1 == answer[arrivals[i].0]
  }

  lemma {:induction false} ArriveAllFaithful(pending: map<nat, Reply>, arrivals: Arrivals, answer: map<nat, Reply>)
    requires Faithful(arrivals, answer)
    requires forall id :: id in pending && id in answer ==> pending[id] == answer[id]
    ensures var after := ArriveAll(pending, arrivals);
      && (forall id :: id in after <==> id in pending || Among(arrivals, id))
      && (forall id :: id in after && id in answer ==> after[id] == answer[id])
  {
    if arrivals != [] {
      var last := |arrivals| - 1;
      ArriveAllFaithful(pending, arrivals[..last], answer);
      forall id | Among(arrivals, id)
        ensures id == arrivals[last].0 || Among(arrivals[..last], id)
      {
        var i :| 0 <= i < |arrivals| && arrivals[i].0 == id;
        assert i < last ==> arrivals[..last][i].0 == id;
      }
      forall id | Among(arrivals[..last], id)
        ensures Among(arrivals, id)
      {
        var i :| 0 <= i < |arrivals[..last]| && arrivals[..last][i].0 == id;
        assert arrivals[i].0 == id;
      }
      assert Among(arrivals, arrivals[last].0);
    }
  }

  ghost predicate Arrives(polls: seq<Arrivals>, id: nat) {
    exists p :: 0 <= p < |polls| && Among(polls[p], id)
  }

  /**
   Polls until all the ids have been found or the deadline, the end of the polls, has passed.  The
   list comes out in the order of the ids, whatever the order of arrival.
   */
  method ReceiveResponses(ids: seq<nat>, polls: seq<Arrivals>, ghost answer: map<nat, Reply>)
    returns (responses: seq<(nat, Option<Reply>)>)
    requires DistinctIds(ids) && forall id :: id in ids ==> id in answer
    requires forall p :: 0 <= p < |polls| ==> Faithful(polls[p], answer)
    ensures |responses| == |ids|
    ensures forall i :: 0 <= i < |ids| ==> responses[i].0 == ids[i]
    ensures forall i :: 0 <= i < |ids| ==>
      responses[i].1 == if Arrives(polls, ids[i]) then Some(answer[ids[i]]) else None
  {
    var remaining := ids;
    var pending: map<nat, Reply> := map[];
    var found: map<nat, Reply> := map[];
    var polled := 0;
    assert forall id :: id in ids ==> !Arrives(polls[..polled], id);
    hide Arrives, Among, Faithful, ArriveAll, WithoutId;
    while remaining != [] && polled < |polls|
      invariant polled <= |polls|
      invariant forall id :: id in remaining ==> id in ids && id !in pending
      invariant forall id :: id in ids && id !in remaining ==> id in found
      invariant forall id :: id in pending && id in answer ==> pending[id] == answer[id]
      invariant forall id :: id in found ==> id in answer && found[id] == answer[id] && id !in remaining
      invariant forall id :: id in ids ==> (id in found ==> Arrives(polls, id))
      invariant forall id :: id in remaining ==> !Arrives(polls[..polled], id)
      decreases |polls| - polled
    {
      ghost var before := pending;
      ArriveAllFaithful(pending, polls[polled], answer);
      pending := ArriveAll(pending, polls[polled]);
      ArrivedNow(polls, polled);
      polled := polled + 1;
      var snapshot := remaining;
      for k := 0 to |snapshot|
        invariant forall id :: id in remaining ==> id in snapshot && id in ids
        invariant forall id :: id in snapshot[k..] ==> id in remaining || id in found
        invariant forall id :: id in remaining && id !in snapshot[k..] ==> id !in pending
        invariant forall id :: id in ids && id !in remaining ==> id in found
        invariant forall id :: id in pending && id in answer ==> pending[id] == answer[id]
        invariant forall id :: id in pending && id in remaining ==> Arrives(polls, id)
        invariant forall id :: id in found ==> id in answer && found[id] == answer[id] && id !in remaining
        invariant forall id :: id in ids ==> (id in found ==> Arrives(polls, id))
        invariant forall id :: id in remaining ==> !Arrives(polls[..polled - 1], id)
        invariant forall id :: id in remaining && id !in pending ==> !Arrives(polls[..polled], id)
      {
        var id := snapshot[k];
        assert snapshot[k..] == [id] + snapshot[k + 1..];
        if id in pending && id in remaining {
          found := found[id := pending[id]];
          pending := pending - {id};
          remaining := WithoutId(remaining, id);
        }
      }
    }
    assert polled == |polls| ==> polls[..polled] == polls;
    responses := seq(|ids|, i requires 0 <= i < |ids| =>
      (ids[i], if ids[i] in found then Some(found[ids[i]]) else None));
  }

  lemma ArrivedNow(polls: seq<Arrivals>, p: nat)
    requires p < |polls|
    ensures forall id :: Arrives(polls[..p + 1], id) <==> Arrives(polls[..p], id) || Among(polls[p], id)
    ensures forall id :: Arrives(polls[..p + 1], id) ==> Arrives(polls, id)
  {
    var upTo := polls[..p + 1];
    assert upTo == polls[..p] + [polls[p]];
    forall id | Arrives(upTo, id)
      ensures Arrives(polls, id) && (Arrives(polls[..p], id) || Among(polls[p], id))
    {
      var q :| 0 <= q < |upTo| && Among(upTo[q], id);
      assert upTo[q] == polls[q];
      assert q < p ==> polls[..p][q] == polls[q];
    }
    forall id | Arrives(polls[..p], id) || Among(polls[p], id)
      ensures Arrives(upTo, id)
    {
      if Among(polls[p], id) {
        assert upTo[p] == polls[p];
      } else {
        var q :| 0 <= q < |polls[..p]| && Among(polls[..p][q], id);
        assert upTo[q] == polls[..p][q];
      }
    }
  }

  /** Numbers the requests consecutively and sends them all before any reply is awaited. */
  method SendRequests(requests: seq<Request>, lastId: nat) returns (ids: seq<nat>)
    ensures |ids| == |requests| && forall i :: 0 <= i < |ids| ==> ids[i] == lastId + 1 + i
  {
    ids := [];
    for i := 0 to |requests|
      invariant |ids| == i && forall k :: 0 <= k < i ==> ids[k] == lastId + 1 + k
    {
      ids := ids + [lastId + 1 + i];
    }
  }

  /**
   Result i belongs to request i under any order of arrival, with foreign replies in between; a
   reply that does not arrive in time shows as an absent result.
   */
  method CallPipelined(handlers: Handlers, requests: seq<Request>, lastId: nat, polls: seq<Arrivals>)
    returns (outcomes: seq<Option<Outcome>>)
    requires forall p, k :: 0 <= p < |polls| && 0 <= k < |polls[p]| && lastId < polls[p][k].0 <= lastId + |requests| ==>
      polls[p][k].1 == Dispatch(handlers, requests[polls[p][k].0 - lastId - 1])
    ensures |outcomes| == |requests|
    ensures forall i :: 0 <= i < |requests| ==>
      outcomes[i] == if Arrives(polls, lastId + 1 + i) then Some(PipelinedOutcomes(handlers, requests)[i]) else None
  {
    var ids := SendRequests(requests, lastId);
    ghost var answer := map id | id in ids :: Dispatch(handlers, requests[id - lastId - 1]);
    var responses := ReceiveResponses(ids, polls, answer);
    outcomes := seq(|responses|, i requires 0 <= i < |responses| =>
      if responses[i].1.Some? then Some(OutcomeOf(responses[i].1.value)) else None);
  }
}
