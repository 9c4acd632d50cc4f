/**
 The server's request loop: it reads frames from its standard input, hands each payload to a task
 of its own, and skips frames that are too large while staying aligned with the frame boundaries.
 */
module ServerLoop {
  import opened Prelude
  import opened Framing

  const MAX_MESSAGE := 100 * 1024 * 1024
  const DISCARD_BUFFER := 8192

  /** The payloads a whole input should yield: those of its complete frames that are not too large. */
  function Accepted(payloads: seq<Bytes>): seq<Bytes> {
    if payloads == [] then []
    else (if |payloads[0]| <= MAX_MESSAGE then [payloads[0]] else []) + Accepted(payloads[1..])
  }

  /** Reading at a position is reading the front of the bytes from there on. */
  lemma TryReadAt(data: Bytes, start: nat)
    requires start + PREFIX_LENGTH <= |data|
    ensures var body := start + PREFIX_LENGTH;
      var end := body + DecodeLength(data[start..body]);
      if end <= |data| then TryRead(data[start..]) == Some(data[body..end]) && Rest(data[start..]) == data[end..]
      else TryRead(data[start..]) == None
  {
    var unread := data[start..];
    assert unread[..PREFIX_LENGTH] == data[start..start + PREFIX_LENGTH];
    var length := DecodeLength(unread[..PREFIX_LENGTH]);
    if PREFIX_LENGTH + length <= |unread| {
      assert unread[PREFIX_LENGTH..PREFIX_LENGTH + length]
          == data[start + PREFIX_LENGTH..start + PREFIX_LENGTH + length];
      assert unread[PREFIX_LENGTH + length..] == data[start + PREFIX_LENGTH + length..];
    }
  }

  /** What the loop still has to spawn when it stands at a position. */
  function ToSpawn(data: Bytes, position: nat): seq<Bytes>
    requires position <= |data|
  {
    Accepted(Messages(data[position..]))
  }

  lemma ToSpawnAt(data: Bytes, start: nat)
    requires start <= |data|
    ensures |data| < start + PREFIX_LENGTH ==> ToSpawn(data, start) == []
    ensures start + PREFIX_LENGTH <= |data| ==>
      var body := start + PREFIX_LENGTH;
      var end := body + DecodeLength(data[start..body]);
      ToSpawn(data, start) ==
        if end > |data| then []
        else (if end - body <= MAX_MESSAGE then [data[body..end]] else []) + ToSpawn(data, end)
  {
    if start + PREFIX_LENGTH <= |data| {
      TryReadAt(data, start);
    }
  }

  /** Standard input up to its end, with the position of the next unread byte. */
  class Stdin {
    const data: Bytes
    var position: nat

    ghost predicate Valid()
      reads this
    {
      position <= |data|
    }

    constructor (data: Bytes)
      ensures Valid() && this.data == data && position == 0
    {
      this.data := data;
      position := 0;
    }

    /** Reads exactly n bytes, or fails at the end of the input after consuming what was left. */
    method ReadExact(n: nat) returns (r: Option<Bytes>)
      requires Valid()
      modifies this
      ensures Valid()
      ensures r.Some? <==> old(position) + n <= |data|
      ensures r.Some? ==> r.value == data[old(position)..old(position) + n] && position == old(position) + n
      ensures r.None? ==> position == |data|
    {
      if position + n <= |data| {
        r := Some(data[position..position + n]);
        position := position + n;
      } else {
        position := |data|;
        r := None;
      }
    }

    /** Drops a payload piece by piece, so that no buffer of its full size is ever needed. */
    method Discard(length: nat)
      requires Valid()
      modifies this
      ensures Valid()
      ensures position == if old(position) + length <= |data| then old(position) + length else |data|
    {
      var remaining := length;
      while remaining > 0
        invariant Valid() && 0 <= remaining <= length
        invariant position + remaining == old(position) + length
      {
        var toRead := if remaining < DISCARD_BUFFER then remaining else DISCARD_BUFFER;
        var piece := ReadExact(toRead);
        if piece.None? {
          break;
        }
        remaining := remaining - toRead;
      }
    }

    /**
     The main loop.  On return the input is used up; what was spawned are the acceptable payloads
     among its complete frames, in order.
     */
    method Serve() returns (spawned: seq<Bytes>)
      requires Valid() && position == 0
      modifies this
      ensures Valid() && position == |data|
      ensures spawned == Accepted(Messages(data))
    {
      hide Messages, Accepted;
      spawned := [];
      ghost var all := ToSpawn(data, 0);
      assert data[0..] == data;
      while true
        invariant Valid()
        invariant spawned + ToSpawn(data, position) == all
        decreases |data| - position
      {
        ToSpawnAt(data, position);
        var prefix := ReadExact(PREFIX_LENGTH);
        if prefix.None? {
          break;
        }
        var length := DecodeLength(prefix.value);
        if length > MAX_MESSAGE {
          Discard(length);
          ToSpawnAt(data, |data|);
          continue;
        }
        var payload := ReadExact(length);
        if payload.None? {
          break;
        }
        AppendAssociative(spawned, [payload.value], ToSpawn(data, position));
        spawned := spawned + [payload.value];
      }
    }
  }

  /** Each payload is spawned as often as it was framed if it is acceptable, and never otherwise. */
  lemma {:induction false} AcceptedMembers(payloads: seq<Bytes>)
    ensures forall p :: multiset(Accepted(payloads))[p] == if |p| <= 100 * 1024 * 1024 then multiset(payloads)[p] else 0
  {
    if payloads != [] {
      AcceptedMembers(payloads[1..]);
      assert payloads == [payloads[0]] + payloads[1..];
      assert multiset(payloads) == multiset{payloads[0]} + multiset(payloads[1..]);
    }
  }

  /** Payloads keep their order: what comes from the earlier requests is spawned first. */
  lemma {:induction false} AcceptedInOrder(earlier: seq<Bytes>, later: seq<Bytes>)
    ensures Accepted(earlier + later) == Accepted(earlier) + Accepted(later)
  {
    if earlier == [] {
      assert earlier + later == later;
    } else {
      assert (earlier + later)[1..] == earlier[1..] + later;
      AcceptedInOrder(earlier[1..], later);
    }
  }

  /** End to end: what the client frames, the server's tasks receive, except for oversized requests. */
  lemma ServesWhatWasFramed(requests: seq<Bytes>, cut: Bytes)
    requires Frameable(requests) && TryRead(cut).None?
    ensures Accepted(Messages(Stream(requests) + cut)) == Accepted(requests)
  {
    MessagesOfStream(requests, cut);
  }
}
