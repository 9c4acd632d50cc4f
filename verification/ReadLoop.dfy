/**
 The client's side of the chained read loop for one remote process: a reply delivers its output and
 starts the next read, both through timers, until a reply reports the exit of the process.
 */
module ReadLoop {
  import opened Prelude
  import opened Framing

  /** What one process.read returned from the two output pipes. */
  datatype Chunk = Chunk(out: Bytes, err: Bytes)

  datatype Response = Response(chunk: Chunk, exited: bool, exitCode: int)

  datatype Timer = DeliverLater(chunk: Chunk) | ReadLater | ExitLater(exitCode: int)

  datatype Client = Client(
    tracked: bool,         // the process is in the table of asynchronous processes
    relayAlive: bool,      // the local relay process runs
    exited: bool,          // exit handling is done; the process no longer counts as live
    exitCode: Option<int>,
    separate: bool,        // standard error was given a relay of its own
    errorRelayAlive: bool, // and that relay runs
    timers: seq<Timer>,
    requests: nat,         // process.read requests sent so far
    relay: Bytes,
    errorRelay: Bytes,
    eof: bool)

  predicate Live(c: Client) {
    c.relayAlive && !c.exited
  }

  /** Standard error goes its own way; this is decided anew at every delivery. */
  predicate Separates(c: Client) {
    c.separate && c.errorRelayAlive && c.tracked
  }

  predicate IsEmpty(chunk: Chunk) {
    chunk.out == [] && chunk.err == []
  }

  function StartRead(c: Client): Client {
    if Live(c) && c.tracked then c.(requests := c.requests + 1) else c
  }

  function Deliver(c: Client, chunk: Chunk): (d: Client)
    ensures d == c.(relay := d.relay, errorRelay := d.errorRelay)
  {
    if !Live(c) then c
    else if Separates(c) then c.(relay := c.relay + chunk.out, errorRelay := c.errorRelay + chunk.err)
    else c.(relay := c.relay + (chunk.out + chunk.err))
  }

  function HandleExit(c: Client, exitCode: int): Client {
    if c.tracked then c.(exitCode := Some(exitCode), eof := c.eof || Live(c), exited := true) else c
  }

  /** A reply whose output cannot be decoded ends the loop through the error handler. */
  function HandleResponse(c: Client, r: Response, decodes: bool): Client {
    if !(Live(c) && c.tracked) then c
    else if !decodes then c.(timers := c.timers + [ExitLater(-1)])
    else if r.exited then HandleExit(if IsEmpty(r.chunk) then c else Deliver(c, r.chunk), r.exitCode)
    else c.(timers := c.timers + (if IsEmpty(r.chunk) then [] else [DeliverLater(r.chunk)]) + [ReadLater])
  }

  function RunTimer(c: Client): Client
    requires c.timers != []
  {
    var rest := c.(timers := c.timers[1..]);
    match c.timers[0]
    case DeliverLater(chunk) => Deliver(rest, chunk)
    case ReadLater => StartRead(rest)
    case ExitLater(exitCode) => HandleExit(rest, exitCode)
  }

  class LocalProcess {
    var tracked: bool
    var relayAlive: bool
    var exited: bool
    var exitCode: Option<int>
    const separate: bool
    var errorRelayAlive: bool
    var timers: seq<Timer>
    var requests: nat
    var relay: Bytes
    var errorRelay: Bytes
    var eof: bool

    ghost function View(): Client
      reads this
    {
      Client(tracked, relayAlive, exited, exitCode, separate, errorRelayAlive, timers, requests, relay, errorRelay, eof)
    }

    predicate IsLive()
      reads this
    {
      relayAlive && !exited
    }

    /** Starting a remote process tracks its relay and sends the first read. */
    constructor (separate: bool)
      ensures View() == StartRead(Client(true, true, false, None, separate, separate, [], 0, [], [], false))
    {
      this.separate, errorRelayAlive := separate, separate;
      tracked, relayAlive, exited, exitCode := true, true, false, None;
      timers, relay, errorRelay, eof := [], [], [], false;
      requests := 1;
    }

    method StartAsyncRead()
      modifies this
      ensures View() == StartRead(old(View()))
    {
      if IsLive() && tracked {
        requests := requests + 1;
      }
    }

    method DeliverProcessOutput(stdout: Bytes, stderr: Bytes)
      modifies this
      ensures View() == Deliver(old(View()), Chunk(stdout, stderr))
    {
      if IsLive() {
        if |stdout| > 0 {
          relay := relay + stdout;
        }
        if |stderr| > 0 {
          if separate && errorRelayAlive && tracked {
            errorRelay := errorRelay + stderr;
          } else {
            relay := relay + stderr;
          }
        }
        AppendAssociative(old(relay), stdout, stderr);
      }
    }

    method HandleAsyncReadResponse(response: Response, decodes: bool)
      modifies this
      ensures View() == HandleResponse(old(View()), response, decodes)
    {
      if IsLive() && tracked {
        if !decodes {
          timers := timers + [ExitLater(-1)];
          return;
        }
        var chunk := response.chunk;
        if response.exited {
          if chunk.out != [] || chunk.err != [] {
            DeliverProcessOutput(chunk.out, chunk.err);
          }
          HandleProcessExit(response.exitCode);
        } else {
          if chunk.out != [] || chunk.err != [] {
            timers := timers + [DeliverLater(chunk)];
          }
          timers := timers + [ReadLater];
        }
      }
    }

    /** The order matters: the exit mark makes the process non-live, so the EOF goes first. */
    method HandleProcessExit(code: int)
      modifies this
      ensures View() == HandleExit(old(View()), code)
    {
      if tracked {
        exitCode := Some(code);
        if IsLive() {
          eof := true;
        }
        exited := true;
      }
    }

    method RunNextTimer()
      requires timers != []
      modifies this
      ensures View() == RunTimer(old(View()))
    {
      var timer := timers[0];
      timers := timers[1..];
      match timer
      case DeliverLater(chunk) => DeliverProcessOutput(chunk.out, chunk.err);
      case ReadLater => StartAsyncRead();
      case ExitLater(code) => HandleProcessExit(code);
    }
  }
}
