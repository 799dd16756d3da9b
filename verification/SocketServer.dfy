/** The receiving side (src/metrics_application/socket_server.cpp) against an arbitrary
    trace of what poll and recv report. */
module SocketServers {
  // recv returns some bytes (none: the peer has closed), would block, or fails.
  datatype RecvResult = Bytes(data: string) | WouldBlock | Failed

  // One round of run: poll fails, is interrupted, times out, or reports events; results
  // are the recv results of the round's handle_recv.
  datatype PollResult = PollFailed | Interrupted | TimedOut
    | Ready(readable: bool, hangup: bool, results: seq<RecvResult>)

  // received is every byte recv returned; delivered is every batch given to the callback.
  datatype Server = Server(
    buffer: string, running: bool, clientFd: int, serverFd: int, hasCallback: bool,
    received: string, delivered: seq<string>)

  // How handle_recv ends; StillReading: the trace ends inside its loop.
  datatype Exit = Drained | Stopped | StillReading

  function Shut(s: Server): Server {
    s.(running := false, clientFd := -1, serverFd := -1)
  }

  function RecvLoop(s: Server, results: seq<RecvResult>): (Server, Exit)
    decreases |results|
  {
    if results == [] then (s, StillReading)
    else match results[0]
      case WouldBlock => (s, Drained)
      case Failed => (Shut(s), Stopped)
      case Bytes(data) =>
        if data == "" then (Shut(s), Stopped)
        else RecvLoop(s.(buffer := s.buffer + data, received := s.received + data), results[1..])
  }

  function Flushed(s: Server): Server {
    if s.buffer == "" then s
    else s.(buffer := "", delivered := if s.hasCallback then s.delivered + [s.buffer] else s.delivered)
  }

  function RecvCall(s: Server, results: seq<RecvResult>): (Server, Exit) {
    var (s', exit) := RecvLoop(s, results);
    if exit.Drained? then (Flushed(s'), exit) else (s', exit)
  }

  // The flag says that the trace ends inside a handle_recv that is still reading.
  function RunLoop(s: Server, polls: seq<PollResult>): (Server, bool)
    decreases |polls|
  {
    if !s.running || polls == [] then (s, false)
    else match polls[0]
      case PollFailed => (s, false)
      case Interrupted => RunLoop(s, polls[1..])
      case TimedOut => RunLoop(s, polls[1..])
      case Ready(readable, hangup, results) =>
        var (s', exit) := if readable then RecvCall(s, results) else (s, Drained);
        if exit.StillReading? then (s', true)
        else if hangup then (s', false)
        else RunLoop(s', polls[1..])
  }

  function Concat(batches: seq<string>): string {
    if batches == [] then "" else Concat(batches[..|batches| - 1]) + batches[|batches| - 1]
  }

  // --------------------------------------------------------------- conservation

  ghost predicate Conserved(s: Server) {
    Concat(s.delivered) + s.buffer == s.received
  }

  // What one call reads: the bytes up to the first result that ends the loop.
  function BytesRead(results: seq<RecvResult>): string {
    if results == [] then "" else
    match results[0]
    case Bytes(data) => if data == "" then "" else data + BytesRead(results[1..])
    case _ => ""
  }

  lemma {:induction false} RecvLoopReads(s: Server, results: seq<RecvResult>)
    ensures
      var (s', exit) := RecvLoop(s, results);
      && s'.buffer == s.buffer + BytesRead(results) && s'.received == s.received + BytesRead(results)
      && s'.delivered == s.delivered && s'.hasCallback == s.hasCallback
      && s'.running == (s.running && !exit.Stopped?)
    decreases |results|
  {
    if results != [] && results[0].Bytes? && results[0].data != "" {
      var data := results[0].data;
      RecvLoopReads(s.(buffer := s.buffer + data, received := s.received + data), results[1..]);
    }
  }

  lemma ReadConserves(s: Server, s': Server, data: string)
    requires Conserved(s) && s'.delivered == s.delivered
    requires s'.buffer == s.buffer + data && s'.received == s.received + data
    ensures Conserved(s')
  {
  }

  lemma FlushConserves(s: Server)
    requires Conserved(s) && s.hasCallback
    ensures Conserved(Flushed(s))
  {
  }

  /** Receive conservation of one call: whatever recv returns, bytes delivered followed by
      the buffer are the bytes received. A would-block exit leaves the buffer empty and has
      delivered everything read as one batch; a disconnect or an error delivers nothing and
      leaves exactly the bytes read in this call on top of the buffer. */
  lemma HandleRecvConserves(s: Server, results: seq<RecvResult>)
    requires s.hasCallback && Conserved(s)
    ensures
      var (s', exit) := RecvCall(s, results);
      && s'.hasCallback && Conserved(s') && s'.received == s.received + BytesRead(results)
      && s'.running == (s.running && !exit.Stopped?)
      && (exit.Drained? ==>
            && s'.buffer == ""
            && s'.delivered == if s.buffer + BytesRead(results) == "" then s.delivered
                               else s.delivered + [s.buffer + BytesRead(results)])
      && (!exit.Drained? ==> s'.delivered == s.delivered && s'.buffer == s.buffer + BytesRead(results))
  {
    hide RecvLoop, BytesRead, Conserved;
    RecvLoopReads(s, results);
    var (s', exit) := RecvLoop(s, results);
    ReadConserves(s, s', BytesRead(results));
    FlushConserves(s');
  }

  // Every result before the one that ends the loop is some bytes, and that one is
  // would-block.
  predicate DrainsFirst(results: seq<RecvResult>) {
    results != [] &&
    match results[0]
    case WouldBlock => true
    case Failed => false
    case Bytes(data) => data != "" && DrainsFirst(results[1..])
  }

  lemma {:induction false} DrainsFirstIsDrained(s: Server, results: seq<RecvResult>)
    ensures RecvCall(s, results).1.Drained? <==> DrainsFirst(results)
    decreases |results|
  {
    if results != [] && results[0].Bytes? && results[0].data != "" {
      var data := results[0].data;
      DrainsFirstIsDrained(s.(buffer := s.buffer + data, received := s.received + data), results[1..]);
    }
  }

  /** When everything reaches the callback, exactly: a call started with an empty buffer
      has delivered all bytes received so far if and only if recv reports would-block
      before it reports the end of the stream or an error, or nothing was read at all. A
      batch that is followed by a disconnect or an error within the same call is dropped. */
  lemma CallDeliversAllExactly(s: Server, results: seq<RecvResult>)
    requires s.hasCallback && Conserved(s) && s.buffer == ""
    ensures
      var s' := RecvCall(s, results).0;
      Concat(s'.delivered) == s'.received <==> DrainsFirst(results) || BytesRead(results) == ""
  {
    hide RecvCall, RecvLoop, BytesRead, Concat, DrainsFirst;
    HandleRecvConserves(s, results);
    DrainsFirstIsDrained(s, results);
    var s' := RecvCall(s, results).0;
    assert |Concat(s'.delivered) + s'.buffer| == |Concat(s'.delivered)| + |s'.buffer|;
    assert Concat(s'.delivered) + "" == Concat(s'.delivered);
  }

  /** A concrete loss: one byte arrives and the peer closes before the next recv. The call
      has read the byte and stopped the server, the callback has not seen it, and it stays
      in the buffer for ever. */
  lemma LastBatchIsLost(s: Server, polls: seq<PollResult>)
    requires s.hasCallback && s.running && s.buffer == ""
    ensures
      var s' := RunLoop(s, [Ready(true, false, [Bytes("x"), Bytes("")])] + polls).0;
      && s'.received == s.received + "x" && s'.delivered == s.delivered && s'.buffer == "x" && !s'.running
  {
  }

  // No batch given to the callback is empty.
  predicate NoEmptyBatch(delivered: seq<string>) {
    forall i :: 0 <= i < |delivered| ==> delivered[i] != ""
  }

  /** The callback is never called with nothing. */
  lemma {:induction false} BatchesAreNonEmpty(s: Server, polls: seq<PollResult>)
    requires NoEmptyBatch(s.delivered)
    ensures NoEmptyBatch(RunLoop(s, polls).0.delivered)
    decreases |polls|
  {
    hide RecvLoop;
    if s.running && polls != [] && !polls[0].PollFailed? {
      var s' := s;
      if polls[0].Ready? && polls[0].readable {
        RecvLoopReads(s, polls[0].results);
        s' := RecvCall(s, polls[0].results).0;
      }
      BatchesAreNonEmpty(s', polls[1..]);
    }
  }

  ghost predicate ReadInOneCall(polls: seq<PollResult>, data: string) {
    exists poll :: poll in polls && poll.Ready? && poll.readable && BytesRead(poll.results) == data
  }

  lemma LaterCall(polls: seq<PollResult>, data: string)
    requires polls != [] && ReadInOneCall(polls[1..], data)
    ensures ReadInOneCall(polls, data)
  {
  }

  lemma NothingYet(s: Server)
    requires s.delivered == [] && s.buffer == "" && s.received == ""
    ensures Conserved(s)
  {
  }

  /** Receive conservation over whole runs of the server, whatever poll and recv report:
      bytes delivered followed by the buffer are the bytes received; between calls of a
      running server the buffer is empty; and what a stopped server has left undelivered
      was read in one single call. */
  lemma {:induction false} RunConserves(s: Server, polls: seq<PollResult>)
    requires s.hasCallback && Conserved(s) && s.buffer == ""
    ensures
      var (s', reading) := RunLoop(s, polls);
      && Conserved(s')
      && (s'.running && !reading ==> s'.buffer == "")
      && (s'.buffer == "" || ReadInOneCall(polls, s'.buffer))
    decreases |polls|
  {
    hide RecvCall, Conserved, BytesRead;
    if s.running && polls != [] {
      match polls[0]
      case PollFailed =>
      case Interrupted => RunRestConserves(s, polls);
      case TimedOut => RunRestConserves(s, polls);
      case Ready(readable, hangup, results) =>
        if readable {
          HandleRecvConserves(s, results);
          var (s', exit) := RecvCall(s, results);
          assert s.buffer + BytesRead(results) == BytesRead(results);
          if exit.Drained? && !hangup {
            RunRestConserves(s', polls);
          } else if !exit.Drained? {
            assert polls[0] in polls && ReadInOneCall(polls, BytesRead(results));
          }
        } else if !hangup {
          RunRestConserves(s, polls);
        }
    }
  }

  lemma RunRestConserves(s: Server, polls: seq<PollResult>)
    requires s.hasCallback && Conserved(s) && s.buffer == "" && polls != []
    ensures
      var (s', reading) := RunLoop(s, polls[1..]);
      && Conserved(s')
      && (s'.running && !reading ==> s'.buffer == "")
      && (s'.buffer == "" || ReadInOneCall(polls, s'.buffer))
    decreases |polls|, 0
  {
    hide Conserved;
    RunConserves(s, polls[1..]);
    var (s', _) := RunLoop(s, polls[1..]);
    if s'.buffer != "" {
      LaterCall(polls, s'.buffer);
    }
  }

  // ------------------------------------------------------ a run, from the trace alone

  // The rounds in which the server reads: the readable ones up to the first failing poll,
  // hangup, or call that does not come back with would-block. Idle rounds are passed over.
  function ReadingRounds(polls: seq<PollResult>): seq<seq<RecvResult>> {
    if polls == [] then [] else
    match polls[0]
    case PollFailed => []
    case Interrupted => ReadingRounds(polls[1..])
    case TimedOut => ReadingRounds(polls[1..])
    case Ready(readable, hangup, results) =>
      (if readable then [results] else [])
      + if hangup || (readable && !DrainsFirst(results)) then [] else ReadingRounds(polls[1..])
  }

  function BytesOf(rounds: seq<seq<RecvResult>>): string {
    if rounds == [] then "" else BytesRead(rounds[0]) + BytesOf(rounds[1..])
  }

  // One batch for each round that drains the socket and has read anything.
  function BatchesOf(rounds: seq<seq<RecvResult>>): seq<string> {
    if rounds == [] then [] else
    (if DrainsFirst(rounds[0]) && BytesRead(rounds[0]) != "" then [BytesRead(rounds[0])] else [])
    + BatchesOf(rounds[1..])
  }

  // The results run out while the call is still reading.
  predicate StillReads(results: seq<RecvResult>) {
    results == [] || (results[0].Bytes? && results[0].data != "" && StillReads(results[1..]))
  }

  lemma {:induction false} RecvLoopExit(s: Server, results: seq<RecvResult>)
    ensures RecvLoop(s, results).1 ==
            if DrainsFirst(results) then Drained else if StillReads(results) then StillReading else Stopped
    ensures
      var s' := RecvLoop(s, results).0;
      (s'.clientFd, s'.serverFd) ==
      if DrainsFirst(results) || StillReads(results) then (s.clientFd, s.serverFd) else (-1, -1)
    decreases |results|
  {
    if results != [] && results[0].Bytes? && results[0].data != "" {
      var data := results[0].data;
      RecvLoopExit(s.(buffer := s.buffer + data, received := s.received + data), results[1..]);
    }
  }

  lemma RecvCallExactly(s: Server, results: seq<RecvResult>)
    requires s.buffer == ""
    ensures
      var (s', exit) := RecvCall(s, results);
      var data := BytesRead(results);
      && exit == (if DrainsFirst(results) then Drained else if StillReads(results) then StillReading else Stopped)
      && s'.received == s.received + data && s'.hasCallback == s.hasCallback
      && s'.running == (s.running && !exit.Stopped?)
      && (s'.clientFd, s'.serverFd) == (if exit.Stopped? then (-1, -1) else (s.clientFd, s.serverFd))
      && s'.buffer == (if DrainsFirst(results) then "" else data)
      && s'.delivered == s.delivered + if DrainsFirst(results) && data != "" && s.hasCallback then [data] else []
  {
    hide RecvLoop, BytesRead, DrainsFirst, StillReads;
    RecvLoopReads(s, results);
    RecvLoopExit(s, results);
    assert s.buffer + BytesRead(results) == BytesRead(results);
    assert s.delivered + [] == s.delivered;
  }

  // A run from s that reads these rounds has come to s'.
  predicate HasRead(s: Server, rounds: seq<seq<RecvResult>>, s': Server, reading: bool) {
    && s'.received == s.received + BytesOf(rounds)
    && s'.delivered == s.delivered + (if s.hasCallback then BatchesOf(rounds) else [])
    && s'.buffer == (if rounds == [] || DrainsFirst(rounds[|rounds| - 1]) then "" else BytesRead(rounds[|rounds| - 1]))
    && (reading <==> rounds != [] && StillReads(rounds[|rounds| - 1]))
    && (s'.running <==> forall i :: 0 <= i < |rounds| ==> DrainsFirst(rounds[i]) || StillReads(rounds[i]))
    && (s'.clientFd, s'.serverFd) == (if s'.running then (s.clientFd, s.serverFd) else (-1, -1))
  }

  lemma NothingRead(s: Server)
    requires s.running && s.buffer == ""
    ensures HasRead(s, [], s, false)
  {
    assert s.received + "" == s.received && s.delivered + [] == s.delivered;
  }

  lemma {:induction false} DrainedOrReading(results: seq<RecvResult>)
    ensures !(DrainsFirst(results) && StillReads(results))
  {
    if results != [] {
      DrainedOrReading(results[1..]);
    }
  }

  lemma OneRoundRead(s: Server, results: seq<RecvResult>)
    requires s.running && s.buffer == ""
    ensures
      var (s', exit) := RecvCall(s, results);
      HasRead(s, [results], s', exit.StillReading?)
  {
    hide RecvCall, BytesRead, DrainsFirst, StillReads;
    RecvCallExactly(s, results);
    DrainedOrReading(results);
    var rounds, first := [results], if BytesRead(results) != "" then [BytesRead(results)] else [];
    assert rounds[0] == results && rounds[1..] == [];
    assert BytesRead(results) + "" == BytesRead(results) && first + [] == first;
    assert s.delivered + [] == s.delivered && [] + BatchesOf([]) == [];
    assert BytesOf(rounds) == BytesRead(results);
    assert BatchesOf(rounds) == if DrainsFirst(results) then first else [];
  }

  lemma Associates<T>(a: seq<T>, b: seq<T>, c: seq<T>)
    ensures a + b + c == a + (b + c)
  {
  }

  lemma RoundThenRest(s: Server, results: seq<RecvResult>, rest: seq<seq<RecvResult>>, s': Server, reading: bool)
    requires s.running && s.buffer == "" && DrainsFirst(results)
    requires HasRead(RecvCall(s, results).0, rest, s', reading)
    ensures HasRead(s, [results] + rest, s', reading)
  {
    hide RecvCall, BytesRead, DrainsFirst, StillReads;
    RecvCallExactly(s, results);
    DrainedOrReading(results);
    var rounds := [results] + rest;
    assert rounds[1..] == rest && rounds[0] == results;
    assert forall i :: 0 <= i < |rounds| ==> rounds[i] == if i == 0 then results else rest[i - 1];
    if s'.running {
      assert forall i :: 0 <= i < |rounds| ==> DrainsFirst(rounds[i]) || StillReads(rounds[i]);
    } else {
      var i :| 0 <= i < |rest| && !DrainsFirst(rest[i]) && !StillReads(rest[i]);
      assert rounds[i + 1] == rest[i];
    }
    assert BytesOf(rounds) == BytesRead(results) + BytesOf(rest);
    Associates(s.received, BytesRead(results), BytesOf(rest));
    var first := if BytesRead(results) != "" then [BytesRead(results)] else [];
    assert BatchesOf(rounds) == first + BatchesOf(rest);
    if s.hasCallback {
      Associates(s.delivered, first, BatchesOf(rest));
    }
  }

  /** What a run reads and hands over, from the results of poll and recv alone: it receives
      the bytes of all readable rounds before the first failing poll, hangup or ended call,
      delivers each round's bytes as one batch, in order, unless that round ends the stream,
      and is still running, with its sockets open, exactly if no call has ended it. */
  lemma {:induction false} RunExactly(s: Server, polls: seq<PollResult>)
    requires s.running && s.buffer == ""
    ensures
      var (s', reading) := RunLoop(s, polls);
      HasRead(s, ReadingRounds(polls), s', reading)
    decreases |polls|
  {
    hide RecvCall, BytesRead, DrainsFirst, StillReads, HasRead, BytesOf, BatchesOf;
    if polls == [] || polls[0].PollFailed? {
      NothingRead(s);
    } else if polls[0].Ready? && polls[0].readable {
      var results := polls[0].results;
      var (s', exit) := RecvCall(s, results);
      RecvCallExactly(s, results);
      OneRoundRead(s, results);
      assert [results] + [] == [results];
      if DrainsFirst(results) && !polls[0].hangup {
        RunExactly(s', polls[1..]);
        var (s'', reading) := RunLoop(s', polls[1..]);
        RoundThenRest(s, results, ReadingRounds(polls[1..]), s'', reading);
      }
    } else if polls[0].Ready? && polls[0].hangup {
      NothingRead(s);
    } else {
      RunExactly(s, polls[1..]);
      assert ReadingRounds(polls) == ReadingRounds(polls[1..]);
    }
  }

  predicate Idle(poll: PollResult) {
    poll.TimedOut? || poll.Interrupted?
  }

  /** Polls that time out or are interrupted change nothing, wherever they come; and nothing
      that comes after a failing poll or a round with a hangup matters any more. */
  lemma {:induction false} IdlePollsChangeNothing(s: Server, before: seq<PollResult>, poll: PollResult, after: seq<PollResult>)
    ensures Idle(poll) ==> RunLoop(s, before + [poll] + after) == RunLoop(s, before + after)
    ensures poll.PollFailed? || (poll.Ready? && poll.hangup) ==>
              RunLoop(s, before + [poll] + after) == RunLoop(s, before + [poll])
    decreases |before|
  {
    hide RecvCall;
    var with, without := before + [poll] + after, before + after;
    if s.running && before == [] {
      assert with[1..] == after == without && (before + [poll])[0] == with[0] == poll;
    } else if s.running {
      var first := before[0];
      assert with[0] == without[0] == (before + [poll])[0] == first;
      assert with[1..] == before[1..] + [poll] + after && without[1..] == before[1..] + after;
      assert (before + [poll])[1..] == before[1..] + [poll];
      var s' := if first.Ready? && first.readable then RecvCall(s, first.results).0 else s;
      IdlePollsChangeNothing(s', before[1..], poll, after);
    }
  }

  /** The same on concrete results: an idle poll, then one byte, which is delivered. */
  lemma IdleThenOneByte(s: Server)
    requires s.running && s.hasCallback && s.buffer == "" && s.delivered == []
    ensures RunLoop(s, [TimedOut, Interrupted, Ready(true, false, [Bytes("x"), WouldBlock])]).0.delivered == ["x"]
  {
    var results := [Bytes("x"), WouldBlock];
    var polls := [TimedOut, Interrupted, Ready(true, false, results)];
    assert polls[1..][1..] == [Ready(true, false, results)] && polls[1..][1..][1..] == [];
    assert polls[1..] == [Interrupted, Ready(true, false, results)];
    assert results[1..] == [WouldBlock] && "x" + "" == "x";
    assert BytesRead(results) == "x" && DrainsFirst(results);
    RecvCallExactly(s, results);
    assert [] + ["x"] == ["x"];
  }

  class SocketServer {
    var clientBuffer: string
    var running: bool
    var clientFd: int
    var serverFd: int
    var hasCallback: bool
    ghost var received: string
    ghost var delivered: seq<string>

    ghost function State(): Server
      reads this
    {
      Server(clientBuffer, running, clientFd, serverFd, hasCallback, received, delivered)
    }

    // A server after start() has accepted a connection.
    constructor (clientFd: int, serverFd: int, hasCallback: bool)
      ensures State() == Server("", true, clientFd, serverFd, hasCallback, "", []) && Conserved(State())
    {
      this.clientFd, this.serverFd, this.hasCallback := clientFd, serverFd, hasCallback;
      clientBuffer, running, received, delivered := "", true, "", [];
    }

    method Stop()
      modifies this
      ensures State() == Shut(old(State()))
      ensures !running && clientFd == -1 && serverFd == -1 && clientBuffer == old(clientBuffer)
    {
      running := false;
      if clientFd != -1 {
        clientFd := -1;
      }
      if serverFd != -1 {
        serverFd := -1;
      }
    }

    method HandleRecv(results: seq<RecvResult>) returns (exit: Exit)
      modifies this
      ensures (State(), exit) == RecvCall(old(State()), results)
    {
      var round := 0;
      while true
        invariant round <= |results|
        invariant RecvLoop(State(), results[round..]) == RecvLoop(old(State()), results)
        decreases |results| - round
      {
        if round == |results| {
          return StillReading;
        }
        var result := results[round];
        assert results[round..][1..] == results[round + 1..];
        round := round + 1;
        if result.Bytes? && result.data != "" {
          clientBuffer := clientBuffer + result.data;
          received := received + result.data;
        } else if result.WouldBlock? {
          break;
        } else {
          Stop();
          return Stopped;
        }
      }
      if clientBuffer != "" {
        if hasCallback {
          delivered := delivered + [clientBuffer];
        }
        clientBuffer := "";
      }
      return Drained;
    }

    method Run(polls: seq<PollResult>) returns (reading: bool)
      modifies this
      ensures (State(), reading) == RunLoop(old(State()), polls)
    {
      var round := 0;
      while running && round < |polls|
        invariant round <= |polls|
        invariant RunLoop(State(), polls[round..]) == RunLoop(old(State()), polls)
        decreases |polls| - round
      {
        var poll := polls[round];
        assert polls[round..][1..] == polls[round + 1..];
        round := round + 1;
        match poll {
          case PollFailed =>
            return false;
          case Interrupted =>
          case TimedOut =>
          case Ready(readable, hangup, results) =>
            if readable {
              var exit := HandleRecv(results);
              if exit.StillReading? {
                return true;
              }
            }
            if hangup {
              return false;
            }
        }
      }
      return false;
    }
  }
}
