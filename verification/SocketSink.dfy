/** The socket sink's partial-send loop (src/logger/socket_sink.cpp) against an arbitrary
    trace of what poll and send report. */
module SocketSinks {
  // One round of the loop: poll does not report writable; send would block; send fails; or
  // send takes some bytes, never more than it is offered.
  datatype SendResult = NotReady | WouldBlock | Failed | Sent(count: nat)

  // wire is every byte the kernel has taken from this sink.
  datatype Sink = Sink(fd: int, connected: bool, wire: string)

  predicate SinkValid(s: Sink) {
    s.fd != -1 && s.connected
  }

  function Taken(count: nat, offered: nat): nat {
    if count < offered then count else offered
  }

  // The loop from totalSent on. The flag is false when the trace ends inside the loop,
  // that is, while the call is still retrying.
  function SendFrom(s: Sink, message: string, totalSent: nat, results: seq<SendResult>): (Sink, bool)
    requires totalSent <= |message|
    decreases |results|
  {
    if totalSent == |message| then (s, true)
    else if results == [] then (s, false)
    else match results[0]
      case NotReady => (s.(connected := false), true)
      case Failed => (s.(connected := false), true)
      case WouldBlock => SendFrom(s, message, totalSent, results[1..])
      case Sent(count) =>
        var next := totalSent + Taken(count, |message| - totalSent);
        SendFrom(s.(wire := s.wire + message[totalSent..next]), message, next, results[1..])
  }

  function Written(s: Sink, message: string, results: seq<SendResult>): (Sink, bool) {
    if SinkValid(s) then SendFrom(s, message, 0, results) else (s, true)
  }

  /** A send loop puts a prefix of what is left of the message on the wire: all of it when
      it ends connected, not all of it when it disconnects; retries alone change nothing. */
  lemma {:induction false} SendsPrefix(s: Sink, message: string, totalSent: nat, results: seq<SendResult>) returns (k: nat)
    requires totalSent <= |message| && s.connected
    ensures
      var (s', finished) := SendFrom(s, message, totalSent, results);
      && totalSent <= k <= |message| && s'.fd == s.fd
      && s'.wire == s.wire + message[totalSent..k]
      && (finished ==> (s'.connected <==> k == |message|))
      && (!finished ==> s'.connected && k < |message|)
    decreases |results|
  {
    if totalSent == |message| || results == [] || results[0].NotReady? || results[0].Failed? {
      k := totalSent;
    } else if results[0].WouldBlock? {
      k := SendsPrefix(s, message, totalSent, results[1..]);
    } else {
      var next := totalSent + Taken(results[0].count, |message| - totalSent);
      k := SendsPrefix(s.(wire := s.wire + message[totalSent..next]), message, next, results[1..]);
      assert message[totalSent..k] == message[totalSent..next] + message[next..k];
    }
  }

  // What the results alone say, without the loop: how many bytes send took before poll
  // gave up or send failed, and whether that happened.
  function BytesTaken(results: seq<SendResult>): nat {
    if results == [] || results[0].NotReady? || results[0].Failed? then 0
    else BytesTaken(results[1..]) + if results[0].Sent? then results[0].count else 0
  }

  predicate Breaks(results: seq<SendResult>) {
    exists i :: 0 <= i < |results| && (results[i].NotReady? || results[i].Failed?)
  }

  lemma BreaksLater(results: seq<SendResult>)
    requires results != [] && !results[0].NotReady? && !results[0].Failed?
    ensures Breaks(results) <==> Breaks(results[1..])
  {
    if Breaks(results) {
      var i :| 0 <= i < |results| && (results[i].NotReady? || results[i].Failed?);
      assert results[1..][i - 1] == results[i];
    }
  }

  lemma TwoPieces(wire: string, message: string, a: nat, b: nat, c: nat)
    requires a <= b <= c <= |message|
    ensures wire + message[a..b] + message[b..c] == wire + message[a..c]
  {
  }

  lemma {:induction false} SendFromExactly(s: Sink, message: string, totalSent: nat, results: seq<SendResult>)
    requires totalSent <= |message| && s.connected
    ensures
      var taken := totalSent + BytesTaken(results);
      SendFrom(s, message, totalSent, results)
      == (s.(wire := s.wire + message[totalSent..Taken(taken, |message|)],
             connected := taken >= |message| || !Breaks(results)),
          taken >= |message| || Breaks(results))
    decreases |results|
  {
    if totalSent == |message| || results == [] {
      assert s.wire + message[totalSent..totalSent] == s.wire;
    } else if results[0].NotReady? || results[0].Failed? {
      assert s.wire + message[totalSent..totalSent] == s.wire;
      assert Breaks(results);
    } else {
      BreaksLater(results);
      if results[0].WouldBlock? {
        SendFromExactly(s, message, totalSent, results[1..]);
      } else {
        var next := totalSent + Taken(results[0].count, |message| - totalSent);
        SendFromExactly(s.(wire := s.wire + message[totalSent..next]), message, next, results[1..]);
        var end := Taken(next + BytesTaken(results[1..]), |message|);
        assert end == Taken(totalSent + BytesTaken(results), |message|);
        TwoPieces(s.wire, message, totalSent, next, end);
      }
    }
  }

  /** What a write does, from the results alone: a connected sink puts on the wire as much
      of the message as send takes before poll gives up or send fails. The call returns
      connected if and only if that is all of the message; it disconnects if and only if
      such a failure comes first; otherwise it is still retrying. A sink without a socket or
      a connection is left alone. */
  lemma WrittenExactly(s: Sink, message: string, results: seq<SendResult>)
    ensures s.fd == -1 || !s.connected ==> Written(s, message, results) == (s, true)
    ensures s.fd != -1 && s.connected ==>
      var (s', finished) := Written(s, message, results);
      var taken := BytesTaken(results);
      && s'.fd == s.fd
      && s'.wire == s.wire + message[..Taken(taken, |message|)]
      && (finished && s'.connected <==> taken >= |message|)
      && (finished && !s'.connected <==> taken < |message| && Breaks(results))
      && (!finished <==> taken < |message| && !Breaks(results))
      && (!finished ==> s'.connected)
  {
    hide SendFrom, Breaks, BytesTaken;
    if s.connected {
      SendFromExactly(s, message, 0, results);
    }
  }

  lemma {:induction false} BlockedAddsNothing(before: seq<SendResult>, after: seq<SendResult>)
    ensures BytesTaken(before + [WouldBlock] + after) == BytesTaken(before + after)
    ensures Breaks(before + [WouldBlock] + after) <==> Breaks(before + after)
    decreases |before|
  {
    var with, without := before + [WouldBlock] + after, before + after;
    if before == [] {
      assert with[1..] == after == without;
      BreaksLater(with);
    } else {
      assert with[1..] == before[1..] + [WouldBlock] + after && without[1..] == before[1..] + after;
      BlockedAddsNothing(before[1..], after);
      if before[0].NotReady? || before[0].Failed? {
        assert with[0] == without[0] == before[0];
      } else {
        BreaksLater(with);
        BreaksLater(without);
      }
    }
  }

  /** A send that would block is retried: taking it out of the results changes nothing. */
  lemma BlockedSendIsRetried(s: Sink, message: string, before: seq<SendResult>, after: seq<SendResult>)
    ensures Written(s, message, before + [WouldBlock] + after) == Written(s, message, before + after)
  {
    hide SendFrom, Breaks, BytesTaken;
    if SinkValid(s) {
      SendFromExactly(s, message, 0, before + [WouldBlock] + after);
      SendFromExactly(s, message, 0, before + after);
      BlockedAddsNothing(before, after);
    }
  }

  /** The same on concrete results: blocked once, the whole message goes out; not ready or
      failed, nothing does. */
  lemma BlockedOnce(fd: nat)
    ensures Written(Sink(fd, true, ""), "ab", [WouldBlock, Sent(2)]) == (Sink(fd, true, "ab"), true)
    ensures Written(Sink(fd, true, ""), "ab", [NotReady, Sent(2)]) == (Sink(fd, false, ""), true)
    ensures Written(Sink(fd, true, ""), "ab", [Sent(1), Failed, Sent(1)]) == (Sink(fd, false, "a"), true)
  {
    var s := Sink(fd, true, "");
    assert [WouldBlock, Sent(2)][1..] == [Sent(2)] && [Sent(1), Failed, Sent(1)][1..] == [Failed, Sent(1)];
    assert [Sent(2)][1..] == [];
    assert SendFrom(s, "ab", 0, [Sent(2)]) == (Sink(fd, true, "ab"), true) by {
      assert "ab"[0..2] == "ab" && s.wire + "ab" == "ab";
    }
    assert "ab"[0..1] == "a" && s.wire + "a" == "a";
  }

  class SocketSink {
    var socketFd: int
    var isConnected: bool
    ghost var wire: string

    ghost function State(): Sink
      reads this
    {
      Sink(socketFd, isConnected, wire)
    }

    // The result of creating the socket and connecting it is up to the system.
    constructor (fd: int, connected: bool)
      ensures State() == Sink(fd, connected, "")
    {
      socketFd, isConnected, wire := fd, connected, "";
    }

    predicate IsValid()
      reads this
    {
      socketFd != -1 && isConnected
    }

    method Write(message: string, results: seq<SendResult>) returns (finished: bool)
      modifies this
      ensures (State(), finished) == Written(old(State()), message, results)
    {
      if !IsValid() {
        return true;
      }
      var totalSent: nat, round: nat := 0, 0;
      while totalSent < |message| && round < |results|
        invariant totalSent <= |message| && round <= |results|
        invariant SendFrom(State(), message, totalSent, results[round..]) == Written(old(State()), message, results)
        decreases |results| - round
      {
        var result := results[round];
        assert results[round..][1..] == results[round + 1..];
        round := round + 1;
        match result {
          case NotReady =>
            isConnected := false;
            return true;
          case WouldBlock =>
            continue;
          case Failed =>
            isConnected := false;
            return true;
          case Sent(count) =>
            var sent := Taken(count, |message| - totalSent);
            wire := wire + message[totalSent..totalSent + sent];
            totalSent := totalSent + sent;
        }
      }
      finished := totalSent == |message|;
    }

    method Cleanup()
      modifies this
      ensures State() == Sink(-1, false, old(wire))
    {
      socketFd := -1;
      isConnected := false;
    }
  }
}
