/** The logger: level filter and fan-out to the sinks under the sinks lock
    (src/logger/logger.cpp). */
module Loggers {
  import opened LogLevels
  import opened SocketSinks
  import LogLine

  // stuck: a sink's send loop is still retrying inside a log call, which holds the lock.
  datatype LoggerState = LoggerState(sinks: seq<Sink>, defaultLevel: LogLevel, stuck: bool)

  // traces gives each sink's poll and send results for the call.
  datatype Call =
    | Log(message: string, level: LogLevel, timestamp: string, traces: seq<seq<SendResult>>)
    | SetDefaultLevel(level: LogLevel)

  predicate AnyValid(sinks: seq<Sink>) {
    exists i :: 0 <= i < |sinks| && SinkValid(sinks[i])
  }

  // The loop over the sinks from the i-th on.
  function FanOut(sinks: seq<Sink>, frame: string, traces: seq<seq<SendResult>>, i: nat): (r: (seq<Sink>, bool))
    requires i <= |sinks| == |traces|
    ensures |r.0| == |sinks|
    decreases |sinks| - i
  {
    if i == |sinks| then (sinks, true) else
    var (sink, finished) := Written(sinks[i], frame, traces[i]);
    if finished then FanOut(sinks[i := sink], frame, traces, i + 1) else (sinks[i := sink], false)
  }

  // A trace for each sink.
  predicate Fits(call: Call, sinkCount: nat) {
    call.Log? ==> |call.traces| == sinkCount
  }

  // What a call does under the sinks lock, once its checks have been passed.
  function LockedPart(l: LoggerState, call: Call): (l': LoggerState)
    requires Fits(call, |l.sinks|)
    ensures |l'.sinks| == |l.sinks|
  {
    if l.stuck then l else
    match call
    case SetDefaultLevel(level) => l.(defaultLevel := level)
    case Log(message, level, timestamp, traces) =>
      var (sinks, finished) := FanOut(l.sinks, LogLine.FormatMessage(timestamp, level, message), traces, 0);
      l.(sinks := sinks, stuck := !finished)
  }

  // A call that makes its checks in one state and gets the lock in a later one.
  function CheckedThenLocked(check: LoggerState, later: LoggerState, call: Call): (l': LoggerState)
    requires Fits(call, |later.sinks|)
    ensures |l'.sinks| == |later.sinks|
  {
    if call.Log? && (call.level < check.defaultLevel || !AnyValid(check.sinks)) then later
    else LockedPart(later, call)
  }

  function Perform(l: LoggerState, call: Call): (l': LoggerState)
    requires Fits(call, |l.sinks|)
    ensures |l'.sinks| == |l.sinks|
  {
    CheckedThenLocked(l, l, call)
  }

  predicate WellFormed(calls: seq<Call>, sinkCount: nat) {
    forall i :: 0 <= i < |calls| ==> Fits(calls[i], sinkCount)
  }

  function PerformAll(l: LoggerState, calls: seq<Call>): (l': LoggerState)
    requires WellFormed(calls, |l.sinks|)
    ensures |l'.sinks| == |l.sinks|
  {
    if calls == [] then l else Perform(PerformAll(l, calls[..|calls| - 1]), calls[|calls| - 1])
  }

  // ------------------------------------- what the frames should be, without any sink

  function LevelAfter(defaultLevel: LogLevel, calls: seq<Call>): LogLevel {
    if calls == [] then defaultLevel
    else if calls[|calls| - 1].SetDefaultLevel? then calls[|calls| - 1].level
    else LevelAfter(defaultLevel, calls[..|calls| - 1])
  }

  function FrameOf(defaultLevel: LogLevel, call: Call): string {
    if call.Log? && call.level >= defaultLevel
    then LogLine.FormatMessage(call.timestamp, call.level, call.message) else ""
  }

  // The concatenation of the frames of all calls that pass the filter in force.
  function Frames(defaultLevel: LogLevel, calls: seq<Call>): string {
    if calls == [] then "" else
    var before := calls[..|calls| - 1];
    Frames(defaultLevel, before) + FrameOf(LevelAfter(defaultLevel, before), calls[|calls| - 1])
  }

  // Every wire is a prefix of sent, and all of it unless the sink is disconnected or the
  // call has not finished.
  ghost predicate OnTheWire(l: LoggerState, sent: string) {
    forall i :: 0 <= i < |l.sinks| ==>
      && l.sinks[i].wire <= sent
      && (SinkValid(l.sinks[i]) && !l.stuck ==> l.sinks[i].wire == sent)
  }

  lemma WriteExtends(s: Sink, sent: string, frame: string, results: seq<SendResult>)
    requires s.wire <= sent && (SinkValid(s) ==> s.wire == sent)
    ensures
      var (s', finished) := Written(s, frame, results);
      && s.wire <= s'.wire <= sent + frame
      && (SinkValid(s') && finished ==> s'.wire == sent + frame)
      && (!SinkValid(s) ==> s' == s && finished)
  {
    if SinkValid(s) {
      var k := SendsPrefix(s, frame, 0, results);
      assert frame[0..k] <= frame;
      assert k == |frame| ==> frame[0..k] == frame;
    } else {
      assert sent <= sent + frame;
    }
  }

  lemma {:induction false} FanOutExtends(sinks: seq<Sink>, sent: string, frame: string, traces: seq<seq<SendResult>>, i: nat)
    requires i <= |sinks| == |traces|
    requires forall k :: 0 <= k < i ==> sinks[k].wire <= sent + frame && (SinkValid(sinks[k]) ==> sinks[k].wire == sent + frame)
    requires forall k :: i <= k < |sinks| ==> sinks[k].wire <= sent && (SinkValid(sinks[k]) ==> sinks[k].wire == sent)
    ensures
      var (sinks', finished) := FanOut(sinks, frame, traces, i);
      forall k :: 0 <= k < |sinks| ==>
        && sinks'[k].wire <= sent + frame
        && (SinkValid(sinks'[k]) && finished ==> sinks'[k].wire == sent + frame)
        && (!SinkValid(sinks[k]) ==> sinks'[k] == sinks[k])
    decreases |sinks| - i
  {
    hide Written, SinkValid;
    if i < |sinks| {
      WriteExtends(sinks[i], sent, frame, traces[i]);
      var (sink, finished) := Written(sinks[i], frame, traces[i]);
      assert sent <= sent + frame;
      if finished {
        FanOutExtends(sinks[i := sink], sent, frame, traces, i + 1);
      }
    }
  }

  lemma PerformExtends(l: LoggerState, sent: string, call: Call)
    requires OnTheWire(l, sent) && Fits(call, |l.sinks|)
    ensures OnTheWire(Perform(l, call), sent + FrameOf(l.defaultLevel, call))
    ensures forall i :: 0 <= i < |l.sinks| && !SinkValid(l.sinks[i]) ==> Perform(l, call).sinks[i] == l.sinks[i]
  {
    hide FanOut, LogLine.FormatMessage;
    var frame := FrameOf(l.defaultLevel, call);
    assert sent <= sent + frame && sent + "" == sent;
    if !l.stuck && call.Log? && call.level >= l.defaultLevel && AnyValid(l.sinks) {
      FanOutExtends(l.sinks, sent, frame, call.traces, 0);
    }
  }

  lemma {:induction false} LevelIsTracked(l: LoggerState, calls: seq<Call>)
    requires WellFormed(calls, |l.sinks|)
    requires !PerformAll(l, calls).stuck
    ensures !l.stuck && PerformAll(l, calls).defaultLevel == LevelAfter(l.defaultLevel, calls)
  {
    if calls != [] {
      LevelIsTracked(l, calls[..|calls| - 1]);
    }
  }

  lemma {:induction false} FanOutOfInvalid(sinks: seq<Sink>, frame: string, traces: seq<seq<SendResult>>, i: nat)
    requires i <= |sinks| == |traces| && !AnyValid(sinks)
    ensures FanOut(sinks, frame, traces, i) == (sinks, true)
    decreases |sinks| - i
  {
    if i < |sinks| {
      assert sinks[i := sinks[i]] == sinks;
      FanOutOfInvalid(sinks, frame, traces, i + 1);
    }
  }

  lemma {:induction false} FanOutKeepsEarlier(sinks: seq<Sink>, frame: string, traces: seq<seq<SendResult>>, i: nat, k: nat)
    requires k < i <= |sinks| == |traces|
    ensures FanOut(sinks, frame, traces, i).0[k] == sinks[k]
    decreases |sinks| - i
  {
    if i < |sinks| {
      var (sink, finished) := Written(sinks[i], frame, traces[i]);
      FanOutKeepsEarlier(sinks[i := sink], frame, traces, i + 1, k);
    }
  }

  lemma WritingShows(s: Sink, frame: string, results: seq<SendResult>)
    requires SinkValid(s) && frame != ""
    ensures Written(s, frame, results) != (s, true)
  {
    var k := SendsPrefix(s, frame, 0, results);
    assert k == |frame| ==> frame[0..k] == frame;
  }

  lemma InvalidStays(s: Sink, frame: string, results: seq<SendResult>)
    requires !SinkValid(s)
    ensures Written(s, frame, results) == (s, true)
  {
  }

  lemma {:induction false} FanOutShows(sinks: seq<Sink>, frame: string, traces: seq<seq<SendResult>>, i: nat)
    requires i <= |sinks| == |traces| && frame != ""
    requires exists k :: i <= k < |sinks| && SinkValid(sinks[k])
    ensures FanOut(sinks, frame, traces, i) != (sinks, true)
    decreases |sinks| - i
  {
    hide Written, SinkValid;
    var (sink, finished) := Written(sinks[i], frame, traces[i]);
    if SinkValid(sinks[i]) {
      WritingShows(sinks[i], frame, traces[i]);
      if finished {
        FanOutKeepsEarlier(sinks[i := sink], frame, traces, i + 1, i);
      }
    } else {
      InvalidStays(sinks[i], frame, traces[i]);
      assert sinks[i := sink] == sinks;
      FanOutShows(sinks, frame, traces, i + 1);
    }
  }

  // What other threads can do to the logger while a call is between its checks and the
  // lock: the locked part of a call, clear_sinks, add_sink. The last two need the lock.
  datatype Change = CallMade(call: Call) | SinksCleared | SinkAdded(sink: Sink)

  predicate Changes(l: LoggerState, change: Change, l': LoggerState) {
    match change
    case CallMade(call) => Fits(call, |l.sinks|) && l' == LockedPart(l, call)
    case SinksCleared => !l.stuck && l' == l.(sinks := [])
    case SinkAdded(sink) => !l.stuck && l' == l.(sinks := l.sinks + [sink])
  }

  ghost predicate Gap(states: seq<LoggerState>, changes: seq<Change>) {
    && |states| == |changes| + 1
    && forall i :: 0 <= i < |changes| ==> Changes(states[i], changes[i], states[i + 1])
  }

  // No sink that could be written to is added.
  predicate AddsNoValidSink(changes: seq<Change>) {
    forall i :: 0 <= i < |changes| && changes[i].SinkAdded? ==> !SinkValid(changes[i].sink)
  }

  lemma ChangeRevivesNothing(l: LoggerState, change: Change, l': LoggerState)
    requires Changes(l, change, l') && !AnyValid(l.sinks)
    requires change.SinkAdded? ==> !SinkValid(change.sink)
    ensures !AnyValid(l'.sinks)
  {
    hide FanOut, LogLine.FormatMessage, SinkValid;
    if change.CallMade? && change.call.Log? {
      var call := change.call;
      FanOutOfInvalid(l.sinks, LogLine.FormatMessage(call.timestamp, call.level, call.message), call.traces, 0);
    }
  }

  lemma {:induction false} GapRevivesNothing(states: seq<LoggerState>, changes: seq<Change>, i: nat)
    requires Gap(states, changes) && i < |states| && AddsNoValidSink(changes) && !AnyValid(states[0].sinks)
    ensures !AnyValid(states[i].sinks)
  {
    hide Changes, AnyValid, SinkValid;
    if i > 0 {
      GapRevivesNothing(states, changes, i - 1);
      ChangeRevivesNothing(states[i - 1], changes[i - 1], states[i]);
    }
  }

  lemma FrameIsNotEmpty(timestamp: string, level: LogLevel, message: string)
    ensures LogLine.FormatMessage(timestamp, level, message) != ""
  {
  }

  lemma SkippingIsSeen(check: LoggerState, later: LoggerState, call: Call)
    requires call.Log? && Fits(call, |later.sinks|) && call.level >= check.defaultLevel
    ensures CheckedThenLocked(check, later, call) == LockedPart(later, call)
            <==> AnyValid(check.sinks) || !AnyValid(later.sinks) || later.stuck
  {
    hide FanOut, SinkValid, LogLine.FormatMessage;
    var frame := LogLine.FormatMessage(call.timestamp, call.level, call.message);
    if !AnyValid(later.sinks) {
      FanOutOfInvalid(later.sinks, frame, call.traces, 0);
    } else {
      FrameIsNotEmpty(call.timestamp, call.level, call.message);
      FanOutShows(later.sinks, frame, call.traces, 0);
    }
  }

  /** When the validity check, made before the sinks lock is taken, may be outdated without
      harm. Whatever happens between the check and the lock, a call that passes the level
      filter does what its locked part alone would do if and only if a sink was valid at
      the check or none is at the lock (or the call never gets the lock). That is so
      whenever no valid sink is added in between; a call can only be lost to add_sink. */
  lemma UnlockedCheckExactly(states: seq<LoggerState>, changes: seq<Change>, call: Call)
    requires Gap(states, changes) && call.Log? && call.level >= states[0].defaultLevel
    requires Fits(call, |states[|changes|].sinks|)
    ensures
      var check, later := states[0], states[|changes|];
      && (CheckedThenLocked(check, later, call) == LockedPart(later, call)
          <==> AnyValid(check.sinks) || !AnyValid(later.sinks) || later.stuck)
      && (AddsNoValidSink(changes) ==> CheckedThenLocked(check, later, call) == LockedPart(later, call))
  {
    hide CheckedThenLocked, LockedPart, AnyValid, Changes, AddsNoValidSink;
    SkippingIsSeen(states[0], states[|changes|], call);
    if AddsNoValidSink(changes) && !AnyValid(states[0].sinks) {
      GapRevivesNothing(states, changes, |changes|);
    }
  }

  lemma WholeFrameAtOnce(s: Sink, frame: string)
    requires SinkValid(s) && s.wire == "" && frame != ""
    ensures Written(s, frame, [Sent(|frame|)]) == (s.(wire := frame), true)
  {
    var results := [Sent(|frame|)];
    var s' := s.(wire := s.wire + frame[0..|frame|]);
    assert s'.wire == frame;
    assert SendFrom(s, frame, 0, results) == SendFrom(s', frame, |frame|, results[1..]);
  }

  /** The loss, concretely: a sink is added between the check and the lock. The call writes
      nothing to it, although its locked part would put the whole frame on its wire. */
  lemma LateSinkMissesCall(level: LogLevel, message: string, timestamp: string, fd: nat)
    ensures
      var frame := LogLine.FormatMessage(timestamp, level, message);
      var call := Log(message, level, timestamp, [[Sent(|frame|)]]);
      var check := LoggerState([], level, false);
      var later := LoggerState([Sink(fd, true, "")], level, false);
      && Gap([check, later], [SinkAdded(Sink(fd, true, ""))])
      && CheckedThenLocked(check, later, call).sinks[0].wire == ""
      && LockedPart(later, call).sinks[0].wire == frame
  {
    hide LogLine.FormatMessage;
    var frame := LogLine.FormatMessage(timestamp, level, message);
    FrameIsNotEmpty(timestamp, level, message);
    var s := Sink(fd, true, "");
    WholeFrameAtOnce(s, frame);
    var traces := [[Sent(|frame|)]];
    assert FanOut([s], frame, traces, 0) == ([s.(wire := frame)], true) by {
      assert [s][0 := s.(wire := frame)] == [s.(wire := frame)];
    }
  }

  // A log call that has not finished is the last thing the logger does.
  lemma StuckStays(l: LoggerState, call: Call)
    requires l.stuck && Fits(call, |l.sinks|)
    ensures Perform(l, call) == l
  {
  }

  lemma NothingSent(l: LoggerState)
    requires forall i :: 0 <= i < |l.sinks| ==> l.sinks[i].wire == ""
    ensures OnTheWire(l, "")
  {
  }

  lemma StuckExtends(l: LoggerState, sent: string, frame: string)
    requires l.stuck && OnTheWire(l, sent)
    ensures OnTheWire(l, sent + frame)
  {
  }

  /** Wire prefix: for any results of poll and send over any sequence of log calls on
      connected sinks, the bytes on each sink's wire are a prefix of the concatenation of
      the frames that pass the level filter, and all of it after each call while the sink
      is still connected. */
  lemma {:induction false} WireIsPrefixOfFrames(l: LoggerState, calls: seq<Call>)
    requires !l.stuck && WellFormed(calls, |l.sinks|)
    requires forall i :: 0 <= i < |l.sinks| ==> l.sinks[i].wire == ""
    ensures OnTheWire(PerformAll(l, calls), Frames(l.defaultLevel, calls))
  {
    hide OnTheWire, Perform, FrameOf;
    if calls == [] {
      NothingSent(l);
    } else {
      var before, call := calls[..|calls| - 1], calls[|calls| - 1];
      var middle, sent := PerformAll(l, before), Frames(l.defaultLevel, before);
      WireIsPrefixOfFrames(l, before);
      if middle.stuck {
        StuckStays(middle, call);
        StuckExtends(middle, sent, FrameOf(LevelAfter(l.defaultLevel, before), call));
      } else {
        LevelIsTracked(l, before);
        PerformExtends(middle, sent, call);
      }
    }
  }

  lemma DisconnectedStays(l: LoggerState, calls: seq<Call>, call: Call, i: nat)
    requires !l.stuck && WellFormed(calls, |l.sinks|) && Fits(call, |l.sinks|) && i < |l.sinks|
    requires forall k :: 0 <= k < |l.sinks| ==> l.sinks[k].wire == ""
    requires !SinkValid(PerformAll(l, calls).sinks[i])
    ensures Perform(PerformAll(l, calls), call).sinks[i] == PerformAll(l, calls).sinks[i]
  {
    hide OnTheWire, Perform, SinkValid, Frames;
    WireIsPrefixOfFrames(l, calls);
    PerformExtends(PerformAll(l, calls), Frames(l.defaultLevel, calls), call);
  }

  /** A disconnected sink stays as it is: nothing more is sent, whatever is logged later. */
  lemma {:induction false} NothingAfterDisconnect(l: LoggerState, calls: seq<Call>, more: seq<Call>, i: nat)
    requires !l.stuck && WellFormed(calls, |l.sinks|) && WellFormed(more, |l.sinks|) && i < |l.sinks|
    requires forall k :: 0 <= k < |l.sinks| ==> l.sinks[k].wire == ""
    requires !SinkValid(PerformAll(l, calls).sinks[i])
    ensures PerformAll(l, calls + more).sinks[i] == PerformAll(l, calls).sinks[i]
    decreases |more|
  {
    hide Perform, SinkValid;
    if more == [] {
      assert calls + more == calls;
    } else {
      var fewer, call := more[..|more| - 1], more[|more| - 1];
      assert (calls + more)[..|calls + more| - 1] == calls + fewer;
      NothingAfterDisconnect(l, calls, fewer, i);
      DisconnectedStays(l, calls + fewer, call, i);
    }
  }

  // ---------------------------------------------------- which lines reach which sinks

  // The write to some sink from the i-th on and before the k-th is still retrying.
  ghost predicate HeldUp(sinks: seq<Sink>, frame: string, traces: seq<seq<SendResult>>, i: nat, k: nat)
    requires k <= |sinks| == |traces|
  {
    exists j :: i <= j < k && !Written(sinks[j], frame, traces[j]).1
  }

  lemma HeldUpAgain(sinks: seq<Sink>, sink: Sink, frame: string, traces: seq<seq<SendResult>>, i: nat, k: nat)
    requires i < k <= |sinks| == |traces|
    ensures HeldUp(sinks, frame, traces, i, k)
            <==> !Written(sinks[i], frame, traces[i]).1 || HeldUp(sinks[i := sink], frame, traces, i + 1, k)
  {
    hide Written;
    var next := sinks[i := sink];
    if HeldUp(sinks, frame, traces, i, k) {
      var j :| i <= j < k && !Written(sinks[j], frame, traces[j]).1;
      assert j > i ==> next[j] == sinks[j];
    }
    if HeldUp(next, frame, traces, i + 1, k) {
      var j :| i + 1 <= j < k && !Written(next[j], frame, traces[j]).1;
      assert next[j] == sinks[j];
    }
  }

  lemma {:induction false} FanOutInTurn(sinks: seq<Sink>, frame: string, traces: seq<seq<SendResult>>, i: nat, k: nat)
    requires i <= |sinks| == |traces| && i <= k < |sinks|
    ensures
      var (sinks', finished) := FanOut(sinks, frame, traces, i);
      && sinks'[k] == (if HeldUp(sinks, frame, traces, i, k) then sinks[k] else Written(sinks[k], frame, traces[k]).0)
      && finished == !HeldUp(sinks, frame, traces, i, |sinks|)
    decreases |sinks| - i
  {
    hide Written;
    var (sink, finished) := Written(sinks[i], frame, traces[i]);
    var next := sinks[i := sink];
    HeldUpAgain(sinks, sink, frame, traces, i, |sinks|);
    if i < k {
      HeldUpAgain(sinks, sink, frame, traces, i, k);
      if finished {
        FanOutInTurn(next, frame, traces, i + 1, k);
      }
    } else if finished {
      FanOutKeepsEarlier(next, frame, traces, i + 1, i);
      if i + 1 < |sinks| {
        FanOutInTurn(next, frame, traces, i + 1, i + 1);
      }
    }
  }

  /** One write per sink, in order: of a call that passes its checks every sink gets what a
      write to it alone would do, except that the sinks behind one that is still retrying
      get nothing; the call holds the lock if and only if there is such a one. */
  lemma SinksInTurn(l: LoggerState, message: string, level: LogLevel, timestamp: string,
                    traces: seq<seq<SendResult>>, k: nat)
    requires !l.stuck && level >= l.defaultLevel && k < |l.sinks| == |traces|
    ensures
      var frame := LogLine.FormatMessage(timestamp, level, message);
      var l' := Perform(l, Log(message, level, timestamp, traces));
      && l'.sinks[k] == (if HeldUp(l.sinks, frame, traces, 0, k) then l.sinks[k]
                         else Written(l.sinks[k], frame, traces[k]).0)
      && l'.stuck == HeldUp(l.sinks, frame, traces, 0, |l.sinks|)
  {
    hide FanOut, LogLine.FormatMessage, SinkValid, SendFrom;
    var frame := LogLine.FormatMessage(timestamp, level, message);
    FanOutInTurn(l.sinks, frame, traces, 0, k);
    forall j | 0 <= j < |l.sinks| && !SinkValid(l.sinks[j])
      ensures Written(l.sinks[j], frame, traces[j]) == (l.sinks[j], true)
    {
      InvalidStays(l.sinks[j], frame, traces[j]);
    }
  }

  // Send takes at least this many bytes from every valid sink before anything fails.
  predicate AllTake(sinks: seq<Sink>, traces: seq<seq<SendResult>>, count: nat)
    requires |sinks| == |traces|
  {
    forall k :: 0 <= k < |sinks| && SinkValid(sinks[k]) ==> BytesTaken(traces[k]) >= count
  }

  lemma TakenInFull(s: Sink, frame: string, results: seq<SendResult>)
    requires SinkValid(s) ==> BytesTaken(results) >= |frame|
    ensures Written(s, frame, results) == (if SinkValid(s) then s.(wire := s.wire + frame) else s, true)
  {
    hide BytesTaken, Breaks, SendFrom;
    if SinkValid(s) {
      WrittenExactly(s, frame, results);
      assert frame[..|frame|] == frame;
    }
  }

  lemma {:induction false} FanOutInFull(sinks: seq<Sink>, frame: string, traces: seq<seq<SendResult>>, i: nat)
    requires i <= |sinks| == |traces| && AllTake(sinks, traces, |frame|)
    ensures FanOut(sinks, frame, traces, i).1
    ensures forall k :: 0 <= k < |sinks| ==>
              FanOut(sinks, frame, traces, i).0[k] ==
              if k >= i && SinkValid(sinks[k]) then sinks[k].(wire := sinks[k].wire + frame) else sinks[k]
    decreases |sinks| - i
  {
    hide BytesTaken, Written;
    if i < |sinks| {
      TakenInFull(sinks[i], frame, traces[i]);
      var next := sinks[i := Written(sinks[i], frame, traces[i]).0];
      FanOutInFull(next, frame, traces, i + 1);
    }
  }

  lemma LoggedInFull(l: LoggerState, message: string, level: LogLevel, timestamp: string, traces: seq<seq<SendResult>>)
    requires !l.stuck && |traces| == |l.sinks|
    requires AllTake(l.sinks, traces, |LogLine.FormatMessage(timestamp, level, message)|)
    ensures
      var l' := Perform(l, Log(message, level, timestamp, traces));
      && !l'.stuck && l'.defaultLevel == l.defaultLevel
      && forall k :: 0 <= k < |l.sinks| ==>
           l'.sinks[k] == if SinkValid(l.sinks[k]) && level >= l.defaultLevel
                          then l.sinks[k].(wire := l.sinks[k].wire + LogLine.FormatMessage(timestamp, level, message))
                          else l.sinks[k]
  {
    hide FanOut, AllTake, LogLine.FormatMessage;
    FanOutInFull(l.sinks, LogLine.FormatMessage(timestamp, level, message), traces, 0);
  }

  /** A log call by the names of the levels: a message at the level that prints as the i-th
      name, with the default level that prints as the d-th one, is put as one line on the
      wire of every valid sink whose sends take it, and on no other, if and only if i is
      not before d. The call returns and all sinks are as valid as before. */
  lemma LoggedByName(l: LoggerState, i: nat, d: nat, message: string, level: LogLevel, timestamp: string,
                     traces: seq<seq<SendResult>>, k: nat)
    requires !l.stuck && |traces| == |l.sinks| && k < |l.sinks| && i < 5 && d < 5
    requires LevelName(level) == ["DEBUG", "INFO", "WARNING", "ERROR", "FATAL"][i]
    requires LevelName(l.defaultLevel) == ["DEBUG", "INFO", "WARNING", "ERROR", "FATAL"][d]
    requires AllTake(l.sinks, traces, |LogLine.FormatMessage(timestamp, level, message)|)
    ensures
      var l' := Perform(l, Log(message, level, timestamp, traces));
      var line := "[" + timestamp + ("] [" + ["DEBUG", "INFO", "WARNING", "ERROR", "FATAL"][i] + "] ") + message;
      && !l'.stuck && l'.defaultLevel == l.defaultLevel
      && l'.sinks[k] == if SinkValid(l.sinks[k]) && i >= d then l.sinks[k].(wire := l.sinks[k].wire + line)
                        else l.sinks[k]
  {
    hide Perform, AllTake, LogLine.FormatMessage, LevelName;
    LevelsByName(level);
    LevelsByName(l.defaultLevel);
    LogLine.NameBetweenBrackets(timestamp, level, message);
    LoggedInFull(l, message, level, timestamp, traces);
  }

  class Logger {
    var sinks: seq<SocketSink>
    var defaultLevel: LogLevel

    ghost predicate Distinct()
      reads this
    {
      forall i, j :: 0 <= i < j < |sinks| ==> sinks[i] != sinks[j]
    }

    ghost function States(): (states: seq<Sink>)
      reads this, sinks
      ensures |states| == |sinks|
    {
      seq(|sinks|, i requires 0 <= i < |sinks| reads this, sinks => sinks[i].State())
    }

    ghost function State(): LoggerState
      reads this, sinks
    {
      LoggerState(States(), defaultLevel, false)
    }

    constructor (defaultLevel: LogLevel)
      ensures Distinct() && sinks == [] && this.defaultLevel == defaultLevel
    {
      sinks := [];
      this.defaultLevel := defaultLevel;
    }

    method AddSink(sink: SocketSink)
      requires Distinct() && sink !in sinks
      modifies this`sinks
      ensures Distinct() && sinks == old(sinks) + [sink]
      ensures Changes(old(State()), SinkAdded(sink.State()), State())
    {
      sinks := sinks + [sink];
      assert States() == old(States()) + [sink.State()];
    }

    method ClearSinks()
      modifies this`sinks
      ensures Distinct() && sinks == []
      ensures Changes(old(State()), SinksCleared, State())
    {
      sinks := [];
    }

    method IsValid() returns (valid: bool)
      ensures valid <==> AnyValid(States())
    {
      for i := 0 to |sinks|
        invariant forall k :: 0 <= k < i ==> !SinkValid(States()[k])
      {
        if sinks[i].IsValid() {
          assert SinkValid(States()[i]);
          return true;
        }
      }
      return false;
    }

    /** Formats once and writes to the sinks in turn; the result says whether the call has
        returned. */
    method Log(message: string, level: LogLevel, timestamp: string, traces: seq<seq<SendResult>>) returns (finished: bool)
      requires Distinct() && |traces| == |sinks|
      modifies sinks
      ensures State().(stuck := !finished) ==
              Perform(old(State()), Call.Log(message, level, timestamp, traces))
    {
      if level < defaultLevel {
        return true;
      }
      var valid := IsValid();
      if !valid {
        return true;
      }
      var frame := LogLine.FormatMessage(timestamp, level, message);
      hide LogLine.FormatMessage, Written, SinkValid, AnyValid;
      for i := 0 to |sinks|
        invariant FanOut(States(), frame, traces, i) == FanOut(old(States()), frame, traces, 0)
      {
        var before := States();
        finished := sinks[i].Write(frame, traces[i]);
        assert States() == before[i := sinks[i].State()];
        if !finished {
          return;
        }
      }
      finished := true;
    }

    method ChangeDefaultLevel(level: LogLevel)
      modifies this`defaultLevel
      ensures State() == Perform(old(State()), Call.SetDefaultLevel(level))
    {
      defaultLevel := level;
    }
  }
}
