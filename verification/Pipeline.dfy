/** From the console to the statistics: the parts of the model put together. */
module Pipeline {
  import opened Options
  import opened LogLevels
  import opened Metrics
  import opened MessageProcessors
  import opened SocketSinks
  import A = Application
  import CommandParser
  import L = Loggers
  import LogLine
  import P = ProcessorProtocol
  import S = SocketServers

  datatype Frame = Frame(timestamp: string, level: LogLevel, message: string)

  function Text(f: Frame): string {
    LogLine.FormatMessage(f.timestamp, f.level, f.message)
  }

  ghost predicate Sound(f: Frame) {
    LogLine.Clean(f.timestamp) && Defined(f.level)
  }

  function Joined(frames: seq<Frame>): string {
    if frames == [] then "" else Joined(frames[..|frames| - 1]) + Text(frames[|frames| - 1])
  }

  function Flat(groups: seq<seq<Frame>>): seq<Frame> {
    if groups == [] then [] else Flat(groups[..|groups| - 1]) + groups[|groups| - 1]
  }

  // The batches the server hands over when it receives whole groups of frames.
  function Batches(groups: seq<seq<Frame>>): seq<string> {
    seq(|groups|, i requires 0 <= i < |groups| => Joined(groups[i]))
  }

  // The messages counted when batches are processed one after the other.
  function Counted(batches: seq<string>): seq<Message> {
    if batches == [] then [] else
    var earlier := Counted(batches[..|batches| - 1]);
    match Decoded(batches[|batches| - 1])
    case None => earlier
    case Some(m) => earlier + [m]
  }

  lemma {:induction false} JoinedConcat(a: seq<Frame>, b: seq<Frame>)
    ensures Joined(a + b) == Joined(a) + Joined(b)
  {
    hide Text;
    if b == [] {
      assert a + b == a;
    } else {
      assert (a + b)[..|a + b| - 1] == a + b[..|b| - 1];
      JoinedConcat(a, b[..|b| - 1]);
    }
  }

  // What a group is counted as: the first frame's level, the text after its header.
  function CountedAs(group: seq<Frame>): Message
    requires group != []
  {
    Message(LogLine.DropSpaces(group[0].message + Joined(group[1..])), group[0].level)
  }

  lemma GroupStarts(group: seq<Frame>)
    requires group != []
    ensures Joined(group) == Text(group[0]) + Joined(group[1..])
  {
    hide Text;
    var first := [group[0]];
    assert group == first + group[1..];
    JoinedConcat(first, group[1..]);
    assert first[..0] == [] && Joined([]) + Text(group[0]) == Text(group[0]);
  }

  lemma GroupDecodes(group: seq<Frame>)
    requires group != [] && Sound(group[0])
    ensures Decoded(Joined(group)) == Some(CountedAs(group))
  {
    hide LogLine.FormatMessage, LogLine.DropSpaces, LogLine.MessageOf, LogLine.ParseLevelFromLog, Joined;
    var f := group[0];
    GroupStarts(group);
    LogLine.BatchReadsAsFirstFrame(f.timestamp, f.level, f.message, Joined(group[1..]));
  }

  ghost predicate SoundGroups(groups: seq<seq<Frame>>) {
    forall i :: 0 <= i < |groups| ==> groups[i] != [] && Sound(groups[i][0])
  }

  // What the collector gets from the groups, one message each.
  function CountedFrom(groups: seq<seq<Frame>>): seq<Message>
    requires forall i :: 0 <= i < |groups| ==> groups[i] != []
  {
    seq(|groups|, i requires 0 <= i < |groups| => CountedAs(groups[i]))
  }

  /** Every batch of one or more whole frames is counted exactly once, with the level of
      its first frame and the text after that frame's header. */
  lemma {:induction false} BatchesCountOnce(groups: seq<seq<Frame>>)
    requires SoundGroups(groups)
    ensures Counted(Batches(groups)) == CountedFrom(groups)
  {
    hide CountedAs, Decoded, Joined, Sound;
    if groups != [] {
      var before, last := groups[..|groups| - 1], groups[|groups| - 1];
      BatchesCountOnce(before);
      GroupDecodes(last);
      var batches := Batches(groups);
      assert batches[..|batches| - 1] == Batches(before);
      assert CountedFrom(groups) == CountedFrom(before) + [CountedAs(last)];
    }
  }

  // The list of messages sent, each without its leading whitespace.
  function Sent(frames: seq<Frame>): seq<Message> {
    seq(|frames|, i requires 0 <= i < |frames| =>
      Message(LogLine.DropSpaces(frames[i].message), frames[i].level))
  }

  function OneEach(frames: seq<Frame>): seq<seq<Frame>> {
    seq(|frames|, i requires 0 <= i < |frames| => [frames[i]])
  }

  // ------------------------------------------------------- when every line is counted

  lemma OneEachIsSent(frames: seq<Frame>)
    ensures CountedFrom(OneEach(frames)) == Sent(frames)
  {
    hide LogLine.DropSpaces;
    var groups := OneEach(frames);
    forall i | 0 <= i < |frames|
      ensures CountedAs(groups[i]) == Message(LogLine.DropSpaces(frames[i].message), frames[i].level)
    {
      assert groups[i][1..] == [];
      assert frames[i].message + "" == frames[i].message;
    }
  }

  predicate OnePerBatch(groups: seq<seq<Frame>>) {
    forall i :: 0 <= i < |groups| ==> |groups[i]| == 1
  }

  lemma {:induction false} FlatCount(groups: seq<seq<Frame>>)
    requires forall i :: 0 <= i < |groups| ==> groups[i] != []
    ensures |Flat(groups)| >= |groups|
    ensures |Flat(groups)| == |groups| <==> OnePerBatch(groups)
    ensures OnePerBatch(groups) ==> groups == OneEach(Flat(groups))
  {
    if groups != [] {
      var before, last := groups[..|groups| - 1], groups[|groups| - 1];
      FlatCount(before);
      if OnePerBatch(groups) {
        assert last == [last[0]] && groups == before + [last];
      } else if OnePerBatch(before) {
        assert |last| > 1;
      }
    }
  }

  /** When every line is counted: of whole frames received in batches, each line is counted,
      with its own level and text, if and only if every batch holds exactly one frame; the
      count alone already tells. */
  lemma LinesCountedExactly(groups: seq<seq<Frame>>)
    requires SoundGroups(groups)
    ensures |Counted(Batches(groups))| == |Flat(groups)| <==> OnePerBatch(groups)
    ensures Counted(Batches(groups)) == Sent(Flat(groups)) <==> OnePerBatch(groups)
  {
    hide Sound, CountedAs, OnePerBatch, Counted, Batches, Flat;
    BatchesCountOnce(groups);
    FlatCount(groups);
    OneEachIsSent(Flat(groups));
  }

  // ------------------------------------------------------------- receiver and timer

  // What happens in the metrics application while batches come in: the clock goes on, the
  // thread that runs the server makes a move, the timer makes a move, stop is requested.
  datatype Move = ClockTicks(ticks: nat) | ReceiverThread | TimerThread | StopFlag

  // The protocol's events so far, and how many batches process_message has been given.
  datatype Feed = Feed(events: seq<P.Event>, taken: nat)

  // When idle, the receiver takes the next batch, and drops it if it cannot be read;
  // otherwise it goes on with its message, whatever message the event names.
  function ReceiverTurn(config: P.Config, start: int, batches: seq<string>, f: Feed): (f': Feed)
    requires P.Legal(config) && f.taken <= |batches|
    ensures f'.taken <= |batches|
  {
    if !P.After(config, start, f.events).receiver.Idle? then
      f.(events := f.events + [P.ReceiverMoves(Message("", INFO))])
    else if f.taken == |batches| then f
    else match Decoded(batches[f.taken])
      case None => f.(taken := f.taken + 1)
      case Some(m) => Feed(f.events + [P.ReceiverMoves(m)], f.taken + 1)
  }

  function Fed(config: P.Config, start: int, batches: seq<string>, moves: seq<Move>): (f: Feed)
    requires P.Legal(config)
    ensures f.taken <= |batches|
  {
    if moves == [] then Feed([], 0) else
    var f := Fed(config, start, batches, moves[..|moves| - 1]);
    match moves[|moves| - 1]
    case ClockTicks(ticks) => f.(events := f.events + [P.Tick(ticks)])
    case ReceiverThread => ReceiverTurn(config, start, batches, f)
    case TimerThread => f.(events := f.events + [P.TimerMoves])
    case StopFlag => f.(events := f.events + [P.StopRequested])
  }

  lemma ConsumedStep(config: P.Config, start: int, events: seq<P.Event>, event: P.Event)
    requires P.Legal(config)
    ensures P.Consumed(config, start, events + [event])
            == P.Consumed(config, start, events)
               + if event.ReceiverMoves? && P.After(config, start, events).receiver.Idle? then [event.message] else []
  {
    hide P.After;
    assert (events + [event])[..|events + [event]| - 1] == events;
  }

  lemma CountedStep(batches: seq<string>, taken: nat)
    requires taken < |batches|
    ensures Counted(batches[..taken + 1])
            == match Decoded(batches[taken])
               case None => Counted(batches[..taken])
               case Some(m) => Counted(batches[..taken]) + [m]
  {
    hide Decoded;
    assert batches[..taken + 1][..taken] == batches[..taken];
  }

  lemma TurnConsumes(config: P.Config, start: int, batches: seq<string>, f: Feed)
    requires P.Legal(config) && f.taken <= |batches|
    requires P.Consumed(config, start, f.events) == Counted(batches[..f.taken])
    ensures
      var f' := ReceiverTurn(config, start, batches, f);
      P.Consumed(config, start, f'.events) == Counted(batches[..f'.taken])
  {
    hide P.After, P.Consumed, Counted, Decoded;
    if !P.After(config, start, f.events).receiver.Idle? {
      ConsumedStep(config, start, f.events, P.ReceiverMoves(Message("", INFO)));
    } else if f.taken < |batches| {
      CountedStep(batches, f.taken);
      if Decoded(batches[f.taken]).Some? {
        ConsumedStep(config, start, f.events, P.ReceiverMoves(Decoded(batches[f.taken]).value));
      }
    }
  }

  lemma NothingConsumed(config: P.Config, start: int)
    requires P.Legal(config)
    ensures P.Consumed(config, start, []) == []
  {
  }

  lemma {:induction false} FedConsumes(config: P.Config, start: int, batches: seq<string>, moves: seq<Move>)
    requires P.Legal(config)
    ensures
      var f := Fed(config, start, batches, moves);
      P.Consumed(config, start, f.events) == Counted(batches[..f.taken])
  {
    hide P.After, P.Consumed, ReceiverTurn, Decoded;
    if moves == [] {
      NothingConsumed(config, start);
    } else {
      var f := Fed(config, start, batches, moves[..|moves| - 1]);
      FedConsumes(config, start, batches, moves[..|moves| - 1]);
      match moves[|moves| - 1]
      case ClockTicks(ticks) => ConsumedStep(config, start, f.events, P.Tick(ticks));
      case ReceiverThread => TurnConsumes(config, start, batches, f);
      case TimerThread => ConsumedStep(config, start, f.events, P.TimerMoves);
      case StopFlag => ConsumedStep(config, start, f.events, P.StopRequested);
    }
  }

  /** Batches to statistics: whatever the batches are, and however receiver, timer, clock
      and stop interleave, the collector holds exactly the readable ones among the batches
      taken, one message each and in order, and its statistics are their recomputation. */
  lemma BatchesToStatistics(config: P.Config, start: int, batches: seq<string>, moves: seq<Move>)
    requires P.Legal(config)
    ensures
      var f := Fed(config, start, batches, moves);
      var proc := P.After(config, start, f.events);
      && Messages(proc.history) == Counted(batches[..f.taken])
      && (Sized(Messages(proc.history)) ==> Describes(proc.stats, Counted(batches[..f.taken])))
  {
    hide Counted, Describes, P.After, P.Consumed, Fed, P.FromHistory, P.RisesPerThread, Run;
    var f := Fed(config, start, batches, moves);
    FedConsumes(config, start, batches, moves);
    P.HistoryIsConsumed(config, start, f.events);
    P.PrintsHold(config, start, f.events);
    var history := P.After(config, start, f.events).history;
    if Sized(Messages(history)) {
      StreamingIsRecomputation(history);
    }
  }

  // -------------------------------------------------------------- every batch is taken

  function ReceiverTurns(moves: seq<Move>): nat {
    if moves == [] then 0
    else ReceiverTurns(moves[..|moves| - 1]) + if moves[|moves| - 1].ReceiverThread? then 1 else 0
  }

  // Bounds the moves until the receiver is idle again.
  function MovesToIdle(r: P.ReceiverPc): nat {
    match r
    case Idle => 0
    case MessageAdded => 6
    case StampAdd(_) => 5
    case CheckInterval => 4
    case IntervalHit => 3
    case StatsPrinted => 2
    case StampPrint(_) => 1
  }

  function MovesLeft(config: P.Config, start: int, batches: seq<string>, f: Feed): nat
    requires P.Legal(config) && f.taken <= |batches|
  {
    7 * (|batches| - f.taken) + MovesToIdle(P.After(config, start, f.events).receiver)
  }

  lemma StepsToIdle(config: P.Config, s: P.Proc, message: Message)
    requires P.Legal(config)
    ensures
      var s' := P.Do(config, s, P.ReceiverMoves(message));
      if s.receiver.Idle? then s'.receiver.MessageAdded? else MovesToIdle(s'.receiver) < MovesToIdle(s.receiver)
  {
    hide Added, Printed, IntervalReached;
  }

  lemma OthersLeaveReceiver(config: P.Config, s: P.Proc, event: P.Event)
    requires P.Legal(config) && !event.ReceiverMoves?
    ensures P.Do(config, s, event).receiver == s.receiver
  {
  }

  lemma TurnAdvances(config: P.Config, start: int, batches: seq<string>, f: Feed)
    requires P.Legal(config) && f.taken <= |batches|
    ensures
      var left, left' := MovesLeft(config, start, batches, f),
                         MovesLeft(config, start, batches, ReceiverTurn(config, start, batches, f));
      left' < left || left' == left == 0
  {
    hide P.After, P.Do, Decoded;
    var s := P.After(config, start, f.events);
    if !s.receiver.Idle? {
      P.AfterOne(config, start, f.events, P.ReceiverMoves(Message("", INFO)));
      StepsToIdle(config, s, Message("", INFO));
    } else if f.taken < |batches| && Decoded(batches[f.taken]).Some? {
      var m := Decoded(batches[f.taken]).value;
      P.AfterOne(config, start, f.events, P.ReceiverMoves(m));
      StepsToIdle(config, s, m);
    }
  }

  lemma OtherMoveKeepsLeft(config: P.Config, start: int, batches: seq<string>, f: Feed, event: P.Event)
    requires P.Legal(config) && f.taken <= |batches| && !event.ReceiverMoves?
    ensures MovesLeft(config, start, batches, f.(events := f.events + [event])) == MovesLeft(config, start, batches, f)
  {
    hide P.After, P.Do;
    P.AfterOne(config, start, f.events, event);
    OthersLeaveReceiver(config, P.After(config, start, f.events), event);
  }

  lemma NothingTaken(config: P.Config, start: int, batches: seq<string>)
    requires P.Legal(config)
    ensures MovesLeft(config, start, batches, Fed(config, start, batches, [])) == 7 * |batches|
  {
  }

  lemma {:induction false} FedAdvances(config: P.Config, start: int, batches: seq<string>, moves: seq<Move>)
    requires P.Legal(config)
    ensures
      var left := MovesLeft(config, start, batches, Fed(config, start, batches, moves));
      left == 0 || left + ReceiverTurns(moves) <= 7 * |batches|
  {
    hide MovesLeft, ReceiverTurn;
    if moves == [] {
      NothingTaken(config, start, batches);
    } else {
      var f := Fed(config, start, batches, moves[..|moves| - 1]);
      FedAdvances(config, start, batches, moves[..|moves| - 1]);
      match moves[|moves| - 1]
      case ClockTicks(ticks) => OtherMoveKeepsLeft(config, start, batches, f, P.Tick(ticks));
      case ReceiverThread => TurnAdvances(config, start, batches, f);
      case TimerThread => OtherMoveKeepsLeft(config, start, batches, f, P.TimerMoves);
      case StopFlag => OtherMoveKeepsLeft(config, start, batches, f, P.StopRequested);
    }
  }

  /** Every batch is taken: seven moves of the receiver for each batch are enough, however
      many moves of the clock, the timer and a stop come in between; the receiver is then
      idle, having dealt with all of them. */
  lemma EveryBatchIsTaken(config: P.Config, start: int, batches: seq<string>, moves: seq<Move>)
    requires P.Legal(config) && ReceiverTurns(moves) >= 7 * |batches|
    ensures
      var f := Fed(config, start, batches, moves);
      var proc := P.After(config, start, f.events);
      f.taken == |batches| && proc.receiver.Idle? && Messages(proc.history) == Counted(batches)
  {
    hide Fed, P.After, Counted;
    FedAdvances(config, start, batches, moves);
    BatchesToStatistics(config, start, batches, moves);
    assert batches[..|batches|] == batches;
  }

  // The events that are not the receiver's, and the moves that stand for them.
  function OtherEvents(events: seq<P.Event>): seq<P.Event> {
    if events == [] then [] else
    var last := events[|events| - 1];
    OtherEvents(events[..|events| - 1]) + if last.ReceiverMoves? then [] else [last]
  }

  function OtherMoves(moves: seq<Move>): seq<P.Event> {
    if moves == [] then [] else
    OtherMoves(moves[..|moves| - 1]) +
    match moves[|moves| - 1]
    case ClockTicks(ticks) => [P.Tick(ticks)]
    case ReceiverThread => []
    case TimerThread => [P.TimerMoves]
    case StopFlag => [P.StopRequested]
  }

  lemma OtherEventsStep(events: seq<P.Event>, event: P.Event)
    ensures OtherEvents(events + [event]) == OtherEvents(events) + if event.ReceiverMoves? then [] else [event]
  {
    assert (events + [event])[..|events + [event]| - 1] == events;
  }

  lemma TurnKeepsOthers(config: P.Config, start: int, batches: seq<string>, f: Feed)
    requires P.Legal(config) && f.taken <= |batches|
    ensures OtherEvents(ReceiverTurn(config, start, batches, f).events) == OtherEvents(f.events)
  {
    hide P.After, Decoded, OtherEvents;
    OtherEventsStep(f.events, P.ReceiverMoves(Message("", INFO)));
    if f.taken < |batches| && Decoded(batches[f.taken]).Some? {
      OtherEventsStep(f.events, P.ReceiverMoves(Decoded(batches[f.taken]).value));
    }
    assert OtherEvents(f.events) + [] == OtherEvents(f.events);
  }

  /** The receiver does not get in the others' way: clock, timer and stop do exactly what
      the moves say, in that order. */
  lemma {:induction false} OthersAreNotHeldUp(config: P.Config, start: int, batches: seq<string>, moves: seq<Move>)
    requires P.Legal(config)
    ensures OtherEvents(Fed(config, start, batches, moves).events) == OtherMoves(moves)
  {
    hide ReceiverTurn;
    if moves != [] {
      var f := Fed(config, start, batches, moves[..|moves| - 1]);
      OthersAreNotHeldUp(config, start, batches, moves[..|moves| - 1]);
      assert OtherMoves(moves[..|moves| - 1]) + [] == OtherMoves(moves[..|moves| - 1]);
      match moves[|moves| - 1]
      case ClockTicks(ticks) => OtherEventsStep(f.events, P.Tick(ticks));
      case ReceiverThread => TurnKeepsOthers(config, start, batches, f);
      case TimerThread => OtherEventsStep(f.events, P.TimerMoves);
      case StopFlag => OtherEventsStep(f.events, P.StopRequested);
    }
  }

  // ------------------------------------------------------- batches that end with frames

  // Every batch ends where a frame ends, the i-th one with the frame number cuts[i + 1].
  predicate EndsAtFrames(frames: seq<Frame>, batches: seq<string>, cuts: seq<nat>) {
    && |cuts| == |batches| + 1 && cuts[0] == 0
    && forall i :: 0 <= i < |cuts| ==>
         cuts[i] <= |frames| && |S.Concat(batches[..i])| == |Joined(frames[..cuts[i]])|
  }

  predicate Increasing(cuts: seq<nat>, n: nat) {
    && |cuts| > 0
    && (forall i :: 0 <= i < |cuts| ==> cuts[i] <= n)
    && (forall i :: 0 <= i < |cuts| - 1 ==> cuts[i] < cuts[i + 1])
  }

  // The frames between one cut and the next.
  function Grouped(frames: seq<Frame>, cuts: seq<nat>): (groups: seq<seq<Frame>>)
    requires Increasing(cuts, |frames|)
    ensures |groups| == |cuts| - 1 && forall i :: 0 <= i < |groups| ==> groups[i] != []
  {
    seq(|cuts| - 1, i requires 0 <= i < |cuts| - 1 => frames[cuts[i]..cuts[i + 1]])
  }

  lemma {:induction false} ConcatOfPrefix(batches: seq<string>, i: nat)
    requires i <= |batches|
    ensures S.Concat(batches[..i]) <= S.Concat(batches)
  {
    if i < |batches| {
      var before := batches[..|batches| - 1];
      ConcatOfPrefix(before, i);
      assert before[..i] == batches[..i];
    } else {
      assert batches[..i] == batches;
    }
  }

  lemma JoinedOfPart(frames: seq<Frame>, from: nat, to: nat)
    requires from <= to <= |frames|
    ensures Joined(frames[..to]) == Joined(frames[..from]) + Joined(frames[from..to])
  {
    assert frames[..to] == frames[..from] + frames[from..to];
    JoinedConcat(frames[..from], frames[from..to]);
  }

  lemma JoinedOfPrefix(frames: seq<Frame>, to: nat)
    requires to <= |frames|
    ensures Joined(frames) == Joined(frames[..to]) + Joined(frames[to..])
  {
    assert frames[..|frames|] == frames && frames[to..|frames|] == frames[to..];
    JoinedOfPart(frames, to, |frames|);
  }

  lemma SamePrefix(a: string, b: string, s: string)
    requires a <= s && b <= s && |a| == |b|
    ensures a == b
  {
  }

  lemma SameRest(a: string, b: string, c: string)
    requires a + b == a + c
    ensures b == c
  {
    assert |b| == |c|;
    forall i | 0 <= i < |b| ensures b[i] == c[i] {
      assert (a + b)[|a| + i] == b[i] && (a + c)[|a| + i] == c[i];
    }
  }

  lemma PrefixIsJoined(frames: seq<Frame>, batches: seq<string>, cuts: seq<nat>, i: nat)
    requires S.Concat(batches) <= Joined(frames) && EndsAtFrames(frames, batches, cuts) && i < |cuts|
    ensures S.Concat(batches[..i]) == Joined(frames[..cuts[i]])
  {
    hide Joined, S.Concat;
    ConcatOfPrefix(batches, i);
    JoinedOfPrefix(frames, cuts[i]);
    SamePrefix(S.Concat(batches[..i]), Joined(frames[..cuts[i]]), Joined(frames));
  }

  lemma ConcatStep(batches: seq<string>, i: nat)
    requires i < |batches|
    ensures S.Concat(batches[..i + 1]) == S.Concat(batches[..i]) + batches[i]
  {
    assert batches[..i + 1][..i] == batches[..i];
  }

  lemma BatchIsGroup(frames: seq<Frame>, batches: seq<string>, cuts: seq<nat>, i: nat)
    requires S.Concat(batches) <= Joined(frames) && EndsAtFrames(frames, batches, cuts)
    requires i < |batches| && batches[i] != ""
    ensures cuts[i] < cuts[i + 1] <= |frames| && batches[i] == Joined(frames[cuts[i]..cuts[i + 1]])
  {
    hide Joined, S.Concat;
    PrefixIsJoined(frames, batches, cuts, i);
    PrefixIsJoined(frames, batches, cuts, i + 1);
    ConcatStep(batches, i);
    if cuts[i + 1] <= cuts[i] {
      JoinedOfPart(frames, cuts[i + 1], cuts[i]);
      assert false;
    }
    JoinedOfPart(frames, cuts[i], cuts[i + 1]);
    SameRest(S.Concat(batches[..i]), batches[i], Joined(frames[cuts[i]..cuts[i + 1]]));
  }

  lemma BatchesAreGroups(frames: seq<Frame>, batches: seq<string>, cuts: seq<nat>)
    requires S.Concat(batches) <= Joined(frames) && EndsAtFrames(frames, batches, cuts)
    requires S.NoEmptyBatch(batches)
    ensures Increasing(cuts, |frames|) && batches == Batches(Grouped(frames, cuts))
  {
    hide Joined, S.Concat;
    forall i | 0 <= i < |batches|
      ensures cuts[i] < cuts[i + 1] && batches[i] == Joined(frames[cuts[i]..cuts[i + 1]])
    {
      BatchIsGroup(frames, batches, cuts, i);
    }
  }

  lemma {:induction false} FlatOfGrouped(frames: seq<Frame>, cuts: seq<nat>)
    requires Increasing(cuts, |frames|) && cuts[0] == 0
    ensures Flat(Grouped(frames, cuts)) == frames[..cuts[|cuts| - 1]]
  {
    var n := |cuts| - 1;
    if n > 0 {
      FlatOfGrouped(frames, cuts[..n]);
      assert Grouped(frames, cuts)[..n - 1] == Grouped(frames, cuts[..n]);
      assert frames[..cuts[n]] == frames[..cuts[n - 1]] + frames[cuts[n - 1]..cuts[n]];
    }
  }

  // ------------------------------------------------------- console to the wire

  function Calls(entries: seq<A.LogEntry>, stamps: seq<string>, traces: seq<seq<SendResult>>): seq<L.Call>
    requires |entries| == |stamps| == |traces|
  {
    seq(|entries|, i requires 0 <= i < |entries| =>
      L.Log(entries[i].message, entries[i].level, stamps[i], [traces[i]]))
  }

  // The frames of the entries that pass the level filter.
  function Passing(level: LogLevel, entries: seq<A.LogEntry>, stamps: seq<string>): seq<Frame>
    requires |entries| == |stamps|
  {
    if entries == [] then [] else
    var n := |entries| - 1;
    Passing(level, entries[..n], stamps[..n])
    + if entries[n].level >= level then [Frame(stamps[n], entries[n].level, entries[n].message)] else []
  }

  lemma {:induction false} LevelNeverChanges(level: LogLevel, calls: seq<L.Call>)
    requires forall c :: c in calls ==> c.Log?
    ensures L.LevelAfter(level, calls) == level
  {
    if calls != [] {
      assert calls[|calls| - 1] in calls;
      LevelNeverChanges(level, calls[..|calls| - 1]);
    }
  }

  lemma {:induction false} FramesArePassing(level: LogLevel, entries: seq<A.LogEntry>, stamps: seq<string>,
                                           traces: seq<seq<SendResult>>)
    requires |entries| == |stamps| == |traces|
    ensures L.Frames(level, Calls(entries, stamps, traces)) == Joined(Passing(level, entries, stamps))
  {
    hide LogLine.FormatMessage;
    if entries != [] {
      var n := |entries| - 1;
      var calls := Calls(entries, stamps, traces);
      assert calls[..n] == Calls(entries[..n], stamps[..n], traces[..n]);
      FramesArePassing(level, entries[..n], stamps[..n], traces[..n]);
      LevelNeverChanges(level, calls[..n]);
      var earlier := Passing(level, entries[..n], stamps[..n]);
      if entries[n].level >= level {
        var f := Frame(stamps[n], entries[n].level, entries[n].message);
        assert (earlier + [f])[..|earlier + [f]| - 1] == earlier;
      } else {
        assert Joined(earlier) + "" == Joined(earlier);
        assert earlier + [] == earlier;
      }
    }
  }

  /** Messages that come from the console keep their text, and so their length, exactly
      unless they start with a vertical tab or a form feed, which trim does not strip. */
  lemma ConsoleMessageSurvivesExactly(input: string, message: string, level: Option<LogLevel>)
    requires CommandParser.ParseCommand(input) == Some(CommandParser.LogMessage(message, level))
    ensures message != ""
    ensures LogLine.DropSpaces(message) == message <==> message[0] != '\U{000B}' && message[0] != '\U{000C}'
  {
  }

  lemma WrittenLevelIsDefined(input: string, message: string, level: LogLevel)
    requires CommandParser.WrittenWithLevel(input, message, level)
    ensures Defined(level)
  {
  }

  lemma {:induction false} EntriesHaveLevels(config: A.Config, lines: seq<string>)
    requires Defined(config.defaultLevel)
    ensures forall e :: e in A.Entries(config, lines) ==> Defined(e.level)
  {
    hide CommandParser.ParseCommand;
    if lines != [] {
      EntriesHaveLevels(config, lines[1..]);
      var command := CommandParser.ParseCommand(lines[0]);
      if command.Some? && command.value.LogMessage? && command.value.level.Some? {
        CommandParser.LevelTakenExactly(lines[0], command.value.message, command.value.level.value);
        WrittenLevelIsDefined(lines[0], command.value.message, command.value.level.value);
      }
    }
  }

  lemma {:induction false} PassingIsSound(level: LogLevel, entries: seq<A.LogEntry>, stamps: seq<string>)
    requires |entries| == |stamps|
    requires forall e :: e in entries ==> Defined(e.level)
    requires forall t :: t in stamps ==> LogLine.Clean(t)
    ensures forall f :: f in Passing(level, entries, stamps) ==> Sound(f)
  {
    if entries != [] {
      var n := |entries| - 1;
      assert entries[n] in entries && stamps[n] in stamps;
      PassingIsSound(level, entries[..n], stamps[..n]);
    }
  }

  // The logger after the worker's calls, on one freshly connected socket sink.
  function Logged(level: LogLevel, fd: int, entries: seq<A.LogEntry>, stamps: seq<string>,
                  traces: seq<seq<SendResult>>): (l: L.LoggerState)
    requires |entries| == |stamps| == |traces|
    ensures |l.sinks| == 1
  {
    L.PerformAll(L.LoggerState([Sink(fd, true, "")], level, false), Calls(entries, stamps, traces))
  }

  lemma WireIsPassing(level: LogLevel, fd: int, entries: seq<A.LogEntry>, stamps: seq<string>,
                      traces: seq<seq<SendResult>>)
    requires |entries| == |stamps| == |traces|
    ensures
      var l := Logged(level, fd, entries, stamps, traces);
      && l.sinks[0].wire <= Joined(Passing(level, entries, stamps))
      && (SinkValid(l.sinks[0]) && !l.stuck ==> l.sinks[0].wire == Joined(Passing(level, entries, stamps)))
  {
    hide L.PerformAll, L.Frames, Joined, Passing, SinkValid;
    L.WireIsPrefixOfFrames(L.LoggerState([Sink(fd, true, "")], level, false), Calls(entries, stamps, traces));
    FramesArePassing(level, entries, stamps, traces);
  }

  lemma LoggedIsExpected(config: A.Config, lines: seq<string>, states: seq<A.App>)
    requires |states| > 0 && A.Run(config, lines, true, states) && states[|states| - 1].reader.Finished?
    ensures states[|states| - 1].logged == A.Entries(config, lines)
  {
    hide A.Next, A.Entries;
    A.ThreadLifecycle(config, lines, true, states, |states| - 1);
    A.JoinedMeansDrained(config, lines, true, states, |states| - 1);
  }

  // -------------------------------------------------------------- the whole pipeline

  // One execution of both programs: an interleaving of the console application, at any
  // state of it; the time stamps and the results of poll and send for the calls of its
  // worker; the results of poll and recv in the server; and the moves of the threads of
  // the metrics application.
  datatype Execution = Execution(
    console: A.Config, lines: seq<string>, states: seq<A.App>,
    fd: int, stamps: seq<string>, traces: seq<seq<SendResult>>,
    clientFd: int, serverFd: int, polls: seq<S.PollResult>,
    processor: P.Config, start: int, moves: seq<Move>)

  function Logs(x: Execution): seq<A.LogEntry>
    requires |x.states| > 0
  {
    x.states[|x.states| - 1].logged
  }

  predicate Traced(x: Execution) {
    |x.states| > 0 && |Logs(x)| == |x.stamps| == |x.traces|
  }

  // The frames of the entries logged so far that pass the level filter.
  function Shipped(x: Execution): seq<Frame>
    requires Traced(x)
  {
    Passing(x.console.defaultLevel, Logs(x), x.stamps)
  }

  function Sender(x: Execution): (l: L.LoggerState)
    requires Traced(x)
    ensures |l.sinks| == 1
  {
    Logged(x.console.defaultLevel, x.fd, Logs(x), x.stamps, x.traces)
  }

  function Served(x: Execution): S.Server {
    S.RunLoop(S.Server("", true, x.clientFd, x.serverFd, true, "", []), x.polls).0
  }

  function Taking(x: Execution): (f: Feed)
    requires P.Legal(x.processor)
    ensures f.taken <= |Served(x).delivered|
  {
    Fed(x.processor, x.start, Served(x).delivered, x.moves)
  }

  function Collected(x: Execution): P.Proc
    requires P.Legal(x.processor)
  {
    P.After(x.processor, x.start, Taking(x).events)
  }

  // All that is asked of an execution; the connection is a byte stream, so the server has
  // received some beginning of what the sink has put on the wire.
  ghost predicate Possible(x: Execution) {
    && Traced(x) && A.Run(x.console, x.lines, true, x.states)
    && Defined(x.console.defaultLevel) && (forall t :: t in x.stamps ==> LogLine.Clean(t))
    && P.Legal(x.processor)
    && Served(x).received <= Sender(x).sinks[0].wire
  }

  // Nothing is left anywhere: the console application has ended, its sink is still
  // connected, all bytes have arrived and all batches have been taken.
  predicate Complete(x: Execution)
    requires Traced(x) && P.Legal(x.processor)
  {
    && x.states[|x.states| - 1].reader.Finished?
    && SinkValid(Sender(x).sinks[0]) && !Sender(x).stuck
    && Served(x).received == Sender(x).sinks[0].wire && Served(x).buffer == ""
    && Taking(x).taken == |Served(x).delivered|
  }

  lemma FirstPart(a: seq<A.LogEntry>, b: seq<A.LogEntry>, c: seq<A.LogEntry>, d: seq<A.LogEntry>, all: seq<A.LogEntry>)
    requires a + b + c + d == all
    ensures a <= all
  {
    assert all == a + (b + c + d);
  }

  lemma LogsAreExpected(x: Execution)
    requires Traced(x) && A.Run(x.console, x.lines, true, x.states)
    ensures Logs(x) <= A.Entries(x.console, x.lines)
  {
    hide A.Next, A.Entries, A.Remaining, A.InHand;
    var last := x.states[|x.states| - 1];
    A.NothingLostAnywhere(x.console, x.lines, true, x.states, |x.states| - 1);
    FirstPart(last.logged, A.InHand(last.worker), last.monitor.queue,
              A.Remaining(x.console, last.reader, last.flag, last.lines), A.Entries(x.console, x.lines));
  }

  lemma ShippedIsSound(x: Execution)
    requires Possible(x)
    ensures forall f :: f in Shipped(x) ==> Sound(f)
  {
    hide A.Next, A.Entries, Sound, Served, Sender, LogLine.Clean, Passing;
    LogsAreExpected(x);
    EntriesHaveLevels(x.console, x.lines);
    var all, some := A.Entries(x.console, x.lines), Logs(x);
    assert forall e :: e in some ==> e in all;
    PassingIsSound(x.console.defaultLevel, some, x.stamps);
  }

  /** Bytes from the console to the callback: at every moment of every execution, with a
      sink that may disconnect and a server that may stop anywhere, the entries logged are
      a beginning of those typed, the bytes on the wire a beginning of their frames, and
      what the callback was given, followed by the server's buffer, a beginning of the
      bytes on the wire. */
  lemma BytesFollowThrough(x: Execution)
    requires Possible(x)
    ensures Logs(x) <= A.Entries(x.console, x.lines)
    ensures Sender(x).sinks[0].wire <= Joined(Shipped(x))
    ensures S.Concat(Served(x).delivered) + Served(x).buffer == Served(x).received <= Sender(x).sinks[0].wire
    ensures S.Concat(Served(x).delivered) <= Joined(Shipped(x)) && S.NoEmptyBatch(Served(x).delivered)
  {
    hide A.Next, A.Entries, L.PerformAll, S.RunLoop, S.Concat, Joined, Passing, LogLine.Clean, SinkValid;
    LogsAreExpected(x);
    WireIsPassing(x.console.defaultLevel, x.fd, Logs(x), x.stamps, x.traces);
    var s := S.Server("", true, x.clientFd, x.serverFd, true, "", []);
    S.NothingYet(s);
    S.RunConserves(s, x.polls);
    S.BatchesAreNonEmpty(s, x.polls);
    assert S.Concat(Served(x).delivered) <= Served(x).received;
  }

  lemma GroupedIsSound(frames: seq<Frame>, cuts: seq<nat>)
    requires Increasing(cuts, |frames|) && forall f :: f in frames ==> Sound(f)
    ensures SoundGroups(Grouped(frames, cuts))
  {
    hide Sound;
    var groups := Grouped(frames, cuts);
    forall i | 0 <= i < |groups|
      ensures Sound(groups[i][0])
    {
      assert groups[i][0] == frames[cuts[i]];
      assert frames[cuts[i]] in frames;
    }
  }

  lemma TakenBatches(x: Execution, groups: seq<seq<Frame>>)
    requires P.Legal(x.processor) && SoundGroups(groups) && Served(x).delivered == Batches(groups)
    ensures Taking(x).taken <= |groups|
    ensures
      var taken := groups[..Taking(x).taken];
      && Messages(Collected(x).history) == CountedFrom(taken)
      && (Sized(Messages(Collected(x).history)) ==> Describes(Collected(x).stats, CountedFrom(taken)))
  {
    hide Served, Fed, P.After, Describes, Sized, Messages, Counted, Sound, Joined, CountedAs;
    var batches, k := Served(x).delivered, Taking(x).taken;
    BatchesToStatistics(x.processor, x.start, batches, x.moves);
    assert batches[..k] == Batches(groups[..k]);
    BatchesCountOnce(groups[..k]);
  }

  /** Console to statistics. Take any execution at any moment: any interleaving of the
      console application, sends that may fail anywhere, any results of poll and recv in
      the server, any interleaving of receiver, timer, clock and stop. If every batch ends
      where a frame ends, then the batches are groups of one or more consecutive frames of
      the LOG_MESSAGE commands that pass the filter, and the collector holds one message
      for each batch taken, with the first frame's level and the text behind its header;
      its statistics are the recomputation over that list. */
  lemma ConsoleToStatistics(x: Execution, cuts: seq<nat>)
    requires Possible(x) && EndsAtFrames(Shipped(x), Served(x).delivered, cuts)
    ensures Logs(x) <= A.Entries(x.console, x.lines)
    ensures Increasing(cuts, |Shipped(x)|) && SoundGroups(Grouped(Shipped(x), cuts))
    ensures Served(x).delivered == Batches(Grouped(Shipped(x), cuts))
    ensures
      var groups := Grouped(Shipped(x), cuts)[..Taking(x).taken];
      && Messages(Collected(x).history) == CountedFrom(groups)
      && (Sized(Messages(Collected(x).history)) ==> Describes(Collected(x).stats, CountedFrom(groups)))
  {
    hide A.Run, A.Entries, LogLine.Clean, Defined, Sized, Describes, Messages, CountedFrom, Sound, SoundGroups, EndsAtFrames;
    hide Shipped, Served, Sender, Collected, Taking, Joined, Batches, Grouped, Increasing, S.Concat;
    BytesFollowThrough(x);
    BatchesAreGroups(Shipped(x), Served(x).delivered, cuts);
    ShippedIsSound(x);
    GroupedIsSound(Shipped(x), cuts);
    TakenBatches(x, Grouped(Shipped(x), cuts));
  }

  lemma NoFramesLeft(frames: seq<Frame>, to: nat)
    requires to <= |frames| && Joined(frames) == Joined(frames[..to])
    ensures to == |frames|
  {
    hide Joined;
    JoinedOfPrefix(frames, to);
    if to < |frames| {
      GroupStarts(frames[to..]);
      L.FrameIsNotEmpty(frames[to].timestamp, frames[to].level, frames[to].message);
    }
  }

  lemma AllArrived(x: Execution, cuts: seq<nat>)
    requires Possible(x) && Complete(x) && EndsAtFrames(Shipped(x), Served(x).delivered, cuts)
    ensures Logs(x) == A.Entries(x.console, x.lines) && cuts[|cuts| - 1] == |Shipped(x)|
  {
    hide A.Next, A.Entries, L.PerformAll, S.RunLoop, S.Concat, Joined, Passing, LogLine.Clean, SinkValid, Taking;
    LoggedIsExpected(x.console, x.lines, x.states);
    BytesFollowThrough(x);
    WireIsPassing(x.console.defaultLevel, x.fd, Logs(x), x.stamps, x.traces);
    var batches := Served(x).delivered;
    PrefixIsJoined(Shipped(x), batches, cuts, |batches|);
    assert batches[..|batches|] == batches;
    assert S.Concat(batches) + "" == S.Concat(batches);
    NoFramesLeft(Shipped(x), cuts[|batches|]);
  }

  /** When the whole pipeline counts every line: in an execution in which nothing is left
      anywhere and batches end with frames, the collector holds exactly the LOG_MESSAGE
      commands typed before exit that pass the filter, each with its level and its text
      without leading whitespace, if and only if the server has made as many deliveries
      as there are lines. */
  lemma EveryLineCountedExactly(x: Execution, cuts: seq<nat>)
    requires Possible(x) && Complete(x) && EndsAtFrames(Shipped(x), Served(x).delivered, cuts)
    ensures Logs(x) == A.Entries(x.console, x.lines)
    ensures Messages(Collected(x).history) == Sent(Shipped(x)) <==> |Served(x).delivered| == |Shipped(x)|
    ensures |Messages(Collected(x).history)| == |Shipped(x)| <==> |Served(x).delivered| == |Shipped(x)|
  {
    hide A.Run, A.Entries, LogLine.Clean, Defined, Sized, Describes, Messages, Sound, CountedAs;
    hide Shipped, Served, Sender, Collected, Taking, Joined, Batches, S.Concat, Counted, Sent, Flat;
    AllArrived(x, cuts);
    ConsoleToStatistics(x, cuts);
    var frames, groups := Shipped(x), Grouped(Shipped(x), cuts);
    assert groups[..Taking(x).taken] == groups;
    BatchesCountOnce(groups);
    LinesCountedExactly(groups);
    FlatOfGrouped(frames, cuts);
    assert frames[..|frames|] == frames;
    FlatCount(groups);
  }

  lemma GroupsOfOne(frames: seq<Frame>, cuts: seq<nat>, k: nat)
    requires Increasing(cuts, |frames|) && k < |cuts| && forall i :: 0 <= i < |cuts| ==> cuts[i] == i
    ensures k <= |frames| && Grouped(frames, cuts)[..k] == OneEach(frames[..k])
  {
    var groups := Grouped(frames, cuts)[..k];
    assert cuts[k] == k;
    forall i | 0 <= i < k
      ensures groups[i] == [frames[..k][i]]
    {
      assert groups[i] == frames[cuts[i]..cuts[i + 1]] == frames[i..i + 1];
    }
  }

  /** One frame per delivery: at every moment of every execution the collector then holds
      the beginning of the list of messages sent that corresponds to the batches taken. */
  lemma OneFramePerBatch(x: Execution, cuts: seq<nat>)
    requires Possible(x) && EndsAtFrames(Shipped(x), Served(x).delivered, cuts)
    requires forall i :: 0 <= i < |cuts| ==> cuts[i] == i
    ensures Taking(x).taken <= |Shipped(x)|
    ensures Messages(Collected(x).history) == Sent(Shipped(x)[..Taking(x).taken])
    ensures Sized(Messages(Collected(x).history)) ==>
              Describes(Collected(x).stats, Sent(Shipped(x)[..Taking(x).taken]))
  {
    hide A.Run, A.Entries, LogLine.Clean, Defined, Sized, Describes, Messages, Sound, CountedFrom;
    hide Shipped, Served, Sender, Collected, Taking, Joined, Batches, S.Concat, Sent;
    ConsoleToStatistics(x, cuts);
    var frames, k := Shipped(x), Taking(x).taken;
    GroupsOfOne(frames, cuts, k);
    OneEachIsSent(frames[..k]);
  }

  // ------------------------------------------------------- nothing has to be left behind

  // Send takes the whole line of every entry that is logged.
  predicate LinesTaken(entries: seq<A.LogEntry>, stamps: seq<string>, traces: seq<seq<SendResult>>)
    requires |entries| == |stamps| == |traces|
  {
    forall i :: 0 <= i < |entries| ==>
      BytesTaken(traces[i]) >= |LogLine.FormatMessage(stamps[i], entries[i].level, entries[i].message)|
  }

  lemma {:induction false} SentInFull(level: LogLevel, fd: int, entries: seq<A.LogEntry>, stamps: seq<string>,
                                      traces: seq<seq<SendResult>>)
    requires |entries| == |stamps| == |traces| && LinesTaken(entries, stamps, traces) && fd != -1
    ensures
      var l := Logged(level, fd, entries, stamps, traces);
      !l.stuck && SinkValid(l.sinks[0])
  {
    hide LogLine.FormatMessage, L.Perform, BytesTaken;
    if entries != [] {
      var n := |entries| - 1;
      var calls := Calls(entries, stamps, traces);
      assert calls[..n] == Calls(entries[..n], stamps[..n], traces[..n]);
      SentInFull(level, fd, entries[..n], stamps[..n], traces[..n]);
      L.LoggedInFull(Logged(level, fd, entries[..n], stamps[..n], traces[..n]), entries[n].message, entries[n].level,
                     stamps[n], [traces[n]]);
    }
  }

  // The server's rounds when each frame arrives on its own.
  function FrameByFrame(frames: seq<Frame>): seq<S.PollResult> {
    seq(|frames|, i requires 0 <= i < |frames| => S.Ready(true, false, [S.Bytes(Text(frames[i])), S.WouldBlock]))
  }

  lemma RoundOfFrame(f: Frame)
    ensures
      var results := [S.Bytes(Text(f)), S.WouldBlock];
      S.DrainsFirst(results) && S.BytesRead(results) == Text(f) && Text(f) != ""
  {
    hide LogLine.FormatMessage;
    L.FrameIsNotEmpty(f.timestamp, f.level, f.message);
    var results := [S.Bytes(Text(f)), S.WouldBlock];
    assert results[1..] == [S.WouldBlock];
    assert Text(f) + "" == Text(f);
  }

  lemma OneFrameJoined(f: Frame)
    ensures Joined([f]) == Text(f)
  {
    hide Text;
    assert [f][..0] == [] && "" + Text(f) == Text(f);
  }

  lemma {:induction false} RoundsOfFrames(frames: seq<Frame>)
    ensures
      var rounds := S.ReadingRounds(FrameByFrame(frames));
      && S.BytesOf(rounds) == Joined(frames) && S.BatchesOf(rounds) == Batches(OneEach(frames))
      && forall i :: 0 <= i < |rounds| ==> S.DrainsFirst(rounds[i])
  {
    hide Text, S.DrainsFirst, S.BytesRead;
    if frames != [] {
      var rest, polls := frames[1..], FrameByFrame(frames);
      var results := [S.Bytes(Text(frames[0])), S.WouldBlock];
      assert polls[0] == S.Ready(true, false, results) && polls[1..] == FrameByFrame(rest);
      RoundOfFrame(frames[0]);
      RoundsOfFrames(rest);
      GroupStarts(frames);
      OneFrameJoined(frames[0]);
      var rounds := S.ReadingRounds(polls);
      assert rounds == [results] + S.ReadingRounds(polls[1..]) && rounds[1..] == S.ReadingRounds(polls[1..]);
      assert Batches(OneEach(frames)) == [Text(frames[0])] + Batches(OneEach(rest));
    }
  }

  lemma {:induction false} ConcatOfEach(frames: seq<Frame>)
    ensures S.Concat(Batches(OneEach(frames))) == Joined(frames)
  {
    hide Text;
    if frames != [] {
      var before, last := frames[..|frames| - 1], frames[|frames| - 1];
      ConcatOfEach(before);
      OneFrameJoined(last);
      var batches := Batches(OneEach(frames));
      assert batches[..|batches| - 1] == Batches(OneEach(before));
    }
  }

  lemma EachEndsAtFrame(frames: seq<Frame>, cuts: seq<nat>)
    requires |cuts| == |frames| + 1 && forall i :: 0 <= i < |cuts| ==> cuts[i] == i
    ensures EndsAtFrames(frames, Batches(OneEach(frames)), cuts)
  {
    hide Joined, S.Concat;
    var batches := Batches(OneEach(frames));
    forall i | 0 <= i < |cuts|
      ensures |S.Concat(batches[..i])| == |Joined(frames[..cuts[i]])|
    {
      assert batches[..i] == Batches(OneEach(frames[..i]));
      ConcatOfEach(frames[..i]);
    }
  }

  lemma {:induction false} OnlyReceiver(n: nat)
    ensures ReceiverTurns(seq(n, i => ReceiverThread)) == n
  {
    var moves := seq(n, i => ReceiverThread);
    if n > 0 {
      assert moves[..n - 1] == seq(n - 1, i => ReceiverThread);
      OnlyReceiver(n - 1);
    }
  }

  // An execution in which the console application comes to its end, send takes every line
  // at once, and the lines arrive one by one and are dealt with one by one.
  lemma SmoothExecution(console: A.Config, lines: seq<string>, processor: P.Config, start: int) returns (x: Execution)
    requires Defined(console.defaultLevel) && P.Legal(processor)
    ensures x.console == console && x.lines == lines && x.processor == processor && x.start == start
    ensures Traced(x) && A.Run(console, lines, true, x.states) && x.states[|x.states| - 1].reader.Finished?
    ensures forall t :: t in x.stamps ==> t == ""
    ensures LinesTaken(Logs(x), x.stamps, x.traces) && x.fd != -1
    ensures x.polls == FrameByFrame(Shipped(x)) && ReceiverTurns(x.moves) == 7 * |Shipped(x)|
  {
    hide A.Next, LogLine.FormatMessage, Passing;
    var states := A.CanFinish(console, lines, true, [A.Initial(lines, true)]);
    var entries := states[|states| - 1].logged;
    var stamps := seq(|entries|, i => "");
    var traces := seq(|entries|, i requires 0 <= i < |entries| =>
                        [SendResult.Sent(|LogLine.FormatMessage("", entries[i].level, entries[i].message)|)]);
    var frames := Passing(console.defaultLevel, entries, stamps);
    OnlyReceiver(7 * |frames|);
    x := Execution(console, lines, states, 0, stamps, traces, 1, 2, FrameByFrame(frames),
                   processor, start, seq(7 * |frames|, i => ReceiverThread));
    forall i | 0 <= i < |entries|
      ensures BytesTaken(traces[i]) >= |LogLine.FormatMessage(stamps[i], entries[i].level, entries[i].message)|
    {
      assert traces[i][1..] == [];
    }
  }

  lemma SmoothServer(x: Execution)
    requires Traced(x) && x.polls == FrameByFrame(Shipped(x))
    ensures Served(x).received == Joined(Shipped(x)) && Served(x).buffer == ""
    ensures Served(x).delivered == Batches(OneEach(Shipped(x)))
  {
    hide S.RunLoop, S.ReadingRounds, S.BytesOf, S.BatchesOf, S.DrainsFirst, S.StillReads, Joined, Shipped, FrameByFrame;
    var s := S.Server("", true, x.clientFd, x.serverFd, true, "", []);
    S.RunExactly(s, x.polls);
    RoundsOfFrames(Shipped(x));
    var frames := Shipped(x);
    assert "" + Joined(frames) == Joined(frames) && [] + Batches(OneEach(frames)) == Batches(OneEach(frames));
  }

  lemma ShippedOnWire(x: Execution)
    requires Traced(x) && !Sender(x).stuck && SinkValid(Sender(x).sinks[0])
    ensures Sender(x).sinks[0].wire == Joined(Shipped(x))
  {
    hide Joined, Passing, L.PerformAll, SinkValid;
    WireIsPassing(x.console.defaultLevel, x.fd, Logs(x), x.stamps, x.traces);
  }

  /** Every input can be carried through in full: for any lines typed, any default level
      and any interval and timeout there is an execution of both programs that leaves
      nothing anywhere, and then the collector holds exactly the LOG_MESSAGE commands typed
      before exit that pass the filter, one message each. */
  lemma EveryInputCanArrive(console: A.Config, lines: seq<string>, processor: P.Config, start: int)
    returns (x: Execution, cuts: seq<nat>)
    requires Defined(console.defaultLevel) && P.Legal(processor)
    ensures x.console == console && x.lines == lines && x.processor == processor && x.start == start
    ensures Possible(x) && Complete(x) && EndsAtFrames(Shipped(x), Served(x).delivered, cuts)
    ensures |Served(x).delivered| == |Shipped(x)| && Logs(x) == A.Entries(console, lines)
    ensures Messages(Collected(x).history) == Sent(Shipped(x))
  {
    hide A.Next, Shipped, Served, Joined, S.Concat, Passing, FrameByFrame, L.PerformAll, SinkValid, Sent, EndsAtFrames;
    x := SmoothExecution(console, lines, processor, start);
    cuts := seq(|Shipped(x)| + 1, i => i);
    SmoothServer(x);
    SentInFull(console.defaultLevel, x.fd, Logs(x), x.stamps, x.traces);
    ShippedOnWire(x);
    EachEndsAtFrame(Shipped(x), cuts);
    EveryBatchIsTaken(processor, start, Served(x).delivered, x.moves);
    assert Possible(x) && Complete(x);
    EveryLineCountedExactly(x, cuts);
  }
}
