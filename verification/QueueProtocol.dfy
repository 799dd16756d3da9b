/** The monitor behind ThreadSafeQueue as a transition system, one step per critical
    section (src/test_application/thread_safe_queue.hpp). Any number of consumers; a
    consumer inside pop is either asleep on the condition variable, or woken and waiting
    for the mutex. */
module QueueProtocol {
  import opened Options

  type Consumer = nat

  // accepted and popped are the histories of items let in and handed out.
  datatype Monitor<T> = Monitor(
    queue: seq<T>, running: bool,
    sleeping: set<Consumer>, woken: set<Consumer>,
    accepted: seq<T>, popped: seq<T>)

  datatype PopResult<T> = Item(value: T) | Closed | Waiting

  datatype Event<T> =
    | Push(item: T, notified: Option<Consumer>)
    | Enter(consumer: Consumer)
    | Resume(consumer: Consumer)
    | SpuriousWake(consumer: Consumer)
    | Stop

  function Initial<T>(): Monitor<T> {
    Monitor([], true, {}, {}, [], [])
  }

  function Wake<T>(m: Monitor<T>, c: Consumer): Monitor<T> {
    m.(sleeping := m.sleeping - {c}, woken := m.woken + {c})
  }

  // notify_one wakes one sleeping consumer if there is any, no matter which.
  predicate MayNotify<T>(m: Monitor<T>, notified: Option<Consumer>) {
    match notified
    case Some(c) => m.running && c in m.sleeping
    case None => !m.running || m.sleeping == {}
  }

  function Pushed<T>(m: Monitor<T>, item: T, notified: Option<Consumer>): Monitor<T> {
    if !m.running then m else
    var added := m.(queue := m.queue + [item], accepted := m.accepted + [item]);
    if notified.Some? then Wake(added, notified.value) else added
  }

  // What the waiting predicate and the code after the wait do for consumer c, under the lock.
  function PopOutcome<T>(m: Monitor<T>): PopResult<T> {
    if m.queue != [] then Item(m.queue[0]) else if m.running then Waiting else Closed
  }

  function Popped<T>(m: Monitor<T>, c: Consumer): Monitor<T> {
    match PopOutcome(m)
    case Item(item) => m.(queue := m.queue[1..], popped := m.popped + [item])
    case Waiting => m.(sleeping := m.sleeping + {c})
    case Closed => m
  }

  function Reacquired<T>(m: Monitor<T>, c: Consumer): Monitor<T> {
    m.(woken := m.woken - {c})
  }

  function Stopped<T>(m: Monitor<T>): Monitor<T> {
    m.(running := false, sleeping := {}, woken := m.woken + m.sleeping)
  }

  ghost predicate Step<T>(m: Monitor<T>, event: Event<T>, m': Monitor<T>) {
    match event
    case Push(item, notified) => MayNotify(m, notified) && m' == Pushed(m, item, notified)
    case Enter(c) => c !in m.sleeping && c !in m.woken && m' == Popped(m, c)
    case Resume(c) => c in m.woken && m' == Popped(Reacquired(m, c), c)
    case SpuriousWake(c) => c in m.sleeping && m' == Wake(m, c)
    case Stop => m' == Stopped(m)
  }

  ghost predicate Run<T>(states: seq<Monitor<T>>, events: seq<Event<T>>) {
    && |states| == |events| + 1 && states[0] == Initial()
    && forall i :: 0 <= i < |events| ==> Step(states[i], events[i], states[i + 1])
  }

  /** No lost wakeup: a consumer may only be asleep while the queue is running and every
      queued item is matched by a woken consumer. FIFO: what came in is what went out
      followed by what is queued. */
  ghost predicate Invariant<T>(m: Monitor<T>) {
    && m.sleeping !! m.woken
    && (m.sleeping != {} ==> m.running && |m.queue| <= |m.woken|)
    && m.accepted == m.popped + m.queue
  }

  // A consumer evaluating the predicate may leave one item unmatched: it takes it itself.
  lemma PopKeepsInvariant<T>(m: Monitor<T>, c: Consumer)
    requires m.sleeping !! m.woken && c !in m.sleeping && c !in m.woken
    requires m.sleeping != {} ==> m.running && |m.queue| <= |m.woken| + 1
    requires m.accepted == m.popped + m.queue
    ensures Invariant(Popped(m, c))
  {
  }

  lemma PushKeepsInvariant<T>(m: Monitor<T>, item: T, notified: Option<Consumer>)
    requires Invariant(m) && MayNotify(m, notified)
    ensures Invariant(Pushed(m, item, notified))
  {
  }

  lemma StepKeepsInvariant<T>(m: Monitor<T>, event: Event<T>, m': Monitor<T>)
    requires Invariant(m) && Step(m, event, m')
    ensures Invariant(m')
  {
    match event
    case Push(item, notified) =>
      PushKeepsInvariant(m, item, notified);
    case Enter(c) =>
      PopKeepsInvariant(m, c);
    case Resume(c) =>
      assert |Reacquired(m, c).woken| == |m.woken| - 1;
      PopKeepsInvariant(Reacquired(m, c), c);
    case SpuriousWake(c) =>
      assert |m'.woken| == |m.woken| + 1;
    case Stop =>
  }

  /** The invariant holds in every state of every run. */
  lemma {:induction false} RunKeepsInvariant<T>(states: seq<Monitor<T>>, events: seq<Event<T>>, i: nat)
    requires Run(states, events) && i < |states|
    ensures Invariant(states[i])
  {
    if i > 0 {
      RunKeepsInvariant(states, events, i - 1);
      StepKeepsInvariant(states[i - 1], events[i - 1], states[i]);
    }
  }

  /** In no reachable state is every consumer asleep (somebody is, and nobody has been
      woken) while an item is queued or after stop. */
  lemma NeverAllAsleepWithWork<T>(states: seq<Monitor<T>>, events: seq<Event<T>>, i: nat)
    requires Run(states, events) && i < |states|
    ensures
      var m := states[i];
      m.sleeping != {} && m.woken == {} ==> m.running && m.queue == [] && m.popped == m.accepted
  {
    RunKeepsInvariant(states, events, i);
  }

  /** Stop is final: nothing is accepted after it, and nobody sleeps after it. */
  lemma {:induction false} AfterStop<T>(states: seq<Monitor<T>>, events: seq<Event<T>>, i: nat, j: nat)
    requires Run(states, events) && i <= j < |states| && !states[i].running
    ensures !states[j].running && states[j].accepted == states[i].accepted && states[j].sleeping == {}
    decreases j
  {
    RunKeepsInvariant(states, events, j);
    if i < j {
      AfterStop(states, events, i, j - 1);
      assert Step(states[j - 1], events[j - 1], states[j]);
    }
  }

  /** No step is ruled out by mistake: any sleeper can be the one a push notifies, any can
      wake spuriously, and a push with nobody asleep needs to notify nobody. */
  lemma AnySleeperMayWake<T>(m: Monitor<T>, c: Consumer, item: T)
    ensures m.running && c in m.sleeping ==>
      exists m' :: Step(m, Push(item, Some(c)), m') && m'.queue == m.queue + [item]
                   && m'.sleeping == m.sleeping - {c} && m'.woken == m.woken + {c}
    ensures c in m.sleeping ==>
      exists m' :: Step(m, SpuriousWake(c), m') && m'.queue == m.queue
                   && m'.sleeping == m.sleeping - {c} && m'.woken == m.woken + {c}
    ensures m.running && m.sleeping == {} ==>
      exists m' :: Step(m, Push(item, None), m') && m'.queue == m.queue + [item]
  {
    if m.running && c in m.sleeping {
      assert Step(m, Push(item, Some(c)), Pushed(m, item, Some(c)));
    }
    if c in m.sleeping {
      assert Step(m, SpuriousWake(c), Wake(m, c));
    }
    if m.running && m.sleeping == {} {
      assert Step(m, Push(item, None), Pushed(m, item, None));
    }
  }

  /** What a consumer gets: whenever one evaluates the predicate in a run, on entering pop
      or on getting the mutex back, it takes the front item if there is one, else goes to
      sleep if the queue is running, else leaves; nobody else is affected. */
  lemma PopServes<T>(states: seq<Monitor<T>>, events: seq<Event<T>>, i: nat)
    requires Run(states, events) && i < |events| && (events[i].Enter? || events[i].Resume?)
    ensures
      var m, m', c := states[i], states[i + 1], events[i].consumer;
      && m'.popped + m'.queue == m.popped + m.queue && |m'.queue| == (if m.queue != [] then |m.queue| - 1 else 0)
      && (c in m'.sleeping <==> m.queue == [] && m.running) && c !in m'.woken
      && m'.sleeping - {c} == m.sleeping && m'.woken == m.woken - {c}
      && m'.running == m.running
  {
    RunKeepsInvariant(states, events, i);
    RunKeepsInvariant(states, events, i + 1);
    assert Step(states[i], events[i], states[i + 1]);
  }

  // The items pushed before the first stop.
  function PushedItems<T>(events: seq<Event<T>>): seq<T> {
    if events == [] then [] else
    match events[0]
    case Push(item, _) => [item] + PushedItems(events[1..])
    case Stop => []
    case _ => PushedItems(events[1..])
  }

  ghost predicate RunFrom<T>(states: seq<Monitor<T>>, events: seq<Event<T>>) {
    && |states| == |events| + 1
    && forall i :: 0 <= i < |events| ==> Step(states[i], events[i], states[i + 1])
  }

  lemma {:induction false} AcceptedFrom<T>(states: seq<Monitor<T>>, events: seq<Event<T>>)
    requires RunFrom(states, events)
    ensures states[|events|].accepted ==
            states[0].accepted + if states[0].running then PushedItems(events) else []
  {
    if events != [] {
      assert Step(states[0], events[0], states[1]);
      AcceptedFrom(states[1..], events[1..]);
    }
  }

  /** Losslessness and order over whole runs: what consumers have received, followed by what
      is still queued, is exactly the sequence of items pushed before the first stop. */
  lemma FifoWithoutLoss<T>(states: seq<Monitor<T>>, events: seq<Event<T>>)
    requires Run(states, events)
    ensures states[|events|].popped + states[|events|].queue == PushedItems(events)
  {
    RunKeepsInvariant(states, events, |events|);
    AcceptedFrom(states, events);
  }
}
