/** The queue class (src/test_application/thread_safe_queue.hpp). Every method is one
    critical section; a blocking pop is PopEnter followed by PopResume each time the
    consumer gets the mutex back, until the result is not Waiting. */
module ThreadSafeQueues {
  import opened Options
  import opened QueueProtocol

  class ThreadSafeQueue<T> {
    var queue: seq<T>
    var isRunning: bool

    // The state of the condition variable, and what passed through the queue.
    ghost var sleeping: set<Consumer>
    ghost var woken: set<Consumer>
    ghost var accepted: seq<T>
    ghost var popped: seq<T>

    ghost function State(): Monitor<T>
      reads this
    {
      Monitor(queue, isRunning, sleeping, woken, accepted, popped)
    }

    ghost predicate Valid()
      reads this
    {
      Invariant(State())
    }

    constructor ()
      ensures Valid() && State() == Initial()
    {
      queue, isRunning := [], true;
      sleeping, woken, accepted, popped := {}, {}, [], [];
    }

    method Push(item: T, ghost notified: Option<Consumer>)
      requires Valid() && MayNotify(State(), notified)
      modifies this
      ensures Valid() && Step(old(State()), Event.Push(item, notified), State())
      ensures queue == if old(isRunning) then old(queue) + [item] else old(queue)
    {
      StepKeepsInvariant(State(), Event.Push(item, notified), Pushed(State(), item, notified));
      if !isRunning {
        return;
      }
      queue := queue + [item];
      accepted := accepted + [item];
      if notified.Some? {
        sleeping, woken := sleeping - {notified.value}, woken + {notified.value};
      }
    }

    // The wait's predicate and, when it holds, the rest of pop.
    method Evaluate(ghost c: Consumer) returns (result: PopResult<T>)
      modifies this
      ensures result == PopOutcome(old(State())) && State() == Popped(old(State()), c)
    {
      if queue == [] && isRunning {
        sleeping := sleeping + {c};
        return Waiting;
      }
      if !isRunning && queue == [] {
        return Closed;
      }
      result := Item(queue[0]);
      popped := popped + [queue[0]];
      queue := queue[1..];
    }

    method PopEnter(ghost c: Consumer) returns (result: PopResult<T>)
      requires Valid() && c !in sleeping && c !in woken
      modifies this
      ensures Valid() && Step(old(State()), Enter(c), State())
      ensures result == PopOutcome(old(State()))
      ensures result.Closed? ==> !isRunning && queue == [] && popped == accepted
    {
      StepKeepsInvariant(State(), Enter(c), Popped(State(), c));
      result := Evaluate(c);
    }

    method PopResume(ghost c: Consumer) returns (result: PopResult<T>)
      requires Valid() && c in woken
      modifies this
      ensures Valid() && Step(old(State()), Resume(c), State())
      ensures result == PopOutcome(old(State()))
      ensures result.Closed? ==> !isRunning && queue == [] && popped == accepted
    {
      StepKeepsInvariant(State(), Resume(c), Popped(Reacquired(State(), c), c));
      woken := woken - {c};
      result := Evaluate(c);
    }

    method Stop()
      requires Valid()
      modifies this
      ensures Valid() && Step(old(State()), Event.Stop, State())
      ensures !isRunning && sleeping == {} && queue == old(queue)
    {
      StepKeepsInvariant(State(), Event.Stop, Stopped(State()));
      isRunning := false;
      sleeping, woken := {}, woken + sleeping;
    }
  }
}
