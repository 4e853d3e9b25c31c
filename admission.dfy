/** The admission counter of `JobQueue`: `activeWorkers` against
    `maxConcurrentWorkers`. `enqueueJob` waits until a slot is free and then
    takes it; `dequeueJob` gives one back, never going below zero. The wait
    is modelled as an enqueue step that only fires when a slot is free and
    otherwise leaves the counter alone (the job keeps waiting). */
module Admission {

  /** `maxConcurrentWorkers`. */
  const Capacity: nat := 10

  datatype Event = Enqueue | Dequeue

  /** The guard `enqueueJob` polls: a slot is free. */
  predicate CanStart(active: nat)
  {
    active < Capacity
  }

  /** The counter after one event. */
  function Step(active: nat, e: Event): nat
  {
    match e
    case Enqueue => if CanStart(active) then active + 1 else active
    case Dequeue => if active == 0 then 0 else active - 1
  }

  /** The counter after a sequence of events. */
  function Replay(active: nat, trace: seq<Event>): nat
    decreases |trace|
  {
    if trace == [] then active else Replay(Step(active, trace[0]), trace[1..])
  }

  /** How many of the enqueue events in `trace` were admitted. */
  function Admitted(active: nat, trace: seq<Event>): nat
    decreases |trace|
  {
    if trace == [] then 0
    else (if trace[0] == Enqueue && CanStart(active) then 1 else 0)
         + Admitted(Step(active, trace[0]), trace[1..])
  }

  /** How many of the dequeue events in `trace` actually released a slot
      (the others met a zero counter). */
  function Released(active: nat, trace: seq<Event>): nat
    decreases |trace|
  {
    if trace == [] then 0
    else (if trace[0] == Dequeue && active > 0 then 1 else 0)
         + Released(Step(active, trace[0]), trace[1..])
  }

  /** Whatever the interleaving of starts and finishes, the number of
      running workers never exceeds the capacity. */
  lemma {:induction false} ReplayWithinCapacity(active: nat, trace: seq<Event>)
    requires active <= Capacity
    ensures Replay(active, trace) <= Capacity
    decreases |trace|
  {
    if trace != [] {
      ReplayWithinCapacity(Step(active, trace[0]), trace[1..]);
    }
  }

  /** The counter is exact: it is the initial count plus the admissions
      minus the effective releases. */
  lemma {:induction false} ReplayAccounts(active: nat, trace: seq<Event>)
    ensures Replay(active, trace) == active + Admitted(active, trace) - Released(active, trace)
    decreases |trace|
  {
    if trace != [] {
      ReplayAccounts(Step(active, trace[0]), trace[1..]);
    }
  }

  /** With every slot taken, no number of further enqueue attempts gets a
      job started until some job finishes. */
  lemma {:induction false} FullGateAdmitsNothing(trace: seq<Event>)
    requires forall i :: 0 <= i < |trace| ==> trace[i] == Enqueue
    ensures Replay(Capacity, trace) == Capacity && Admitted(Capacity, trace) == 0
    decreases |trace|
  {
    if trace != [] {
      FullGateAdmitsNothing(trace[1..]);
    }
  }

  /** After a finish frees a slot at full capacity, the next enqueue is
      admitted. */
  lemma DequeueReopensGate()
    ensures Replay(Capacity, [Dequeue, Enqueue]) == Capacity
    ensures Admitted(Capacity, [Dequeue, Enqueue]) == 1
  {
    assert [Dequeue, Enqueue][1..] == [Enqueue];
    assert [Enqueue][1..] == [];
  }
}
