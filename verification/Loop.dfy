/** The two defer queues of a loop, shared between threads. */
module Loops {

  /** A deferred callback. */
  type Callback = nat

  /** Where the loop's own thread stands in its wakeup callback. */
  datatype Phase =
    | Waiting
    | Woken                        // the wakeup has been taken, the queues not yet swapped
    | Draining(queue: nat, at: nat) // iterating over a queue, `at` being the next callback to run

  /** One atomic step of some thread: what runs under the mutex is one step. */
  datatype Step =
    | Push(cb: Callback) // any thread, callbacks of this loop included: defer, up to the unlock
    | Wake               // the same thread: us_wakeup_loop
    | Wakeup             // the loop takes the pending wakeup
    | Swap               // wakeupCb, up to the unlock
    | CallNext           // wakeupCb: the next callback
    | Clear              // wakeupCb: the end

  datatype State = State(
    queues: seq<seq<Callback>>,
    current: nat,
    phase: Phase,
    wakeupPending: bool, // wakeups are coalesced
    unsignalled: nat,    // threads that have pushed and not yet called us_wakeup_loop
    deferred: seq<Callback>, // everything ever pushed, in the order of the mutex
    executed: seq<Callback>)

  ghost predicate Shaped(s: State) {
    && |s.queues| == 2 && s.current < 2
    && (s.phase.Draining? ==> s.phase.queue == 1 - s.current && s.phase.at <= |s.queues[s.phase.queue]|)
  }

  /** A step; one that is not possible changes nothing. */
  function Do(s: State, step: Step): (r: State)
    requires Shaped(s)
    ensures Shaped(r)
  {
    match step
    case Push(cb) =>
      s.(queues := s.queues[s.current := s.queues[s.current] + [cb]], unsignalled := s.unsignalled + 1,
         deferred := s.deferred + [cb])
    case Wake =>
      if s.unsignalled > 0 then s.(unsignalled := s.unsignalled - 1, wakeupPending := true) else s
    case Wakeup =>
      if s.phase.Waiting? && s.wakeupPending then s.(wakeupPending := false, phase := Woken) else s
    case Swap =>
      if s.phase.Woken? then s.(current := (s.current + 1) % 2, phase := Draining(s.current, 0)) else s
    case CallNext =>
      if s.phase.Draining? && s.phase.at < |s.queues[s.phase.queue]| then
        s.(executed := s.executed + [s.queues[s.phase.queue][s.phase.at]], phase := s.phase.(at := s.phase.at + 1))
      else s
    case Clear =>
      if s.phase.Draining? && s.phase.at == |s.queues[s.phase.queue]| then
        s.(queues := s.queues[s.phase.queue := []], phase := Waiting)
      else s
  }

  function Run(s: State, steps: seq<Step>): (r: State)
    requires Shaped(s)
    ensures Shaped(r)
  {
    if steps == [] then s else Do(Run(s, steps[..|steps| - 1]), steps[|steps| - 1])
  }

  const FRESH := State([[], []], 0, Waiting, false, 0, [], [])

  /** What of the queue being drained is still to come. */
  function Remaining(s: State): seq<Callback>
    requires Shaped(s)
  {
    if s.phase.Draining? then s.queues[s.phase.queue][s.phase.at..] else []
  }

  /** What every step keeps: nothing is lost, doubled or out of order; no callback waits without a wakeup to come. */
  ghost predicate Good(s: State)
  {
    && Shaped(s)
    && s.executed + Remaining(s) + s.queues[s.current] == s.deferred
    && (!s.phase.Draining? ==> s.queues[1 - s.current] == [])
    && (s.queues[s.current] != [] ==> s.wakeupPending || s.unsignalled > 0 || s.phase.Woken?)
  }

  lemma PushKeeps(s: State, cb: Callback)
    requires Good(s)
    ensures Good(Do(s, Push(cb)))
  {
    assert s.executed + Remaining(s) + (s.queues[s.current] + [cb])
           == s.executed + Remaining(s) + s.queues[s.current] + [cb];
  }

  lemma SwapKeeps(s: State)
    requires Good(s)
    ensures Good(Do(s, Swap))
  {
    if s.phase.Woken? {
      assert s.queues[s.current][0..] == s.queues[s.current];
    }
  }

  lemma CallNextKeeps(s: State)
    requires Good(s)
    ensures Good(Do(s, CallNext))
  {
    if s.phase.Draining? && s.phase.at < |s.queues[s.phase.queue]| {
      var next, rest := s.queues[s.phase.queue][s.phase.at], s.queues[s.phase.queue][s.phase.at + 1..];
      assert Remaining(s) == [next] + rest && Remaining(Do(s, CallNext)) == rest;
      assert s.executed + ([next] + rest) == s.executed + [next] + rest;
    }
  }

  lemma ClearKeeps(s: State)
    requires Good(s)
    ensures Good(Do(s, Clear))
  {
    if s.phase.Draining? && s.phase.at == |s.queues[s.phase.queue]| {
      assert Remaining(s) == [];
    }
  }

  lemma WakeKeeps(s: State, step: Step)
    requires Good(s) && (step.Wake? || step.Wakeup?)
    ensures Good(Do(s, step))
  {
  }

  /** Every step of every thread. */
  lemma DoKeeps(s: State, step: Step)
    requires Good(s)
    ensures Good(Do(s, step))
  {
    hide Good, Do;
    match step
    case Push(cb) => PushKeeps(s, cb);
    case Swap => SwapKeeps(s);
    case CallNext => CallNextKeeps(s);
    case Clear => ClearKeeps(s);
    case _ => WakeKeeps(s, step);
  }

  /** Over every interleaving of threads, callbacks run in the order in which they got the mutex, each at most once. */
  lemma {:induction false} RunKeeps(steps: seq<Step>)
    ensures Good(Run(FRESH, steps))
    ensures Run(FRESH, steps).executed <= Run(FRESH, steps).deferred
  {
    if steps != [] {
      RunKeeps(steps[..|steps| - 1]);
      DoKeeps(Run(FRESH, steps[..|steps| - 1]), steps[|steps| - 1]);
    }
  }

  /** What the steps of a run have pushed, in order. */
  function Pushed(steps: seq<Step>): seq<Callback> {
    if steps == [] then []
    else Pushed(steps[..|steps| - 1]) + if steps[|steps| - 1].Push? then [steps[|steps| - 1].cb] else []
  }

  lemma {:induction false} DeferredIsPushed(steps: seq<Step>)
    ensures Run(FRESH, steps).deferred == Pushed(steps)
  {
    if steps != [] {
      DeferredIsPushed(steps[..|steps| - 1]);
    }
  }

  /** Once every wakeup is served, both queues are empty and everything pushed has run, exactly once and in order. */
  lemma AllServed(steps: seq<Step>)
    ensures var s := Run(FRESH, steps);
            s.phase.Waiting? && !s.wakeupPending && s.unsignalled == 0 ==>
              s.queues == [[], []] && s.executed == Pushed(steps)
  {
    RunKeeps(steps);
    DeferredIsPushed(steps);
  }

  /** Left to itself, the loop serves what is pending: it never gets stuck half way. */
  lemma LoopGetsOn(s: State)
    requires Good(s) && !(s.phase.Waiting? && !s.wakeupPending)
    ensures exists step :: step in [Wakeup, Swap, CallNext, Clear] && Do(s, step) != s
  {
    if s.phase.Waiting? {
      assert Do(s, Wakeup) != s && Wakeup in [Wakeup, Swap, CallNext, Clear];
    } else if s.phase.Woken? {
      assert Do(s, Swap) != s && Swap in [Wakeup, Swap, CallNext, Clear];
    } else if s.phase.at < |s.queues[s.phase.queue]| {
      assert Do(s, CallNext) != s && CallNext in [Wakeup, Swap, CallNext, Clear];
    } else {
      assert Do(s, Clear) != s && Clear in [Wakeup, Swap, CallNext, Clear];
    }
  }

  // ---- The steps in place ----

  class LoopData {
    const deferQueues: array<seq<Callback>>
    var currentDeferQueue: nat
    var phase: Phase
    var wakeupPending: bool
    ghost var unsignalled: nat
    ghost var deferred: seq<Callback>
    ghost var executed: seq<Callback>

    ghost function Abs(): (s: State)
      reads this, deferQueues
    {
      State(deferQueues[..], currentDeferQueue, phase, wakeupPending, unsignalled, deferred, executed)
    }

    constructor ()
      ensures Abs() == FRESH && fresh(deferQueues)
    {
      deferQueues := new seq<Callback>[2](_ => []);
      currentDeferQueue, phase, wakeupPending := 0, Waiting, false;
      unsignalled, deferred, executed := 0, [], [];
    }

    /** defer, with the mutex held. */
    method Push(cb: Callback)
      requires Shaped(Abs())
      modifies this, deferQueues
      ensures Abs() == Do(old(Abs()), Step.Push(cb))
    {
      deferQueues[currentDeferQueue] := deferQueues[currentDeferQueue] + [cb];
      deferred, unsignalled := deferred + [cb], unsignalled + 1;
    }

    /** us_wakeup_loop, after the mutex has been released. */
    method Wake()
      requires Shaped(Abs()) && unsignalled > 0
      modifies this
      ensures Abs() == Do(old(Abs()), Step.Wake)
    {
      wakeupPending := true;
      unsignalled := unsignalled - 1;
    }

    /** The loop notices a wakeup and enters wakeupCb. */
    method Wakeup()
      requires Shaped(Abs())
      modifies this
      ensures Abs() == Do(old(Abs()), Step.Wakeup)
    {
      if phase.Waiting? && wakeupPending {
        wakeupPending, phase := false, Woken;
      }
    }

    /** wakeupCb, with the mutex held. */
    method Swap()
      requires Shaped(Abs()) && phase.Woken?
      modifies this
      ensures Abs() == Do(old(Abs()), Step.Swap)
    {
      var oldDeferQueue := currentDeferQueue;
      currentDeferQueue := (currentDeferQueue + 1) % 2;
      phase := Draining(oldDeferQueue, 0);
    }

    /** One turn of the loop in wakeupCb; the callback itself may push again before the next turn. */
    method CallNext() returns (x: Callback)
      requires Shaped(Abs()) && phase.Draining? && phase.at < |deferQueues[phase.queue]|
      modifies this
      ensures Abs() == Do(old(Abs()), Step.CallNext) && executed == old(executed) + [x]
    {
      x := deferQueues[phase.queue][phase.at];
      phase := phase.(at := phase.at + 1);
      executed := executed + [x];
    }

    /** The end of wakeupCb. */
    method Clear()
      requires Shaped(Abs()) && phase.Draining? && phase.at == |deferQueues[phase.queue]|
      modifies this, deferQueues
      ensures Abs() == Do(old(Abs()), Step.Clear)
    {
      deferQueues[phase.queue] := [];
      phase := Waiting;
    }
  }
}
