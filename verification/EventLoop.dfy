/** The event loop: a select over arriving events, a timer, the completion of the one
    background handler, and cancellation. Two slices are swapped and reused. */
module EventLoops {
  // ---- the loop as a state machine

  datatype LoopState<E> = LoopState(delivered: seq<(nat, seq<E>)>, pending: seq<E>, nextID: nat,
                                    timerArmed: bool, handling: bool, inFlight: bool, stopped: bool)

  /** What the select can receive. */
  datatype Input<E> = Arrive(event: E) | Tick | Done | Cancel

  function InitialState<E>(): LoopState<E> {
    LoopState([], [], 1, false, false, false, false)
  }

  /** A timer fires only when armed; a completion comes only from a running handler. */
  predicate Enabled<E>(s: LoopState<E>, i: Input<E>) {
    !s.stopped && (i.Tick? ==> s.timerArmed) && (i.Done? ==> s.inFlight)
  }

  function Step<E>(s: LoopState<E>, i: Input<E>): LoopState<E> {
    match i
    case Arrive(e) =>
      s.(pending := s.pending + [e], timerArmed := s.timerArmed || s.nextID == 1)
    case Tick =>
      if !s.handling && s.pending != [] then
        s.(delivered := s.delivered + [(s.nextID, s.pending)], pending := [], nextID := s.nextID + 1,
           timerArmed := false, handling := true, inFlight := true)
      else s
    case Done => s.(handling := false, inFlight := false, timerArmed := true)
    case Cancel => s.(timerArmed := false, inFlight := false, stopped := true)
  }

  predicate Feasible<E>(inputs: seq<Input<E>>)
    decreases |inputs|
  {
    inputs == [] || (Feasible(inputs[..|inputs|-1]) && Enabled(RunLoop(inputs[..|inputs|-1]), inputs[|inputs|-1]))
  }

  function RunLoop<E>(inputs: seq<Input<E>>): LoopState<E>
    decreases |inputs|
  {
    if inputs == [] then InitialState() else Step(RunLoop(inputs[..|inputs|-1]), inputs[|inputs|-1])
  }

  function Arrivals<E>(inputs: seq<Input<E>>): seq<E>
    decreases |inputs|
  {
    if inputs == [] then []
    else
      var last := inputs[|inputs|-1];
      Arrivals(inputs[..|inputs|-1]) + (if last.Arrive? then [last.event] else [])
  }

  function Flatten<E>(batches: seq<(nat, seq<E>)>): seq<E>
    decreases |batches|
  {
    if batches == [] then [] else Flatten(batches[..|batches|-1]) + batches[|batches|-1].1
  }

  lemma FlattenSnoc<E>(batches: seq<(nat, seq<E>)>, b: (nat, seq<E>))
    ensures Flatten(batches + [b]) == Flatten(batches) + b.1
  {
    assert (batches + [b])[..|batches|] == batches;
  }

  /** Every event that arrived is delivered once, in order, or still pending; the batches
      are numbered from one and none is empty. */
  lemma {:induction false} ExactlyOnce<E>(inputs: seq<Input<E>>)
    requires Feasible(inputs)
    ensures var s := RunLoop(inputs);
            && Flatten(s.delivered) + s.pending == Arrivals(inputs)
            && s.nextID == |s.delivered| + 1
            && forall i :: 0 <= i < |s.delivered| ==> s.delivered[i].0 == i + 1 && s.delivered[i].1 != []
    decreases |inputs|
  {
    if inputs != [] {
      var before := inputs[..|inputs|-1];
      ExactlyOnce(before);
      var s := RunLoop(before);
      if inputs[|inputs|-1].Tick? && !s.handling && s.pending != [] {
        FlattenSnoc(s.delivered, (s.nextID, s.pending));
      } else if inputs[|inputs|-1].Arrive? {
        var e := inputs[|inputs|-1].event;
        assert Flatten(s.delivered) + (s.pending + [e]) == (Flatten(s.delivered) + s.pending) + [e];
      }
    }
  }

  /** From the first event to cancellation exactly one of "timer armed" and "handler
      running" holds; before, neither; a stopped loop has no handler in flight. */
  lemma {:induction false} TimerOrHandler<E>(inputs: seq<Input<E>>)
    requires Feasible(inputs)
    ensures var s := RunLoop(inputs);
            && (!s.stopped ==> s.handling == s.inFlight)
            && (!s.stopped && Arrivals(inputs) != [] ==> s.timerArmed != s.inFlight)
            && (!s.stopped && Arrivals(inputs) == [] ==> !s.timerArmed && !s.inFlight)
            && (s.stopped ==> !s.timerArmed && !s.inFlight)
    decreases |inputs|
  {
    if inputs != [] {
      TimerOrHandler(inputs[..|inputs|-1]);
      ExactlyOnce(inputs[..|inputs|-1]);
    }
  }

  /** Pending events always have a wake-up: letting the running handler finish, if there
      is one, and the timer fire delivers all of them. */
  lemma NoLostWakeUp<E>(inputs: seq<Input<E>>)
    requires Feasible(inputs)
    ensures var s := RunLoop(inputs);
            !s.stopped && s.pending != [] ==>
              var wake := if s.inFlight then [Done, Tick] else [Tick];
              && Feasible(inputs + wake)
              && RunLoop(inputs + wake).delivered == s.delivered + [(s.nextID, s.pending)]
              && RunLoop(inputs + wake).pending == []
  {
    var s := RunLoop(inputs);
    if !s.stopped && s.pending != [] {
      TimerOrHandler(inputs);
      ExactlyOnce(inputs);
      assert Arrivals(inputs) != [];
      RunSnoc(inputs, Tick);
      RunSnoc(inputs, Done);
      RunSnoc(inputs + [Done], Tick);
      assert inputs + [Done] + [Tick] == inputs + [Done, Tick];
    }
  }

  lemma RunSnoc<E>(inputs: seq<Input<E>>, i: Input<E>)
    ensures RunLoop(inputs + [i]) == Step(RunLoop(inputs), i)
    ensures Feasible(inputs + [i]) <==> Feasible(inputs) && Enabled(RunLoop(inputs), i)
  {
    assert (inputs + [i])[..|inputs|] == inputs;
  }

  // ---- the loop over its two reused slices

  /** A Go slice: a prefix of a backing array. */
  datatype Slice<E> = Slice(data: array<E>, len: nat)

  datatype EventBatch<E> = EventBatch(events: Slice<E>, batchID: nat)

  class EventLoop<E(0)> {
    var currentBatch: EventBatch<E>
    var nextBatch: EventBatch<E>
    var timerArmed: bool
    var handling: bool
    var stopped: bool
    /** The argument of the handler's goroutine, while `inFlight`. */
    var handled: EventBatch<E>
    var inFlight: bool
    ghost var delivered: seq<(nat, seq<E>)>

    ghost predicate Valid()
      reads this, currentBatch.events.data, nextBatch.events.data, handled.events.data
    {
      && currentBatch.events.len <= currentBatch.events.data.Length
      && nextBatch.events.len <= nextBatch.events.data.Length
      && currentBatch.events.data != nextBatch.events.data
      && nextBatch.batchID == currentBatch.batchID + 1
      && (inFlight ==> handled == currentBatch && delivered != [] && HandlerSees() == delivered[|delivered|-1])
    }

    /** What the handler reads if it looks at its batch now. */
    ghost function HandlerSees(): (nat, seq<E>)
      requires handled.events.len <= handled.events.data.Length
      reads this, handled.events.data
    {
      (handled.batchID, handled.events.data[..handled.events.len])
    }

    ghost function State(): LoopState<E>
      requires Valid()
      reads this, currentBatch.events.data, nextBatch.events.data, handled.events.data
    {
      LoopState(delivered, nextBatch.events.data[..nextBatch.events.len], nextBatch.batchID, timerArmed, handling, inFlight, stopped)
    }

    constructor ()
      ensures Valid() && State() == InitialState()
      ensures fresh(currentBatch.events.data) && fresh(nextBatch.events.data)
    {
      var first, second := new E[0], new E[0];
      currentBatch := EventBatch(Slice(first, 0), 0);
      nextBatch := EventBatch(Slice(second, 0), 1);
      handled := EventBatch(Slice(first, 0), 0);
      timerArmed, handling, stopped, inFlight := false, false, false, false;
      delivered := [];
    }

    /** `append`: in place while there is capacity, else into a new backing array. */
    static method Append(s: Slice<E>, e: E) returns (r: Slice<E>)
      requires s.len <= s.data.Length
      modifies s.data
      ensures r.len == s.len + 1 <= r.data.Length
      ensures r.data[..r.len] == old(s.data[..s.len]) + [e]
      ensures r.data == s.data || (fresh(r.data) && s.data[..] == old(s.data[..]))
    {
      if s.len < s.data.Length {
        s.data[s.len] := e;
        r := Slice(s.data, s.len + 1);
      } else {
        var grown := new E[2 * s.len + 1];
        for i := 0 to s.len
          invariant s.data[..] == old(s.data[..])
          invariant grown[..i] == s.data[..i]
        {
          grown[i] := s.data[i];
        }
        grown[s.len] := e;
        r := Slice(grown, s.len + 1);
      }
    }

    method OnEvent(e: E)
      requires Valid() && !stopped
      modifies this, nextBatch.events.data
      ensures Valid() && State() == Step(old(State()), Arrive(e))
      ensures nextBatch.events.data == old(nextBatch.events.data) || fresh(nextBatch.events.data)
      ensures currentBatch == old(currentBatch)
      ensures inFlight ==> HandlerSees() == old(HandlerSees())
    {
      var events := Append(nextBatch.events, e);
      nextBatch := nextBatch.(events := events);
      if nextBatch.batchID == 1 {
        StartTimer();
      }
    }

    method OnTimer()
      requires Valid() && !stopped && timerArmed && handling == inFlight
      modifies this
      ensures Valid() && State() == Step(old(State()), Tick)
      ensures {currentBatch.events.data, nextBatch.events.data} == old({currentBatch.events.data, nextBatch.events.data})
    {
      timerArmed := false;
      if !handling && nextBatch.events.len > 0 {
        SwapBatches();
        HandleBatch();
      } else {
        StartTimer();
      }
    }

    method OnHandlingDone()
      requires Valid() && !stopped && inFlight
      modifies this
      ensures Valid() && State() == Step(old(State()), Input<E>.Done)
      ensures currentBatch == old(currentBatch) && nextBatch == old(nextBatch)
    {
      inFlight := false;
      handling := false;
      StartTimer();
    }

    /** Waits for the running handler before the loop returns. */
    method OnCancel()
      requires Valid() && !stopped && handling == inFlight
      modifies this
      ensures Valid() && State() == Step(old(State()), Cancel)
      ensures currentBatch == old(currentBatch) && nextBatch == old(nextBatch)
    {
      StopTimer();
      if handling {
        inFlight := false;
      }
      stopped := true;
    }

    method SwapBatches()
      requires Valid() && !inFlight
      modifies this`currentBatch, this`nextBatch
      ensures Valid()
      ensures currentBatch == old(nextBatch)
      ensures nextBatch == EventBatch(Slice(old(currentBatch).events.data, 0), old(nextBatch).batchID + 1)
    {
      currentBatch, nextBatch := nextBatch, currentBatch;
      nextBatch := nextBatch.(events := nextBatch.events.(len := 0));
      nextBatch := nextBatch.(batchID := currentBatch.batchID + 1);
    }

    /** Starts the goroutine; there is never a second one. */
    method HandleBatch()
      requires Valid() && !inFlight
      modifies this`handling, this`inFlight, this`handled, this`delivered
      ensures Valid() && handling && inFlight && handled == currentBatch
      ensures delivered == old(delivered) + [(currentBatch.batchID, currentBatch.events.data[..currentBatch.events.len])]
    {
      handling := true;
      handled := currentBatch;
      inFlight := true;
      delivered := delivered + [(currentBatch.batchID, currentBatch.events.data[..currentBatch.events.len])];
    }

    method StartTimer()
      modifies this`timerArmed
      ensures timerArmed
    {
      if !timerArmed {
        timerArmed := true;
      }
    }

    method StopTimer()
      modifies this`timerArmed
      ensures !timerArmed
    {
      timerArmed := false;
    }

    method Receive(i: Input<E>)
      requires Valid() && handling == inFlight && Enabled(State(), i)
      modifies this, nextBatch.events.data
      ensures Valid() && State() == Step(old(State()), i)
      ensures inFlight && old(inFlight) ==> HandlerSees() == old(HandlerSees())
      ensures currentBatch.events.data == old(currentBatch.events.data) || currentBatch.events.data == old(nextBatch.events.data)
      ensures nextBatch.events.data == old(nextBatch.events.data) || nextBatch.events.data == old(currentBatch.events.data) || fresh(nextBatch.events.data)
    {
      match i {
        case Arrive(e) => OnEvent(e);
        case Tick => OnTimer();
        case Done => OnHandlingDone();
        case Cancel => OnCancel();
      }
    }

    /** The loop itself, for any order in which the select receives. Whenever the handler
        is in flight, its slice still holds the batch it was given. */
    method Start(inputs: seq<Input<E>>)
      requires Valid() && State() == InitialState() && Feasible(inputs)
      modifies this, currentBatch.events.data, nextBatch.events.data
      ensures Valid() && State() == RunLoop(inputs)
      ensures stopped ==> !inFlight
    {
      assert inputs[..0] == [];
      ghost var arrays := {currentBatch.events.data, nextBatch.events.data};
      for n := 0 to |inputs|
        invariant Valid() && State() == RunLoop(inputs[..n])
        invariant currentBatch.events.data in arrays || fresh(currentBatch.events.data)
        invariant nextBatch.events.data in arrays || fresh(nextBatch.events.data)
      {
        NextInput(inputs, n);
        Receive(inputs[n]);
      }
      assert inputs[..|inputs|] == inputs;
      TimerOrHandler(inputs);
    }
  }

  lemma NextInput<E>(inputs: seq<Input<E>>, n: nat)
    requires Feasible(inputs) && n < |inputs|
    ensures var s := RunLoop(inputs[..n]);
            Enabled(s, inputs[n]) && s.handling == s.inFlight && RunLoop(inputs[..n+1]) == Step(s, inputs[n])
  {
    hide RunLoop, Feasible, Step, Arrivals;
    PrefixFeasible(inputs, n + 1);
    PrefixFeasible(inputs, n);
    assert inputs[..n+1] == inputs[..n] + [inputs[n]];
    RunSnoc(inputs[..n], inputs[n]);
    TimerOrHandler(inputs[..n]);
  }

  lemma {:induction false} PrefixFeasible<E>(inputs: seq<Input<E>>, n: nat)
    requires Feasible(inputs) && n <= |inputs|
    ensures Feasible(inputs[..n])
    decreases |inputs|
  {
    if n == |inputs| {
      assert inputs[..n] == inputs;
    } else {
      PrefixFeasible(inputs[..|inputs|-1], n);
      assert inputs[..|inputs|-1][..n] == inputs[..n];
    }
  }
}
