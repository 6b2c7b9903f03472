/**
  The wake protocol between any number of senders and the one writer.

  A sender enqueues a frame and then, in a separate step, sets the one-slot wake
  token; the writer clears the token and then takes frames until it sees the queue
  empty.  Every interleaving of these steps is a run.
 */
module WakeProtocol {
  import opened Events

  datatype Writer =
    | Waiting            // in the select of writePump
    | Draining           // in drainReliable, between frames
    | Writing(m: Message)
    | Flushing           // in drainEphemeral
    | Gone               // writePump has returned

  datatype State = State(
    queue: seq<Message>, wake: bool, signalling: set<nat>, writer: Writer, closed: bool,
    accepted: seq<Message>, written: seq<Message>)

  datatype Step =
    | Enqueue(sender: nat, m: Message)
    | Signal(sender: nat)
    | ReceiveWake
    | Take
    | WriteDone
    | SeeEmpty
    | Tick
    | FlushDone
    | WriteFails
    | CloseByOther
    | Leave

  const INITIAL := State([], false, {}, Waiting, false, [], [])

  predicate Enabled(s: State, step: Step, capacity: nat) {
    match step
    case Enqueue(sender, _) => sender !in s.signalling && |s.queue| < capacity
    case Signal(sender) => sender in s.signalling
    case ReceiveWake => s.writer.Waiting? && s.wake
    case Take => s.writer.Draining? && s.queue != []
    case WriteDone => s.writer.Writing?
    case SeeEmpty => s.writer.Draining? && s.queue == []
    case Tick => s.writer.Waiting?
    case FlushDone => s.writer.Flushing?
    case WriteFails => s.writer.Writing? || s.writer.Flushing?
    case CloseByOther => true
    case Leave => s.writer.Waiting?
  }

  function Do(s: State, step: Step, capacity: nat): State
    requires Enabled(s, step, capacity)
  {
    match step
    // A sender that passed the closed check may still enqueue after the close.
    case Enqueue(sender, m) =>
      s.(queue := s.queue + [m], signalling := s.signalling + {sender}, accepted := s.accepted + [m])
    case Signal(sender) => s.(wake := true, signalling := s.signalling - {sender})
    case ReceiveWake => s.(wake := false, writer := Draining)
    case Take => s.(queue := s.queue[1..], writer := Writing(s.queue[0]))
    case WriteDone => s.(writer := Draining, written := s.written + [s.writer.m])
    case SeeEmpty => s.(writer := Waiting)
    case Tick => s.(writer := Flushing)
    case FlushDone => s.(writer := Waiting)
    case WriteFails => s.(writer := Gone, closed := true)
    case CloseByOther => s.(closed := true)
    case Leave => s.(writer := Gone)
  }

  predicate IsRun(from: State, steps: seq<Step>, capacity: nat)
    decreases |steps|
  {
    steps == []
    || (Enabled(from, steps[0], capacity) && IsRun(Do(from, steps[0], capacity), steps[1..], capacity))
  }

  function After(from: State, steps: seq<Step>, capacity: nat): State
    requires IsRun(from, steps, capacity)
    decreases |steps|
  {
    if steps == [] then from else After(Do(from, steps[0], capacity), steps[1..], capacity)
  }

  predicate OutsideDrain(s: State) {
    s.writer.Waiting? || s.writer.Flushing?
  }

  function InHand(s: State): seq<Message> {
    if s.writer.Writing? then [s.writer.m] else []
  }

  /** A writer that is not draining will be woken for whatever is queued. */
  predicate WakePending(s: State) {
    OutsideDrain(s) && s.queue != [] ==> s.wake || s.signalling != {}
  }

  ghost predicate Inv(s: State, capacity: nat) {
    && WakePending(s)
    && |s.queue| <= capacity
    && (!s.writer.Gone? ==> s.accepted == s.written + InHand(s) + s.queue)
  }

  lemma StepKeepsInv(s: State, step: Step, capacity: nat)
    requires Inv(s, capacity) && Enabled(s, step, capacity)
    ensures Inv(Do(s, step, capacity), capacity)
  {
    var t := Do(s, step, capacity);
    match step
    case Signal(sender) =>
    case Enqueue(sender, m) =>
      assert sender in t.signalling;
    case Take =>
      assert s.queue == [s.queue[0]] + s.queue[1..];
    case _ =>
  }

  lemma {:induction false} RunKeepsInv(from: State, steps: seq<Step>, capacity: nat)
    requires Inv(from, capacity) && IsRun(from, steps, capacity)
    ensures Inv(After(from, steps, capacity), capacity)
    decreases |steps|
  {
    if steps != [] {
      StepKeepsInv(from, steps[0], capacity);
      RunKeepsInv(Do(from, steps[0], capacity), steps[1..], capacity);
    }
  }

  /**
    No lost wake-up, in every interleaving: whenever the writer is outside the reliable
    drain and a frame is queued, the token is set or some sender is about to set it; the
    bound holds; and until the writer is gone, frames are written in the order accepted.
   */
  lemma NoLostWakeup(steps: seq<Step>, capacity: nat)
    requires IsRun(INITIAL, steps, capacity)
    ensures var s := After(INITIAL, steps, capacity);
            && (OutsideDrain(s) && s.queue != [] ==> s.wake || s.signalling != {})
            && |s.queue| <= capacity
            && (!s.writer.Gone? ==> s.accepted == s.written + InHand(s) + s.queue)
  {
    RunKeepsInv(INITIAL, steps, capacity);
  }

  // ------------------------------------------------------------------ progress

  /** The steps that are owed: no new frame, tick, failure or close. */
  predicate Owed(step: Step) {
    step.Signal? || step.ReceiveWake? || step.Take? || step.WriteDone? || step.SeeEmpty? || step.FlushDone?
  }

  function Work(s: State): nat {
    2 * |s.queue| + 3 * |s.signalling| + (if s.wake then 2 else 0)
    + match s.writer { case Draining => 1 case Writing(_) => 2 case Flushing => 1 case _ => 0 }
  }

  lemma OwedStepWorks(s: State, step: Step, capacity: nat)
    requires Enabled(s, step, capacity) && Owed(step)
    ensures Work(Do(s, step, capacity)) < Work(s)
  {
  }

  /** Nothing owed can be done: every sender has signalled and the writer waits without a token. */
  ghost predicate Quiescent(s: State, capacity: nat) {
    forall step | Owed(step) :: !Enabled(s, step, capacity)
  }

  lemma QuiescentMeansEmpty(s: State, capacity: nat)
    requires Inv(s, capacity) && Quiescent(s, capacity) && !s.writer.Gone?
    ensures s.queue == [] && s.written == s.accepted && s.writer.Waiting?
  {
    if s.signalling != {} {
      var sender :| sender in s.signalling;
      assert Enabled(s, Signal(sender), capacity);
    }
    assert !Enabled(s, ReceiveWake, capacity);
    assert !Enabled(s, WriteDone, capacity);
    assert !Enabled(s, FlushDone, capacity);
    assert !Enabled(s, Take, capacity);
    assert !Enabled(s, SeeEmpty, capacity);
  }

  lemma {:induction false} OwedRunsEnd(from: State, steps: seq<Step>, capacity: nat)
    requires IsRun(from, steps, capacity)
    requires forall i | 0 <= i < |steps| :: Owed(steps[i])
    ensures |steps| + Work(After(from, steps, capacity)) <= Work(from)
    decreases |steps|
  {
    if steps != [] {
      OwedStepWorks(from, steps[0], capacity);
      OwedRunsEnd(Do(from, steps[0], capacity), steps[1..], capacity);
    }
  }

  /**
    No state strands a frame.  From any reachable state, owed steps in any order run out
    within a bound known in advance, and once they have, either the writer is gone or
    every accepted frame has been written, in order.
   */
  lemma EveryFrameIsWritten(steps: seq<Step>, more: seq<Step>, capacity: nat)
    requires IsRun(INITIAL, steps, capacity)
    requires var s := After(INITIAL, steps, capacity);
             IsRun(s, more, capacity) && forall i | 0 <= i < |more| :: Owed(more[i])
    ensures var s := After(INITIAL, steps, capacity);
            var t := After(s, more, capacity);
            && |more| <= Work(s)
            && (Quiescent(t, capacity) && !t.writer.Gone? ==> t.queue == [] && t.written == t.accepted)
  {
    RunKeepsInv(INITIAL, steps, capacity);
    var s := After(INITIAL, steps, capacity);
    OwedRunsEnd(s, more, capacity);
    RunKeepsInv(s, more, capacity);
    var t := After(s, more, capacity);
    if Quiescent(t, capacity) && !t.writer.Gone? {
      QuiescentMeansEmpty(t, capacity);
    }
  }
}
