/**
  Reliable fan-out over whole runs, senders interleaved.

  A fan-out takes a snapshot of its targets and then sends to one after another; a
  refused send is followed, in a separate step, by closing that peer.  Between any two
  steps other fan-outs, joins, departures, closes and the peers' writers may run.
  Fan-outs are numbered in the order they start, so a frame names the very send it
  comes from and not just an equal message.
 */
module RoomRuns {
  import opened Events
  import RoomService

  /** A frame in a reliable queue; the join roster and direct replies are owed to nobody. */
  datatype Frame = FromFanout(f: nat) | Courtesy(message: Message)

  datatype Conn = Conn(queue: seq<Frame>, taken: seq<Frame>, closed: bool)

  /** A fan-out under way; `refused` when the peer at `next` must now be closed. */
  datatype Fanout = Fanout(targets: seq<string>, next: nat, refused: bool) {
    /** The peer this fan-out is about to close. */
    predicate IsClosing(id: string) {
      refused && next < |targets| && targets[next] == id
    }
  }

  /** `log` has the message of each fan-out so far. */
  datatype State = State(rooms: map<string, set<string>>, conns: map<string, Conn>, fanouts: map<nat, Fanout>,
                         log: seq<Message>, draining: bool)

  datatype Step =
    | Join(id: string, note: string)
    | LeaveRoom(id: string, note: string)
    | BestEffort(id: string, message: Message)
    | StartFanout(f: nat, note: string, except: string, message: Message, order: seq<string>)
    | StartDirect(f: nat, id: string, message: Message)
    | SendNext(f: nat)
    | CloseRefused(f: nat)
    | Finish(f: nat)
    | TakeFrame(id: string)
    | CloseConn(id: string)
    | BeginDrain

  const INITIAL := State(map[], map[], map[], [], false)

  function Room(s: State, note: string): set<string> {
    if note in s.rooms then s.rooms[note] else {}
  }

  /** `order` lists the peers of a note, except one, each once. */
  predicate Snapshot(s: State, note: string, except: string, order: seq<string>) {
    && (forall i, j | 0 <= i < j < |order| :: order[i] != order[j])
    && (forall i | 0 <= i < |order| :: order[i] in Room(s, note) && order[i] != except)
    && (forall id | id in Room(s, note) && id != except :: id in order)
  }

  predicate Enabled(s: State, step: Step) {
    match step
    case Join(id, _) => id !in s.conns
    case LeaveRoom(id, note) => id in Room(s, note)
    case BestEffort(id, _) => id in s.conns
    case StartFanout(f, note, except, _, order) => f == |s.log| && Snapshot(s, note, except, order)
    case StartDirect(f, id, _) => f == |s.log| && id in s.conns
    case SendNext(f) => f in s.fanouts && s.fanouts[f].next < |s.fanouts[f].targets| && !s.fanouts[f].refused
    case CloseRefused(f) => f in s.fanouts && s.fanouts[f].next < |s.fanouts[f].targets| && s.fanouts[f].refused
    case Finish(f) => f in s.fanouts && s.fanouts[f].next == |s.fanouts[f].targets|
    case TakeFrame(id) => id in s.conns && s.conns[id].queue != []
    case CloseConn(id) => id in s.conns
    case BeginDrain => true
  }

  function Offer(c: Conn, frame: Frame, capacity: nat): Conn {
    if !c.closed && |c.queue| < capacity then c.(queue := c.queue + [frame]) else c
  }

  predicate Refuses(c: Conn, capacity: nat) {
    !c.closed && |c.queue| >= capacity
  }

  function WithConn(s: State, id: string, c: Conn): State {
    s.(conns := s.conns[id := c])
  }

  /** A connection the model does not know is left alone. */
  function Known(s: State, id: string): Conn {
    if id in s.conns then s.conns[id] else Conn([], [], true)
  }

  function Do(s: State, step: Step, capacity: nat): State
    requires Enabled(s, step)
  {
    match step
    case Join(id, note) =>
      // Joining a draining server only closes the newcomer.
      if s.draining then WithConn(s, id, Conn([], [], true))
      else WithConn(s, id, Conn([], [], false)).(rooms := s.rooms[note := Room(s, note) + {id}])
    case LeaveRoom(id, note) =>
      var left := s.rooms[note] - {id};
      s.(rooms := if left == {} then s.rooms - {note} else s.rooms[note := left])
    case BestEffort(id, m) =>
      WithConn(s, id, Offer(s.conns[id], Courtesy(m), capacity))
    case StartFanout(f, _, _, m, order) =>
      s.(fanouts := s.fanouts[f := Fanout(order, 0, false)], log := s.log + [m])
    case StartDirect(f, id, m) =>
      s.(fanouts := s.fanouts[f := Fanout([id], 0, false)], log := s.log + [m])
    case SendNext(f) =>
      var t := s.fanouts[f];
      var id := t.targets[t.next];
      var c := Known(s, id);
      var t' := if Refuses(c, capacity) then t.(refused := true) else t.(next := t.next + 1);
      WithConn(s, id, Offer(c, FromFanout(f), capacity)).(fanouts := s.fanouts[f := t'])
    case CloseRefused(f) =>
      var t := s.fanouts[f];
      var id := t.targets[t.next];
      var t' := t.(next := t.next + 1, refused := false);
      WithConn(s, id, Known(s, id).(closed := true)).(fanouts := s.fanouts[f := t'])
    case Finish(f) =>
      s.(fanouts := s.fanouts - {f})
    case TakeFrame(id) =>
      var c := s.conns[id];
      WithConn(s, id, c.(queue := c.queue[1..], taken := c.taken + [c.queue[0]]))
    case CloseConn(id) =>
      WithConn(s, id, s.conns[id].(closed := true))
    case BeginDrain =>
      s.(draining := true)
  }

  function After(steps: seq<Step>, capacity: nat): State {
    if steps == [] then INITIAL
    else
      var s := After(steps[..|steps| - 1], capacity);
      if Enabled(s, steps[|steps| - 1]) then Do(s, steps[|steps| - 1], capacity) else s
  }

  predicate IsRun(steps: seq<Step>, capacity: nat) {
    steps == []
    || (&& IsRun(steps[..|steps| - 1], capacity)
        && Enabled(After(steps[..|steps| - 1], capacity), steps[|steps| - 1]))
  }

  // ------------------------------------------- what the steps alone say was addressed

  /** Whom a fan-out was started for. */
  function TargetsOf(steps: seq<Step>, f: nat): seq<string> {
    if steps == [] then []
    else
      var step := steps[|steps| - 1];
      if step.StartFanout? && step.f == f then step.order
      else if step.StartDirect? && step.f == f then [step.id]
      else TargetsOf(steps[..|steps| - 1], f)
  }

  /** How many of its sends were attempted. */
  function Sends(steps: seq<Step>, f: nat): nat {
    if steps == [] then 0
    else Sends(steps[..|steps| - 1], f) + if steps[|steps| - 1] == SendNext(f) then 1 else 0
  }

  /** The fan-outs that attempted to send to a connection, in order. */
  function Addressed(steps: seq<Step>, id: string): seq<nat> {
    if steps == [] then []
    else
      var before, step := steps[..|steps| - 1], steps[|steps| - 1];
      Addressed(before, id) + if step.SendNext? && IsNext(before, step.f, id) then [step.f] else []
  }

  predicate IsNext(steps: seq<Step>, f: nat, id: string) {
    Sends(steps, f) < |TargetsOf(steps, f)| && TargetsOf(steps, f)[Sends(steps, f)] == id
  }

  // ------------------------------------------------------------------- invariants

  /** The fan-outs among the frames, in order. */
  function Ordinals(frames: seq<Frame>): seq<nat> {
    if frames == [] then []
    else
      var k := |frames| - 1;
      Ordinals(frames[..k]) + if frames[k].FromFanout? then [frames[k].f] else []
  }

  lemma OrdinalsOneMore(frames: seq<Frame>, frame: Frame)
    ensures Ordinals(frames + [frame]) == Ordinals(frames) + if frame.FromFanout? then [frame.f] else []
  {
    assert (frames + [frame])[..|frames|] == frames;
  }

  /** Every fan-out that got through to a connection, its frame written or waiting. */
  function Delivered(c: Conn): seq<nat> {
    Ordinals(c.taken + c.queue)
  }

  /** Some sender was refused by this connection and is about to close it. */
  ghost predicate Condemned(s: State, id: string) {
    exists f :: f in s.fanouts && s.fanouts[f].IsClosing(id)
  }

  /** The state of a fan-out is what the steps say. */
  ghost predicate Tracks(steps: seq<Step>, s: State) {
    && (forall f | f in s.fanouts ::
          && f < |s.log|
          && TargetsOf(steps, f) == s.fanouts[f].targets
          && Sends(steps, f) == s.fanouts[f].next + if s.fanouts[f].refused then 1 else 0)
    && (forall f | f >= |s.log| :: Sends(steps, f) == 0)
  }

  ghost predicate ConnOk(steps: seq<Step>, s: State, id: string, capacity: nat)
    requires id in s.conns
  {
    var c := s.conns[id];
    && |c.queue| <= capacity
    && (!c.closed && !Condemned(s, id) ==> Delivered(c) == Addressed(steps, id))
    && (!c.closed && Condemned(s, id) ==> |Delivered(c)| < |Addressed(steps, id)|)
  }

  /** Targets already served got the frame or are closed. */
  ghost predicate Served(s: State, f: nat, t: Fanout) {
    && t.next <= |t.targets|
    && (forall i | 0 <= i < |t.targets| :: t.targets[i] in s.conns)
    && (forall i | 0 <= i < t.next ::
          s.conns[t.targets[i]].closed || f in Delivered(s.conns[t.targets[i]]))
  }

  ghost predicate FanoutsOk(s: State) {
    && (forall f | f in s.fanouts :: Served(s, f, s.fanouts[f]))
    && (forall note | note in s.rooms :: s.rooms[note] <= s.conns.Keys)
  }

  ghost predicate ConnsOk(steps: seq<Step>, s: State, capacity: nat) {
    && (forall id | id in s.conns :: ConnOk(steps, s, id, capacity))
    && (forall id | id !in s.conns :: Addressed(steps, id) == [])
  }

  /** What one step may do to a connection: deliver more, never less, and never reopen. */
  ghost predicate Grows(c: Conn, d: Conn) {
    (c.closed ==> d.closed) && Delivered(c) <= Delivered(d)
  }

  lemma OfferGrows(c: Conn, frame: Frame, capacity: nat)
    ensures var d := Offer(c, frame, capacity);
            && Grows(c, d)
            && Delivered(d) == Delivered(c) + (if d != c && frame.FromFanout? then [frame.f] else [])
            && (d == c <==> c.closed || Refuses(c, capacity))
  {
    assert c.taken + (c.queue + [frame]) == (c.taken + c.queue) + [frame];
    OrdinalsOneMore(c.taken + c.queue, frame);
    assert |c.queue + [frame]| != |c.queue|;
  }

  lemma TakeKeepsDelivered(c: Conn)
    requires c.queue != []
    ensures Delivered(c.(queue := c.queue[1..], taken := c.taken + [c.queue[0]])) == Delivered(c)
  {
    assert (c.taken + [c.queue[0]]) + c.queue[1..] == c.taken + c.queue;
  }

  lemma ClosingGrows(c: Conn)
    ensures Grows(c, c.(closed := true))
  {
  }

  lemma StepGrows(s: State, step: Step, capacity: nat)
    requires Enabled(s, step)
    ensures var s' := Do(s, step, capacity);
            s.conns.Keys <= s'.conns.Keys && forall id | id in s.conns :: Grows(s.conns[id], s'.conns[id])
  {
    hide Delivered, Offer, Snapshot;
    match step
    case BestEffort(id, m) => OfferGrows(s.conns[id], Courtesy(m), capacity);
    case SendNext(f) => OfferGrows(Known(s, s.fanouts[f].targets[s.fanouts[f].next]), FromFanout(f), capacity);
    case TakeFrame(id) => TakeKeepsDelivered(s.conns[id]);
    case CloseRefused(f) => ClosingGrows(Known(s, s.fanouts[f].targets[s.fanouts[f].next]));
    case CloseConn(id) => ClosingGrows(s.conns[id]);
    case _ =>
  }

  // ------------------------------------------------------- the steps and the fan-outs

  lemma TracksOneMore(before: seq<Step>, s: State, step: Step, capacity: nat)
    requires Tracks(before, s) && Enabled(s, step)
    ensures Tracks(before + [step], Do(s, step, capacity))
  {
    forall f: nat {
      FanoutOneMore(before, s, step, f, capacity);
    }
    hide Do, Enabled, Sends, TargetsOf;
  }

  lemma FanoutOneMore(before: seq<Step>, s: State, step: Step, f: nat, capacity: nat)
    requires Tracks(before, s) && Enabled(s, step)
    ensures var steps, s' := before + [step], Do(s, step, capacity);
            && (f in s'.fanouts ==>
                  && f < |s'.log|
                  && TargetsOf(steps, f) == s'.fanouts[f].targets
                  && Sends(steps, f) == s'.fanouts[f].next + if s'.fanouts[f].refused then 1 else 0)
            && (f >= |s'.log| ==> Sends(steps, f) == 0)
  {
    hide Snapshot, Offer;
    assert (before + [step])[..|before|] == before;
  }

  /** Whatever happens to connections, what was served stays served. */
  lemma ServedStays(s: State, s': State, f: nat, t: Fanout)
    requires Served(s, f, t) && s.conns.Keys <= s'.conns.Keys
    requires forall id | id in s.conns :: Grows(s.conns[id], s'.conns[id])
    ensures Served(s', f, t)
  {
    hide Ordinals;
  }

  lemma StepKeepsFanouts(s: State, step: Step, capacity: nat)
    requires FanoutsOk(s) && Enabled(s, step)
    ensures FanoutsOk(Do(s, step, capacity))
  {
    RoomsAfterStep(s, step, capacity);
    forall f | f in Do(s, step, capacity).fanouts
      ensures Served(Do(s, step, capacity), f, Do(s, step, capacity).fanouts[f])
    {
      FanoutAfterStep(s, step, f, capacity);
    }
  }

  lemma RoomsAfterStep(s: State, step: Step, capacity: nat)
    requires FanoutsOk(s) && Enabled(s, step)
    ensures var s' := Do(s, step, capacity);
            forall note | note in s'.rooms :: s'.rooms[note] <= s'.conns.Keys
  {
    hide Served, Offer, Snapshot;
  }

  lemma FanoutAfterStep(s: State, step: Step, f: nat, capacity: nat)
    requires FanoutsOk(s) && Enabled(s, step) && f in Do(s, step, capacity).fanouts
    ensures Served(Do(s, step, capacity), f, Do(s, step, capacity).fanouts[f])
  {
    var s' := Do(s, step, capacity);
    StepGrows(s, step, capacity);
    hide Grows, Offer, Served, Snapshot;
    if f in s.fanouts {
      ServedStays(s, s', f, s.fanouts[f]);
    }
    if (step.StartFanout? || step.StartDirect?) && step.f == f {
      NewlyServed(s, s', step, f, capacity);
    } else if (step.SendNext? || step.CloseRefused?) && step.f == f {
      AdvanceServed(s, s', step, f, capacity);
    }
  }

  lemma NewlyServed(s: State, s': State, step: Step, f: nat, capacity: nat)
    requires FanoutsOk(s) && Enabled(s, step) && s' == Do(s, step, capacity)
    requires (step.StartFanout? || step.StartDirect?) && step.f == f
    ensures f in s'.fanouts && Served(s', f, s'.fanouts[f])
  {
    hide Delivered, Offer;
    var t := s'.fanouts[f];
    if step.StartFanout? {
      forall i | 0 <= i < |t.targets| ensures t.targets[i] in s.conns {
        assert step.order[i] in Room(s, step.note);
      }
    }
  }

  lemma AdvanceServed(s: State, s': State, step: Step, f: nat, capacity: nat)
    requires FanoutsOk(s) && Enabled(s, step) && s' == Do(s, step, capacity)
    requires (step.SendNext? || step.CloseRefused?) && step.f == f && Served(s', f, s.fanouts[f])
    ensures Served(s', f, s'.fanouts[f])
  {
    hide Delivered, Offer, Snapshot;
    var t := s.fanouts[f];
    OfferGrows(Known(s, t.targets[t.next]), FromFanout(f), capacity);
  }

  // -------------------------------------------------------------- the connections

  /** A pending close is only discharged by closing. */
  lemma CondemnedUntilClosed(s: State, step: Step, id: string, capacity: nat)
    requires Enabled(s, step) && Condemned(s, id)
    requires forall f | f in s.fanouts :: f < |s.log|
    ensures var s' := Do(s, step, capacity);
            Condemned(s', id) || (id in s'.conns && s'.conns[id].closed)
  {
    hide Offer, Snapshot;
    var f :| f in s.fanouts && s.fanouts[f].IsClosing(id);
    var s' := Do(s, step, capacity);
    if f in s'.fanouts && s'.fanouts[f] == s.fanouts[f] {
      assert Condemned(s', id);
    }
  }

  /** Only a refusal condemns. */
  lemma NewlyCondemned(s: State, step: Step, id: string, capacity: nat)
    requires Enabled(s, step) && !Condemned(s, id) && Condemned(Do(s, step, capacity), id)
    ensures step.SendNext? && s.fanouts[step.f].targets[s.fanouts[step.f].next] == id && Refuses(Known(s, id), capacity)
  {
    hide Offer, Snapshot;
    var s' := Do(s, step, capacity);
    var f :| f in s'.fanouts && s'.fanouts[f].IsClosing(id);
    assert f in s.fanouts ==> !s.fanouts[f].IsClosing(id);
  }

  /** A refusal condemns. */
  lemma RefusalCondemns(s: State, f: nat, capacity: nat)
    requires Enabled(s, SendNext(f))
    requires Refuses(Known(s, s.fanouts[f].targets[s.fanouts[f].next]), capacity)
    ensures Condemned(Do(s, SendNext(f), capacity), s.fanouts[f].targets[s.fanouts[f].next])
  {
    var s' := Do(s, SendNext(f), capacity);
    assert s'.fanouts[f].IsClosing(s.fanouts[f].targets[s.fanouts[f].next]);
  }

  /** What a step addresses to a connection, seen in the steps and in the state. */
  lemma AddressedOneMore(before: seq<Step>, s: State, step: Step, id: string)
    requires Tracks(before, s) && Enabled(s, step)
    ensures Addressed(before + [step], id)
         == Addressed(before, id)
            + if step.SendNext? && s.fanouts[step.f].targets[s.fanouts[step.f].next] == id then [step.f] else []
  {
    hide Snapshot;
    assert (before + [step])[..|before|] == before;
  }

  /** What a step does to the frames of a connection that stays open. */
  lemma DeliveredOneMore(s: State, step: Step, id: string, capacity: nat)
    requires Enabled(s, step) && id in s.conns && !s.conns[id].closed
    ensures var s' := Do(s, step, capacity);
            var sent := step.SendNext? && s.fanouts[step.f].targets[s.fanouts[step.f].next] == id;
            id in s'.conns
            && Delivered(s'.conns[id])
               == Delivered(s.conns[id]) + if sent && !Refuses(s.conns[id], capacity) then [step.f] else []
  {
    hide Delivered, Offer, Snapshot;
    match step
    case BestEffort(i, m) => OfferGrows(s.conns[i], Courtesy(m), capacity);
    case SendNext(f) => OfferGrows(Known(s, s.fanouts[f].targets[s.fanouts[f].next]), FromFanout(f), capacity);
    case TakeFrame(i) => TakeKeepsDelivered(s.conns[i]);
    case CloseRefused(f) => ClosingKeeps(Known(s, s.fanouts[f].targets[s.fanouts[f].next]));
    case CloseConn(i) => ClosingKeeps(s.conns[i]);
    case _ =>
  }

  lemma ClosingKeeps(c: Conn)
    ensures Delivered(c.(closed := true)) == Delivered(c)
  {
  }

  lemma QueueStaysBounded(s: State, step: Step, id: string, capacity: nat)
    requires Enabled(s, step) && (id in s.conns ==> |s.conns[id].queue| <= capacity)
    ensures id in Do(s, step, capacity).conns ==> |Do(s, step, capacity).conns[id].queue| <= capacity
  {
    hide Snapshot;
  }

  lemma ConnAfterStep(before: seq<Step>, s: State, step: Step, id: string, capacity: nat)
    requires Tracks(before, s) && Enabled(s, step) && id in s.conns && ConnOk(before, s, id, capacity)
    ensures id in Do(s, step, capacity).conns
    ensures ConnOk(before + [step], Do(s, step, capacity), id, capacity)
  {
    var s' := Do(s, step, capacity);
    StepGrows(s, step, capacity);
    QueueStaysBounded(s, step, id, capacity);
    var c, d := s.conns[id], s'.conns[id];
    if !d.closed {
      AddressedOneMore(before, s, step, id);
      DeliveredOneMore(s, step, id, capacity);
      if Condemned(s, id) {
        CondemnedUntilClosed(s, step, id, capacity);
      } else if Condemned(s', id) {
        NewlyCondemned(s, step, id, capacity);
      } else if step.SendNext? && Refuses(c, capacity) && s.fanouts[step.f].targets[s.fanouts[step.f].next] == id {
        RefusalCondemns(s, step.f, capacity);
      }
    }
    hide Do, Enabled, Delivered, Condemned, Tracks;
  }

  lemma StepKeepsConns(before: seq<Step>, s: State, step: Step, capacity: nat)
    requires Tracks(before, s) && FanoutsOk(s) && ConnsOk(before, s, capacity) && Enabled(s, step)
    ensures ConnsOk(before + [step], Do(s, step, capacity), capacity)
  {
    var s' := Do(s, step, capacity);
    StepGrows(s, step, capacity);
    forall id | id in s'.conns ensures ConnOk(before + [step], s', id, capacity) {
      if id in s.conns {
        ConnAfterStep(before, s, step, id, capacity);
      } else {
        Newcomer(before, s, step, id, capacity);
      }
    }
    forall id | id !in s'.conns ensures Addressed(before + [step], id) == [] {
      NotATarget(before, s, step, id);
    }
  }

  lemma NotATarget(before: seq<Step>, s: State, step: Step, id: string)
    requires Tracks(before, s) && FanoutsOk(s) && Enabled(s, step)
    requires id !in s.conns && Addressed(before, id) == []
    ensures Addressed(before + [step], id) == []
  {
    AddressedOneMore(before, s, step, id);
    if step.SendNext? {
      assert Served(s, step.f, s.fanouts[step.f]);
    }
  }

  lemma Newcomer(before: seq<Step>, s: State, step: Step, id: string, capacity: nat)
    requires Tracks(before, s) && FanoutsOk(s) && Enabled(s, step) && Addressed(before, id) == []
    requires id !in s.conns && id in Do(s, step, capacity).conns
    ensures ConnOk(before + [step], Do(s, step, capacity), id, capacity)
  {
    NotATarget(before, s, step, id);
  }

  lemma {:induction false} RunKeepsInv(steps: seq<Step>, capacity: nat)
    requires IsRun(steps, capacity)
    ensures var s := After(steps, capacity);
            Tracks(steps, s) && FanoutsOk(s) && ConnsOk(steps, s, capacity)
    decreases |steps|
  {
    hide Tracks, FanoutsOk, ConnsOk, Do, Enabled;
    if steps == [] {
      NothingYet(capacity);
    } else {
      var before, step := steps[..|steps| - 1], steps[|steps| - 1];
      RunKeepsInv(before, capacity);
      var s := After(before, capacity);
      assert before + [step] == steps;
      TracksOneMore(before, s, step, capacity);
      StepKeepsFanouts(s, step, capacity);
      StepKeepsConns(before, s, step, capacity);
    }
  }

  lemma NothingYet(capacity: nat)
    ensures Tracks([], INITIAL) && FanoutsOk(INITIAL) && ConnsOk([], INITIAL, capacity)
  {
  }

  /**
    No gaps.  In every run an open connection has, written or waiting and in order, exactly
    the sends that were addressed to it, if and only if no sender is between a refusal and
    the close that follows; and no queue ever passes its bound.
   */
  lemma NoGaps(steps: seq<Step>, capacity: nat, id: string)
    requires IsRun(steps, capacity)
    requires id in After(steps, capacity).conns
    ensures var s := After(steps, capacity);
            var c := s.conns[id];
            && |c.queue| <= capacity
            && (!c.closed ==> (Ordinals(c.taken + c.queue) == Addressed(steps, id) <==> !Condemned(s, id)))
  {
    RunKeepsInv(steps, capacity);
  }

  /** A finished fan-out has left its own frame with every peer of its snapshot, or closed that peer. */
  lemma FanoutReachesAll(steps: seq<Step>, capacity: nat, f: nat)
    requires IsRun(steps, capacity)
    requires Enabled(After(steps, capacity), Finish(f))
    ensures var s := After(steps, capacity);
            forall id | id in TargetsOf(steps, f) ::
              && id in s.conns
              && (s.conns[id].closed || f in Ordinals(s.conns[id].taken + s.conns[id].queue))
  {
    RunKeepsInv(steps, capacity);
    var s := After(steps, capacity);
    assert Served(s, f, s.fanouts[f]);
  }

  /** A refusal ends in a close, whatever happens in between: the sender has no other step left. */
  lemma {:induction false} RefusalCloses(steps: seq<Step>, n: nat, capacity: nat, f: nat)
    requires IsRun(steps, capacity) && n <= |steps|
    requires f in After(steps[..n], capacity).fanouts
    requires var t := After(steps[..n], capacity).fanouts[f]; t.refused && t.next < |t.targets|
    ensures var t := After(steps[..n], capacity).fanouts[f];
            var s := After(steps, capacity);
            || (f in s.fanouts && s.fanouts[f] == t)
            || (t.targets[t.next] in s.conns && s.conns[t.targets[t.next]].closed)
    decreases |steps|
  {
    if n == |steps| {
      assert steps[..n] == steps;
    } else {
      var before, step := steps[..|steps| - 1], steps[|steps| - 1];
      assert before[..n] == steps[..n];
      RefusalCloses(before, n, capacity, f);
      RunKeepsInv(before, capacity);
      PendingOrClosed(After(before, capacity), step, capacity, f, After(steps[..n], capacity).fanouts[f]);
    }
  }

  lemma PendingOrClosed(s: State, step: Step, capacity: nat, f: nat, t: Fanout)
    requires Enabled(s, step) && t.refused && t.next < |t.targets|
    requires forall g | g in s.fanouts :: g < |s.log|
    requires || (f in s.fanouts && s.fanouts[f] == t)
             || (t.targets[t.next] in s.conns && s.conns[t.targets[t.next]].closed)
    ensures var s' := Do(s, step, capacity);
            || (f in s'.fanouts && s'.fanouts[f] == t)
            || (t.targets[t.next] in s'.conns && s'.conns[t.targets[t.next]].closed)
  {
    if t.targets[t.next] in s.conns && s.conns[t.targets[t.next]].closed {
      hide Do, Enabled, Delivered;
      StepGrows(s, step, capacity);
    } else {
      OnlyClosingGoesOn(s, step, capacity, f);
    }
  }

  lemma OnlyClosingGoesOn(s: State, step: Step, capacity: nat, f: nat)
    requires Enabled(s, step) && forall g | g in s.fanouts :: g < |s.log|
    requires f in s.fanouts && s.fanouts[f].refused && s.fanouts[f].next < |s.fanouts[f].targets|
    ensures var s' := Do(s, step, capacity);
            var id := s.fanouts[f].targets[s.fanouts[f].next];
            || (f in s'.fanouts && s'.fanouts[f] == s.fanouts[f])
            || (id in s'.conns && s'.conns[id].closed)
  {
    hide Offer, Snapshot;
  }

  /** The frames' messages, each fan-out's from the log. */
  function Messages(frames: seq<Frame>, log: seq<Message>): (ms: seq<Message>)
    requires forall i | 0 <= i < |frames| && frames[i].FromFanout? :: frames[i].f < |log|
    ensures |ms| == |frames|
  {
    seq(|frames|, i requires 0 <= i < |frames| =>
      match frames[i] case FromFanout(f) => log[f] case Courtesy(m) => m)
  }

  /** With nothing in between, a send and the close that follows a refusal are the service's one call. */
  lemma SendThenCloseIsSent(c: Conn, f: nat, log: seq<Message>, capacity: nat)
    requires f < |log| && forall i | 0 <= i < |c.queue| && c.queue[i].FromFanout? :: c.queue[i].f < |log|
    ensures var d := Offer(c, FromFanout(f), capacity);
            var e := if Refuses(c, capacity) then d.(closed := true) else d;
            && (forall i | 0 <= i < |e.queue| && e.queue[i].FromFanout? :: e.queue[i].f < |log|)
            && (Messages(e.queue, log), e.closed)
               == RoomService.Sent(Messages(c.queue, log), c.closed, capacity, log[f])
  {
    if !c.closed && |c.queue| < capacity {
      assert Messages(c.queue + [FromFanout(f)], log) == Messages(c.queue, log) + [log[f]];
    }
  }

  /**
    Between a refusal and the close the promise does not hold: here a peer with a one-frame
    queue is open and has missed the second frame addressed to it.
   */
  lemma RefusalLeavesAGap(a: Message, b: Message)
    ensures var steps := [Join("p", "n"), StartDirect(0, "p", a), SendNext(0), StartDirect(1, "p", b), SendNext(1)];
            && IsRun(steps, 1)
            && var c := Known(After(steps, 1), "p");
            && !c.closed && Ordinals(c.taken + c.queue) == [0] && Addressed(steps, "p") == [0, 1]
  {
    hide Do, Enabled, After, IsRun, Addressed, Ordinals;
    var first := [Join("p", "n"), StartDirect(0, "p", a), SendNext(0)];
    OneSend(a);
    SecondSendIsRefused(After(first, 1), b);
    OneMoreStep(first, StartDirect(1, "p", b), 1);
    OneMoreStep(first + [StartDirect(1, "p", b)], SendNext(1), 1);
    assert first + [StartDirect(1, "p", b)] + [SendNext(1)]
        == [Join("p", "n"), StartDirect(0, "p", a), SendNext(0), StartDirect(1, "p", b), SendNext(1)];
  }

  lemma SecondSendIsRefused(s: State, b: Message)
    requires "p" in s.conns && s.conns["p"] == Conn([FromFanout(0)], [], false) && |s.log| == 1
    ensures Enabled(s, StartDirect(1, "p", b))
    ensures var started := Do(s, StartDirect(1, "p", b), 1);
            && Enabled(started, SendNext(1)) && started.fanouts[1] == Fanout(["p"], 0, false)
            && var sent := Do(started, SendNext(1), 1);
            && "p" in sent.conns && sent.conns["p"] == s.conns["p"]
  {
  }

  lemma OneSend(a: Message)
    ensures var steps := [Join("p", "n"), StartDirect(0, "p", a), SendNext(0)];
            && IsRun(steps, 1)
            && var s := After(steps, 1);
            && "p" in s.conns && s.conns["p"] == Conn([FromFanout(0)], [], false) && |s.log| == 1
            && Ordinals([] + [FromFanout(0)]) == [0] && Addressed(steps, "p") == [0]
  {
    var join, start, send := Join("p", "n"), StartDirect(0, "p", a), SendNext(0);
    var s1 := Do(INITIAL, join, 1);
    var s2 := Do(s1, start, 1);
    var s3 := Do(s2, send, 1);
    assert s2.fanouts[0] == Fanout(["p"], 0, false);
    assert Enabled(INITIAL, join) && Enabled(s1, start) && Enabled(s2, send);
    assert s3.conns["p"] == Conn([FromFanout(0)], [], false);
    assert After([], 1) == INITIAL && IsRun([], 1) && Addressed([], "p") == [];
    OrdinalsOneMore([], FromFanout(0));
    hide Do, Enabled, After, IsRun, Addressed;
    OneMoreStep([], join, 1);
    OneMoreStep([] + [join], start, 1);
    OneMoreStep([] + [join] + [start], send, 1);
    assert [] + [join] + [start] + [send] == [join, start, send];
  }

  lemma OneMoreStep(before: seq<Step>, step: Step, capacity: nat)
    requires IsRun(before, capacity) && Enabled(After(before, capacity), step)
    ensures var s := After(before, capacity);
            && IsRun(before + [step], capacity)
            && After(before + [step], capacity) == Do(s, step, capacity)
            && forall id :: Addressed(before + [step], id)
                 == Addressed(before, id)
                    + if step.SendNext? && s.fanouts[step.f].targets[s.fanouts[step.f].next] == id then [step.f] else []
  {
    assert (before + [step])[..|before|] == before;
    RunKeepsInv(before, capacity);
    forall id {
      AddressedOneMore(before, After(before, capacity), step, id);
    }
  }
}
