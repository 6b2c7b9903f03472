/** Live connections grouped by note. */
module RoomStore {
  import opened Wrappers
  import opened Queues

  class Connection {
    const id: string
    const sessionId: string
    const userId: string
    const noteId: string
    const queues: OutboundQueues

    constructor (id: string, sessionId: string, userId: string, noteId: string, queues: OutboundQueues)
      ensures this.id == id && this.sessionId == sessionId && this.userId == userId
      ensures this.noteId == noteId && this.queues == queues
    {
      this.id, this.sessionId, this.userId, this.noteId, this.queues := id, sessionId, userId, noteId, queues;
    }
  }

  type Room = map<string, Connection>

  type Rooms = map<string, Room>

  function RoomIn(rooms: Rooms, note: string): Room {
    if note in rooms then rooms[note] else map[]
  }

  /** Rooms are never empty, and a room lists its own note's connections by their ids. */
  ghost predicate WellFormed(rooms: Rooms) {
    && (forall note | note in rooms :: rooms[note] != map[])
    && (forall note, id | note in rooms && id in rooms[note] ::
          rooms[note][id].id == id && rooms[note][id].noteId == note)
  }

  /** `after` differs from `before` in one room, and keeps no empty one. */
  ghost predicate OnlyRoom(before: Rooms, after: Rooms, note: string, room: Room) {
    && RoomIn(after, note) == room
    && (forall n | n != note :: RoomIn(after, n) == RoomIn(before, n))
  }

  lemma RoomReplaced(before: Rooms, note: string, room: Room)
    requires WellFormed(before)
    requires forall id | id in room :: room[id].id == id && room[id].noteId == note
    ensures var after := if room == map[] then before - {note} else before[note := room];
            WellFormed(after) && OnlyRoom(before, after, note, room)
  {
  }

  ghost function MembersOf(rooms: Rooms): set<Connection> {
    set note, id | note in rooms && id in rooms[note] :: rooms[note][id]
  }

  class MemoryRoomStore {
    var rooms: Rooms

    ghost predicate Valid()
      reads this
    {
      WellFormed(rooms)
    }

    ghost function RoomOf(note: string): Room
      reads this
    {
      RoomIn(rooms, note)
    }

    /** Everyone in a note's room except one id. */
    ghost function PeerSet(note: string, except: string): set<Connection>
      reads this
    {
      (RoomOf(note) - {except}).Values
    }

    constructor ()
      ensures Valid() && rooms == map[]
    {
      rooms := map[];
    }

    method Join(c: Connection) returns (size: nat)
      requires Valid()
      modifies this
      ensures Valid() && size == |RoomOf(c.noteId)|
      ensures OnlyRoom(old(rooms), rooms, c.noteId, old(RoomOf(c.noteId))[c.id := c])
    {
      var room: Room := if c.noteId in rooms then rooms[c.noteId] else map[];
      room := room[c.id := c];
      RoomReplaced(rooms, c.noteId, room);
      hide WellFormed;
      rooms := rooms[c.noteId := room];
      size := |room|;
    }

    method Leave(c: Connection) returns (remaining: nat)
      requires Valid()
      modifies this
      ensures Valid() && remaining == |RoomOf(c.noteId)|
      ensures OnlyRoom(old(rooms), rooms, c.noteId, old(RoomOf(c.noteId)) - {c.id})
    {
      if c.noteId !in rooms {
        return 0;
      }
      var room := rooms[c.noteId] - {c.id};
      RoomReplaced(rooms, c.noteId, room);
      hide WellFormed;
      remaining := |room|;
      if remaining == 0 {
        rooms := rooms - {c.noteId};
      } else {
        rooms := rooms[c.noteId := room];
      }
    }

    /** A snapshot of the peers, each once, in no particular order. */
    method Peers(note: string, except: string) returns (peers: seq<Connection>)
      requires Valid()
      ensures forall c :: c in peers <==> c in PeerSet(note, except)
      ensures forall i, j | 0 <= i < j < |peers| :: peers[i].id != peers[j].id
    {
      peers := [];
      var room: Room := if note in rooms then rooms[note] else map[];
      var todo := room.Keys;
      while todo != {}
        invariant todo <= room.Keys
        invariant forall c | c in peers :: c.id in room && room[c.id] == c && c.id !in todo && c.id != except
        invariant forall id | id in room && id !in todo && id != except :: room[id] in peers
        invariant forall i, j | 0 <= i < j < |peers| :: peers[i].id != peers[j].id
        decreases |todo|
      {
        var id :| id in todo;
        if id != except {
          assert forall i | 0 <= i < |peers| :: peers[i] in peers;
          peers := peers + [room[id]];
        }
        todo := todo - {id};
      }
      forall c ensures c in peers <==> c in PeerSet(note, except) {
        if c in peers {
          assert c.id in RoomOf(note) - {except};
        }
      }
    }

    /** The lookup never leaves the note it was asked in. */
    method ConnectionByID(note: string, id: string) returns (c: Option<Connection>)
      requires Valid()
      ensures c == if id in RoomOf(note) then Some(RoomOf(note)[id]) else None
      ensures c.Some? ==> c.value.noteId == note && c.value.id == id
    {
      if note !in rooms || id !in rooms[note] {
        return None;
      }
      c := Some(rooms[note][id]);
    }
  }
}

/** Relay and notification over the rooms. */
module RoomService {
  import opened Wrappers
  import opened Events
  import opened LatestWins
  import opened Queues
  import opened CoalesceKeys
  import opened RoomStore
  import Grid
  import InterestIndex

  datatype Rejection = NoTarget | TargetAbsent | SelfTarget | RoomTooLarge

  /** What one reliable send does to a peer: refusal closes it, and a closed peer is passed over. */
  function Sent(reliable: seq<Message>, closed: bool, capacity: nat, m: Message): (seq<Message>, bool) {
    if closed then (reliable, true)
    else if |reliable| < capacity then (reliable + [m], false)
    else (reliable, true)
  }

  twostate predicate GotReliable(q: OutboundQueues, m: Message)
    reads q
  {
    && q.Valid()
    && (q.reliable, q.closed) == Sent(old(q.reliable), old(q.closed), q.maxReliable, m)
    && q.ephemeral == old(q.ephemeral) && q.ephemeralOrder == old(q.ephemeralOrder)
  }

  /** `m` went into the keyed queue under the relay's key, with a counter value after `from` for a delta. */
  twostate predicate GotPreview(q: OutboundQueues, sender: string, m: Message, from: nat, to: nat)
    requires old(q.Valid())
    reads q
  {
    && q.Valid() && q.reliable == old(q.reliable) && q.closed == old(q.closed)
    && if old(q.closed) then q.Contents() == old(q.Contents())
       else exists n: nat {:trigger CoalesceKey(sender, m, n)} :: from <= n <= to
              && (m.event == "ink.points" ==> from < n)
              && q.Contents() == Push(old(q.Contents()), CoalesceKey(sender, m, n), m, q.maxEphemeral)
  }

  predicate IsLiveInk(event: string) {
    event == "ink.started" || event == "ink.points"
  }

  function LocationOf(f: Fields): Grid.EventLocation {
    if f.x.None? || f.y.None? then Grid.EventLocation(f.pageId, false, 0.0, 0.0)
    else Grid.EventLocation(f.pageId, true, f.x.value, f.y.value)
  }

  /** Whether a preview is for this recipient, from its own report alone. */
  function Eligible(report: Option<Grid.Interest>, m: Message): bool {
    && (IsLiveInk(m.event) || Grid.Wants(report, LocationOf(m.fields)))
    && (report.Some? ==> Grid.AllowsPreview(report.value, m.event))
  }

  ghost predicate Separate(peers: seq<Connection>)
  {
    forall i, j | 0 <= i < j < |peers| :: peers[i].queues != peers[j].queues
  }

  class RoomService {
    const store: MemoryRoomStore
    const maxWebRTCPeers: nat
    const interest: InterestIndex.MemoryInterestIndex?
    var draining: bool
    var deltaSeq: nat

    /** Every room member has valid queues of its own. */
    ghost predicate Valid()
      reads this, store, Members(), set c | c in Members() :: c.queues, interest
    {
      && store.Valid()
      && (forall c | c in Members() :: c.queues.Valid())
      && (forall c, d | c in Members() && d in Members() && c != d :: c.queues != d.queues)
      && (interest != null ==> interest.Valid())
    }

    ghost function Members(): set<Connection>
      reads store
    {
      MembersOf(store.rooms)
    }

    ghost function ReportOf(id: string): Option<Grid.Interest>
      reads this, interest
    {
      if interest == null then None else InterestIndex.Report(interest.byConnection, id)
    }

    constructor (store: MemoryRoomStore, maxWebRTCPeers: nat, interest: InterestIndex.MemoryInterestIndex?)
      ensures this.store == store && this.maxWebRTCPeers == maxWebRTCPeers && this.interest == interest
      ensures !draining && deltaSeq == 0
    {
      this.store, this.maxWebRTCPeers, this.interest, draining, deltaSeq := store, maxWebRTCPeers, interest, false, 0;
    }

    method SendOrClose(c: Connection, m: Message) returns (ok: bool)
      requires c.queues.Valid()
      modifies c.queues
      ensures GotReliable(c.queues, m)
      ensures ok == (old(c.queues.closed) || |old(c.queues.reliable)| < c.queues.maxReliable)
    {
      ok := c.queues.PushReliable(m);
      if !ok {
        c.queues.MarkClosedWith("reliable queue overflow");
      }
    }

    /** The reliable fan-out loop. */
    method SendAll(peers: seq<Connection>, m: Message)
      requires Separate(peers)
      requires forall i | 0 <= i < |peers| :: peers[i].queues.Valid()
      modifies set i | 0 <= i < |peers| :: peers[i].queues
      ensures forall i | 0 <= i < |peers| :: GotReliable(peers[i].queues, m)
    {
      for k := 0 to |peers|
        invariant forall i | 0 <= i < k :: GotReliable(peers[i].queues, m)
        invariant forall i | k <= i < |peers| :: unchanged(peers[i].queues) && peers[i].queues.Valid()
      {
        var ok := SendOrClose(peers[k], m);
      }
    }

    method Wanted(id: string, m: Message) returns (wanted: bool)
      requires interest != null ==> interest.Valid()
      ensures wanted == Eligible(ReportOf(id), m)
    {
      hide Grid.Wants, Grid.AllowsPreview;
      if interest == null {
        NoReportIsEligible(m);
        return true;
      }
      var inView := interest.Interested(id, LocationOf(m.fields));
      var allowed := interest.AllowsPreview(id, m.event);
      wanted := (IsLiveInk(m.event) || inView) && allowed;
    }

    method SendPreview(sender: string, q: OutboundQueues, m: Message)
      requires q.Valid()
      modifies this`deltaSeq, q
      ensures old(deltaSeq) <= deltaSeq
      ensures GotPreview(q, sender, m, old(deltaSeq), deltaSeq)
    {
      hide CoalesceKey, Push, Zip, Matches;
      if m.event == "ink.points" {
        deltaSeq := deltaSeq + 1;
      }
      var key := CoalesceKey(sender, m, deltaSeq);
      q.PushEphemeral(m, key);
    }

    /** One peer of the preview fan-out. */
    method PreviewOne(sender: string, c: Connection, m: Message)
      requires c.queues.Valid() && (interest != null ==> interest.Valid())
      modifies this`deltaSeq, c.queues
      ensures old(deltaSeq) <= deltaSeq
      ensures if Eligible(ReportOf(c.id), m)
              then GotPreview(c.queues, sender, m, old(deltaSeq), deltaSeq)
              else unchanged(c.queues)
    {
      hide Eligible, CoalesceKey, Push, Zip, Matches;
      var wanted := Wanted(c.id, m);
      if wanted {
        SendPreview(sender, c.queues, m);
      }
    }

    /** The preview fan-out loop: each eligible peer's keyed queue, the others untouched. */
    method PreviewAll(sender: string, peers: seq<Connection>, m: Message)
      requires Separate(peers)
      requires forall i | 0 <= i < |peers| :: peers[i].queues.Valid()
      requires interest != null ==> interest.Valid()
      modifies this`deltaSeq, set i | 0 <= i < |peers| :: peers[i].queues
      ensures old(deltaSeq) <= deltaSeq
      ensures forall i | 0 <= i < |peers| ::
                if Eligible(ReportOf(peers[i].id), m)
                then GotPreview(peers[i].queues, sender, m, old(deltaSeq), deltaSeq)
                else unchanged(peers[i].queues)
    {
      hide Eligible, CoalesceKey, Push, Zip, Matches;
      for k := 0 to |peers|
        invariant old(deltaSeq) <= deltaSeq
        invariant forall i | 0 <= i < k ::
                    if Eligible(ReportOf(peers[i].id), m)
                    then GotPreview(peers[i].queues, sender, m, old(deltaSeq), deltaSeq)
                    else unchanged(peers[i].queues)
        invariant forall i | k <= i < |peers| :: unchanged(peers[i].queues) && peers[i].queues.Valid()
      {
        PreviewOne(sender, peers[k], m);
      }
    }

    ghost function PeerQueues(note: string, except: string): set<OutboundQueues>
      reads store
    {
      set c | c in store.PeerSet(note, except) :: c.queues
    }

    /** The peers of a note, in some order, with queues that do not overlap. */
    method PeersOf(note: string, except: string) returns (peers: seq<Connection>)
      requires Valid()
      ensures forall c :: c in peers <==> c in store.PeerSet(note, except)
      ensures Separate(peers)
      ensures forall i | 0 <= i < |peers| :: peers[i].queues.Valid()
      ensures (set i | 0 <= i < |peers| :: peers[i].queues) == PeerQueues(note, except)
    {
      hide WellFormed, Matches;
      peers := store.Peers(note, except);
      forall i | 0 <= i < |peers| ensures peers[i] in Members() {
        assert peers[i] in store.PeerSet(note, except);
      }
      forall q | q in PeerQueues(note, except) ensures q in set i | 0 <= i < |peers| :: peers[i].queues {
        var c :| c in store.PeerSet(note, except) && c.queues == q;
        assert c in peers;
      }
    }

    /** The peer, if any, that a signalling frame is for: named, not the sender, and in the sender's own room. */
    ghost predicate Signalled(note: string, c: Connection, m: Message)
      reads store
    {
      |store.RoomOf(note)| <= maxWebRTCPeers && m.fields.target != "" && m.fields.target == c.id
    }

    /** The named peer's queue takes a frame, or is closed and ignores it. */
    ghost predicate PeerAccepts(note: string, target: string)
      reads store, if target in store.RoomOf(note) then {store.RoomOf(note)[target].queues} else {}
    {
      target in store.RoomOf(note) &&
      var q := store.RoomOf(note)[target].queues;
      q.closed || |q.reliable| < q.maxReliable
    }

    ghost function SignalingAnswer(room: Room, sender: string, target: string, accepted: bool): Option<Rejection> {
      if |room| > maxWebRTCPeers then Some(RoomTooLarge)
      else if target == "" then Some(NoTarget)
      else if target == sender then Some(SelfTarget)
      else if !accepted then Some(TargetAbsent)
      else None
    }

    method RelayToPeer(sender: Connection, m: Message) returns (rejection: Option<Rejection>)
      requires Valid()
      modifies PeerQueues(sender.noteId, sender.id)
      ensures Valid()
      ensures forall c | c in store.PeerSet(sender.noteId, sender.id) ::
                if Signalled(sender.noteId, c, m) then GotReliable(c.queues, m) else unchanged(c.queues)
      ensures rejection == SignalingAnswer(old(store.RoomOf(sender.noteId)), sender.id, m.fields.target,
                                           old(PeerAccepts(sender.noteId, m.fields.target)))
    {
      hide Matches, WellFormed;
      var room: Room := if sender.noteId in store.rooms then store.rooms[sender.noteId] else map[];
      if |room| > maxWebRTCPeers {
        return Some(RoomTooLarge);
      }
      var target := m.fields.target;
      if target == "" {
        return Some(NoTarget);
      }
      if target == sender.id {
        NotAPeer(store.rooms, sender.noteId, target);
        return Some(SelfTarget);
      }
      var peer := store.ConnectionByID(sender.noteId, target);
      if peer.None? {
        NotInRoom(store.rooms, sender.noteId, target);
        return Some(TargetAbsent);
      }
      PeerFound(store.rooms, sender.noteId, sender.id, target);
      assert peer.value in Members();
      var ok := SendOrClose(peer.value, m);
      if !ok {
        return Some(TargetAbsent);
      }
      rejection := None;
    }

    /** One relayed message: exactly what every peer in the sender's room gets, class by class. */
    method Relay(sender: Connection, m: Message)
      requires Valid()
      modifies this`deltaSeq, PeerQueues(sender.noteId, sender.id)
      ensures Valid()
      ensures draining ==> deltaSeq == old(deltaSeq)
      ensures draining ==> forall c | c in store.PeerSet(sender.noteId, sender.id) :: unchanged(c.queues)
      // Negotiation reaches the peer it names and nobody else, and nobody above the ceiling.
      ensures !draining && m.event in {"rtc.offer", "rtc.answer", "rtc.candidate"} ==>
                forall c | c in store.PeerSet(sender.noteId, sender.id) ::
                  if |store.RoomOf(sender.noteId)| <= maxWebRTCPeers && m.fields.target != "" && m.fields.target == c.id
                  then GotReliable(c.queues, m)
                  else unchanged(c.queues)
      // A preview is queued for those it is meant for; it never touches a reliable queue.
      ensures !draining && m.event in {"cursor.moved", "laser.moved", "ink.started", "ink.points",
                                       "block.transform.preview", "selection.transform.preview"} ==>
                forall c | c in store.PeerSet(sender.noteId, sender.id) ::
                  && c.queues.reliable == old(c.queues.reliable) && c.queues.closed == old(c.queues.closed)
                  && if Eligible(ReportOf(c.id), m)
                     then GotPreview(c.queues, sender.id, m, old(deltaSeq), deltaSeq)
                     else unchanged(c.queues)
      // Everything else, known or not, goes to every peer's reliable queue or closes the peer.
      ensures !draining && m.event !in {"rtc.offer", "rtc.answer", "rtc.candidate", "cursor.moved", "laser.moved",
                                        "ink.started", "ink.points", "block.transform.preview",
                                        "selection.transform.preview"} ==>
                forall c | c in store.PeerSet(sender.noteId, sender.id) :: GotReliable(c.queues, m)
    {
      hide ClassifyEvent, Eligible, CoalesceKey, Push, Zip, Matches, WellFormed;
      if draining {
        return;
      }
      ClassesByName(m.event);
      var kind := ClassifyEvent(m.event);
      if kind == Signaling {
        var rejection := RelayToPeer(sender, m);
      } else {
        FanOut(sender, m, kind);
      }
    }

    /** The fan-out half of a relay. */
    method FanOut(sender: Connection, m: Message, kind: EventClass)
      requires Valid()
      modifies this`deltaSeq, PeerQueues(sender.noteId, sender.id)
      ensures Valid() && old(deltaSeq) <= deltaSeq
      ensures forall c | c in store.PeerSet(sender.noteId, sender.id) ::
                if kind != Ephemeral then GotReliable(c.queues, m)
                else if Eligible(ReportOf(c.id), m)
                then GotPreview(c.queues, sender.id, m, old(deltaSeq), deltaSeq)
                else unchanged(c.queues)
    {
      hide Eligible, CoalesceKey, Push, Zip, Matches, WellFormed;
      var peers := PeersOf(sender.noteId, sender.id);
      if kind == Ephemeral {
        PreviewAll(sender.id, peers, m);
      } else {
        SendAll(peers, m);
      }
      forall c | c in store.PeerSet(sender.noteId, sender.id) ensures exists i :: 0 <= i < |peers| && peers[i] == c {
        assert c in peers;
      }
      forall c | c in Members() ensures c.queues.Valid() {
        if c.queues in PeerQueues(sender.noteId, sender.id) {
          var i :| 0 <= i < |peers| && peers[i].queues == c.queues;
        }
      }
    }

    /** A server-made event for everyone in a room but one. */
    method BroadcastReliable(note: string, except: string, m: Message)
      requires Valid()
      modifies PeerQueues(note, except)
      ensures Valid()
      ensures forall c | c in store.PeerSet(note, except) :: GotReliable(c.queues, m)
    {
      hide Matches, WellFormed;
      var peers := PeersOf(note, except);
      SendAll(peers, m);
      forall c | c in store.PeerSet(note, except) ensures exists i :: 0 <= i < |peers| && peers[i] == c {
        assert c in peers;
      }
      forall c | c in Members() ensures c.queues.Valid() {
        if c.queues in PeerQueues(note, except) {
          var i :| 0 <= i < |peers| && peers[i].queues == c.queues;
        }
      }
    }

    method Notify(c: Connection, m: Message)
      requires c.queues.Valid()
      modifies c.queues
      ensures GotReliable(c.queues, m)
    {
      var ok := SendOrClose(c, m);
    }
  }

  lemma NotAPeer(rooms: Rooms, note: string, id: string)
    requires WellFormed(rooms)
    ensures forall c | c in (RoomIn(rooms, note) - {id}).Values :: c.id != id
  {
  }

  lemma NotInRoom(rooms: Rooms, note: string, id: string)
    requires WellFormed(rooms) && id !in RoomIn(rooms, note)
    ensures forall c | c in RoomIn(rooms, note).Values :: c.id != id
  {
  }

  lemma PeerFound(rooms: Rooms, note: string, sender: string, target: string)
    requires WellFormed(rooms) && target in RoomIn(rooms, note) && target != sender
    ensures var c := RoomIn(rooms, note)[target];
            && c in (RoomIn(rooms, note) - {sender}).Values && c.id == target
            && forall d | d in (RoomIn(rooms, note) - {sender}).Values && d.id == target :: d == c
  {
    assert target in RoomIn(rooms, note) - {sender};
  }

  /**
    Who sees a preview, from the recipient's own report.  A preference switches off its own
    events only.  Live ink is not filtered by place.  Any other preview must name the reported
    page or none; one with a point must be near the viewport, and a viewport without an area
    sees no point.
   */
  lemma WhoSeesAPreview(i: Grid.Interest, m: Message)
    ensures Eligible(None, m)
    ensures var f := m.fields;
            var wanted := i.preview.Some? ==>
                            && (m.event == "cursor.moved" ==> i.preview.value.cursor)
                            && (m.event == "laser.moved" ==> i.preview.value.laser)
                            && (m.event == "block.transform.preview" ==> i.preview.value.transform)
                            && (m.event in {"ink.started", "ink.points", "ink.ended"} ==> i.preview.value.ink);
            var onPage := f.pageId == "" || f.pageId == i.pageId;
            && (!wanted ==> !Eligible(Some(i), m))
            && (wanted && m.event in {"ink.started", "ink.points"} ==> Eligible(Some(i), m))
            && (wanted && m.event !in {"ink.started", "ink.points"} ==>
                  && (!onPage ==> !Eligible(Some(i), m))
                  && (onPage && (f.x.None? || f.y.None?) ==> Eligible(Some(i), m))
                  && (onPage && f.x.Some? && f.y.Some? ==>
                        && (i.width <= 0.0 || i.height <= 0.0 ==> !Eligible(Some(i), m))
                        && (i.width > 0.0 && i.height > 0.0 ==>
                              && (Grid.WithinOf(i, f.x.value, f.y.value, 512.0) ==> Eligible(Some(i), m))
                              && (Eligible(Some(i), m) ==> Grid.CloserThan(i, f.x.value, f.y.value, 1536.0)))))
  {
    if i.width > 0.0 && i.height > 0.0 && (m.fields.pageId == "" || m.fields.pageId == i.pageId) {
      var location := LocationOf(m.fields);
      if location.hasPoint {
        Grid.FilterBounds(i, location);
      }
    }
    hide Grid.WithinOf, Grid.CloserThan, Grid.CellIndex, Grid.InSpan;
  }

  lemma NoReportIsEligible(m: Message)
    ensures Eligible(None, m)
  {
  }
}
