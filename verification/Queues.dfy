/** The part of an envelope that routing and queueing read, and how an event is delivered. */
module Events {
  import opened Wrappers

  /** The payload fields the server looks at; an absent string field reads as empty. */
  datatype Fields = Fields(strokeId: string, blockId: string, pageId: string, target: string,
                           x: Option<real>, y: Option<real>)

  datatype Message = Message(messageId: string, event: string, fields: Fields)

  datatype EventClass = Ephemeral | Reliable | Signaling | Durable

  const EPHEMERAL_EVENTS: set<string> := {
    "cursor.moved", "laser.moved", "ink.started", "ink.points",
    "block.transform.preview", "selection.transform.preview"
  }

  const SIGNALING_EVENTS: set<string> := {"rtc.offer", "rtc.answer", "rtc.candidate"}

  const RELIABLE_EVENTS: set<string> := {
    "ink.commit", "ink.patch", "history.preview", "history.preview.cancel", "history.preview.confirmed",
    "ink.ended", "block.transform.commit", "block.lock.request", "block.lock.renew", "block.lock.release",
    "block.created", "block.status", "auth.refresh", "heartbeat", "server.draining", "interest.update",
    "yjs.update", "selection.lock"
  }

  predicate IsDurable(event: string) {
    || "note." <= event || "collection." <= event || "media." <= event || "session.changed" <= event
    || "block.received" <= event || "block.broadcast" <= event
    || "presence." <= event || event == "room.members"
  }

  function ClassifyEvent(event: string): EventClass {
    if event in EPHEMERAL_EVENTS then Ephemeral
    else if event in SIGNALING_EVENTS then Signaling
    else if event in RELIABLE_EVENTS then Reliable
    else if IsDurable(event) then Durable
    else Reliable
  }

  /** Whether an event begins with this, letter by letter. */
  predicate StartsWith(event: string, prefix: string) {
    |prefix| <= |event| && event[..|prefix|] == prefix
  }

  /** The classes by name; an event nobody knows is delivered reliably. */
  lemma ClassesByName(event: string)
    ensures ClassifyEvent(event) == Ephemeral <==>
              || event == "cursor.moved" || event == "laser.moved" || event == "ink.started" || event == "ink.points"
              || event == "block.transform.preview" || event == "selection.transform.preview"
    ensures ClassifyEvent(event) == Signaling <==>
              event == "rtc.offer" || event == "rtc.answer" || event == "rtc.candidate"
    ensures ClassifyEvent(event) == Durable <==>
              || StartsWith(event, "note.") || StartsWith(event, "collection.") || StartsWith(event, "media.")
              || StartsWith(event, "session.changed") || StartsWith(event, "block.received")
              || StartsWith(event, "block.broadcast") || StartsWith(event, "presence.") || event == "room.members"
  {
    DurableByPrefix(event);
    hide IsDurable, StartsWith;
    if event in EPHEMERAL_EVENTS || event in SIGNALING_EVENTS || event in RELIABLE_EVENTS {
      KnownEventIsNotDurable(event);
    }
  }

  lemma DurableByPrefix(event: string)
    ensures IsDurable(event) <==>
              || StartsWith(event, "note.") || StartsWith(event, "collection.") || StartsWith(event, "media.")
              || StartsWith(event, "session.changed") || StartsWith(event, "block.received")
              || StartsWith(event, "block.broadcast") || StartsWith(event, "presence.") || event == "room.members"
  {
    PrefixIsStart(event, "note.");
    PrefixIsStart(event, "collection.");
    PrefixIsStart(event, "media.");
    PrefixIsStart(event, "session.changed");
    PrefixIsStart(event, "block.received");
    PrefixIsStart(event, "block.broadcast");
    PrefixIsStart(event, "presence.");
  }

  lemma PrefixIsStart(event: string, prefix: string)
    ensures prefix <= event <==> StartsWith(event, prefix)
  {
  }

  /** The few letters that tell the durable names from all the others. */
  lemma DurableLetters(event: string)
    requires IsDurable(event)
    ensures |event| > 4
    ensures || event[0] in "nmp"
            || (event[0] == 'c' && event[1] == 'o') || (event[0] == 'r' && event[1] == 'o')
            || (event[0] == 's' && event[2] == 's') || (|event| > 6 && event[0] == 'b' && event[6] in "rb")
  {
    DurableByPrefix(event);
    hide IsDurable;
  }

  lemma KnownEventIsNotDurable(event: string)
    requires event in EPHEMERAL_EVENTS || event in SIGNALING_EVENTS || event in RELIABLE_EVENTS
    ensures !IsDurable(event)
  {
    hide IsDurable;
    if IsDurable(event) {
      DurableLetters(event);
      assert false;
    }
  }
}

/** The bounded latest-wins list that the ephemeral queue stands for. */
module LatestWins {
  datatype Slot<E> = Slot(key: string, item: E)

  type Slots<E> = seq<Slot<E>>

  predicate Distinct<E>(q: Slots<E>) {
    forall i, j | 0 <= i < j < |q| :: q[i].key != q[j].key
  }

  /** A key that is queued keeps its place and takes the new item; another goes to the end. */
  function Put<E>(q: Slots<E>, key: string, item: E): (r: Slots<E>)
    ensures |q| <= |r| <= |q| + 1
  {
    if q == [] then [Slot(key, item)]
    else if q[0].key == key then [Slot(key, item)] + q[1..]
    else [q[0]] + Put(q[1..], key, item)
  }

  function Superseded<E>(q: Slots<E>, key: string): seq<E> {
    if q == [] then []
    else if q[0].key == key then [q[0].item]
    else Superseded(q[1..], key)
  }

  /** How many of the oldest slots a queue of this length must shed. */
  function Excess(length: nat, limit: nat): nat {
    if length > limit then length - limit else 0
  }

  function Items<E>(q: Slots<E>): (items: seq<E>)
    ensures |items| == |q|
    ensures forall i | 0 <= i < |q| :: items[i] == q[i].item
  {
    seq(|q|, i requires 0 <= i < |q| => q[i].item)
  }

  function Shed<E>(q: Slots<E>, key: string, item: E, limit: nat): seq<E> {
    var r := Put(q, key, item);
    Items(r[..Excess(|r|, limit)])
  }

  function Push<E>(q: Slots<E>, key: string, item: E, limit: nat): (r: Slots<E>)
    ensures |r| <= limit
  {
    var r := Put(q, key, item);
    r[Excess(|r|, limit)..]
  }

  /** One take after another, at most `n` of them. */
  function TakeMany<E>(q: Slots<E>, n: nat): (seq<E>, Slots<E>) {
    if n == 0 || q == [] then ([], q)
    else
      var (items, rest) := TakeMany(q[1..], n - 1);
      ([q[0].item] + items, rest)
  }

  lemma {:induction false} TakeManyIsPrefix<E>(q: Slots<E>, n: nat)
    ensures var m := if n < |q| then n else |q|;
            TakeMany(q, n) == (Items(q[..m]), q[m..])
  {
    var m := if n < |q| then n else |q|;
    if n > 0 && q != [] {
      TakeManyIsPrefix(q[1..], n - 1);
      assert q[1..][..m - 1] == q[..m][1..];
      assert Items(q[..m]) == [q[0].item] + Items(q[1..][..m - 1]);
      assert q[1..][m - 1..] == q[m..];
    } else {
      assert q[m..] == q;
    }
  }

  lemma {:induction false} PutAtPlace<E>(q: Slots<E>, key: string, item: E, i: nat)
    requires Distinct(q) && i < |q| && q[i].key == key
    ensures Put(q, key, item) == q[i := Slot(key, item)]
    ensures Superseded(q, key) == [q[i].item]
  {
    if q[0].key != key {
      PutAtPlace(q[1..], key, item, i - 1);
      assert q[i := Slot(key, item)] == [q[0]] + q[1..][i - 1 := Slot(key, item)];
    } else {
      assert i == 0;
      assert q[0 := Slot(key, item)] == [Slot(key, item)] + q[1..];
    }
  }

  lemma {:induction false} PutAtEnd<E>(q: Slots<E>, key: string, item: E)
    requires forall i | 0 <= i < |q| :: q[i].key != key
    ensures Put(q, key, item) == q + [Slot(key, item)]
    ensures Superseded(q, key) == []
  {
    if q != [] {
      PutAtEnd(q[1..], key, item);
      assert q + [Slot(key, item)] == [q[0]] + (q[1..] + [Slot(key, item)]);
    }
  }

  /** Where a key is queued, if it is. */
  lemma FindKey<E>(q: Slots<E>, key: string) returns (i: nat)
    ensures i <= |q|
    ensures i < |q| ==> q[i].key == key
    ensures i == |q| ==> forall j | 0 <= j < |q| :: q[j].key != key
  {
    i := 0;
    while i < |q| && q[i].key != key
      invariant i <= |q| && forall j | 0 <= j < i :: q[j].key != key
    {
      i := i + 1;
    }
  }

  /** In the list before shedding: every stream where it was, a new one last. */
  lemma PutKeepsPlaces<E>(q: Slots<E>, key: string, item: E)
    requires Distinct(q)
    ensures var r := Put(q, key, item);
            && Distinct(r)
            && (forall i | 0 <= i < |q| :: r[i] == if q[i].key == key then Slot(key, item) else q[i])
            && (|r| > |q| ==> r[|q|] == Slot(key, item) && forall i | 0 <= i < |q| :: q[i].key != key)
            && (|r| == |q| ==> exists i :: 0 <= i < |q| && q[i].key == key)
  {
    hide Put, Superseded;
    var i := FindKey(q, key);
    if i < |q| {
      PutAtPlace(q, key, item, i);
    } else {
      PutAtEnd(q, key, item);
    }
  }

  /** No stream that stays queued loses its place to another, and no other stream's item changes. */
  lemma PushKeepsPlaces<E>(q: Slots<E>, key: string, item: E, limit: nat)
    requires Distinct(q)
    ensures var r := Push(q, key, item, limit);
            var cut := |Shed(q, key, item, limit)|;
            && Distinct(r)
            && (forall i | cut <= i < |q| ::
                  i - cut < |r| && r[i - cut] == if q[i].key == key then Slot(key, item) else q[i])
            && (forall i | 0 <= i < cut && i < |q| :: q[i].key != key ==> Shed(q, key, item, limit)[i] == q[i].item)
  {
    hide Put, Distinct;
    PutKeepsPlaces(q, key, item);
    var put := Put(q, key, item);
    DistinctSuffix(put, Excess(|put|, limit));
  }

  predicate IsQueued<E>(q: Slots<E>, key: string) {
    exists i | 0 <= i < |q| :: q[i].key == key
  }

  /**
    What a push does to a list within its limit.  A queued key keeps its place and takes the
    new item.  Another goes last: while there is room nothing is lost, and at the limit the
    oldest slot is, and no other.
   */
  ghost predicate PushedOnto<E>(before: Slots<E>, after: Slots<E>, key: string, item: E, limit: nat) {
    if IsQueued(before, key) then
      && |after| == |before|
      && forall i | 0 <= i < |before| :: after[i] == if before[i].key == key then Slot(key, item) else before[i]
    else if |before| < limit then after == before + [Slot(key, item)]
    else if limit > 0 then after == before[1..] + [Slot(key, item)]
    else after == []
  }

  /** What is lost: the item the key had, or at the limit the oldest, or with no room at all the new one. */
  ghost predicate LostBy<E>(before: Slots<E>, lost: seq<E>, key: string, item: E, limit: nat) {
    if IsQueued(before, key) then exists i | 0 <= i < |before| :: before[i].key == key && lost == [before[i].item]
    else if |before| < limit then lost == []
    else if limit > 0 then lost == [before[0].item]
    else lost == [item]
  }

  lemma PushIsExact<E>(q: Slots<E>, key: string, item: E, limit: nat)
    requires Distinct(q) && |q| <= limit
    ensures PushedOnto(q, Push(q, key, item, limit), key, item, limit)
    ensures LostBy(q, Superseded(q, key) + Shed(q, key, item, limit), key, item, limit)
    ensures Shed(q, key, item, limit) == [] || Superseded(q, key) == []
    ensures Shed(q, key, item, limit) == [] <==> IsQueued(q, key) || |q| < limit
  {
    hide Put, Superseded, Distinct;
    var i := FindKey(q, key);
    if i < |q| {
      PutAtPlace(q, key, item, i);
      PutKeepsPlaces(q, key, item);
      assert [q[i].item] + [] == [q[i].item];
    } else {
      PutAtEnd(q, key, item);
    }
  }

  /** With any room at all, the item just pushed is queued under its key. */
  lemma PushedIsQueued<E>(q: Slots<E>, key: string, item: E, limit: nat)
    requires Distinct(q) && |q| <= limit && limit > 0
    ensures Slot(key, item) in Push(q, key, item, limit)
    ensures |Push(q, key, item, limit)|
         == if IsQueued(q, key) then |q| else if |q| + 1 < limit then |q| + 1 else limit
  {
    PushIsExact(q, key, item, limit);
    hide Push, Distinct;
    var r := Push(q, key, item, limit);
    var i := FindKey(q, key);
    if i < |q| {
      assert r[i] == Slot(key, item);
    } else {
      assert r[|r| - 1] == Slot(key, item);
    }
  }

  lemma DistinctSuffix<E>(q: Slots<E>, cut: nat)
    requires cut <= |q| && Distinct(q)
    ensures Distinct(q[cut..])
  {
  }
}

/** The send-side buffers of one connection. */
module Queues {
  import opened Wrappers
  import opened Events
  import opened LatestWins

  predicate IsInk(m: Message) {
    "ink." <= m.event
  }

  function InkCount(ms: seq<Message>): nat {
    if ms == [] then 0 else InkCount(ms[..|ms| - 1]) + if IsInk(ms[|ms| - 1]) then 1 else 0
  }

  lemma {:induction false} InkCountConcat(a: seq<Message>, b: seq<Message>)
    ensures InkCount(a + b) == InkCount(a) + InkCount(b)
  {
    if b == [] {
      assert a + b == a;
    } else {
      var n := |b| - 1;
      InkCountConcat(a, b[..n]);
      assert (a + b)[..|a + b| - 1] == a + b[..n];
    }
  }

  // The ephemeral queue is a map of frames beside the order of its keys.

  ghost predicate Matches(order: seq<string>, frames: map<string, Message>) {
    && (forall i, j | 0 <= i < j < |order| :: order[i] != order[j])
    && (forall k :: k in order <==> k in frames)
  }

  ghost function Zip(order: seq<string>, frames: map<string, Message>): (q: Slots<Message>)
    requires Matches(order, frames)
    ensures |q| == |order|
  {
    seq(|order|, i requires 0 <= i < |order| => Slot(order[i], frames[order[i]]))
  }

  lemma ZipPut(order: seq<string>, frames: map<string, Message>, key: string, m: Message)
    requires Matches(order, frames)
    ensures var order' := if key in frames then order else order + [key];
            && Matches(order', frames[key := m])
            && Zip(order', frames[key := m]) == Put(Zip(order, frames), key, m)
            && Superseded(Zip(order, frames), key) == if key in frames then [frames[key]] else []
  {
    hide Put, Superseded;
    var q := Zip(order, frames);
    if key in frames {
      var i :| 0 <= i < |order| && order[i] == key;
      PutAtPlace(q, key, m, i);
    } else {
      PutAtEnd(q, key, m);
    }
  }

  lemma ZipIsDistinct(order: seq<string>, frames: map<string, Message>)
    requires Matches(order, frames)
    ensures Distinct(Zip(order, frames))
  {
  }

  lemma ZipPop(order: seq<string>, frames: map<string, Message>)
    requires Matches(order, frames) && order != []
    ensures Matches(order[1..], frames - {order[0]})
    ensures order[0] in frames && Zip(order, frames)[0] == Slot(order[0], frames[order[0]])
    ensures Zip(order[1..], frames - {order[0]}) == Zip(order, frames)[1..]
  {
    forall k ensures k in order[1..] <==> k in frames - {order[0]} {
      if k in frames && k != order[0] {
        var i :| 0 <= i < |order| && order[i] == k;
        assert order[1..][i - 1] == k;
      }
    }
  }

  lemma ItemsOneMore(q: Slots<Message>, i: nat)
    requires i < |q|
    ensures Items(q[..i + 1]) == Items(q[..i]) + [q[i].item]
    ensures InkCount(Items(q[..i + 1])) == InkCount(Items(q[..i])) + if IsInk(q[i].item) then 1 else 0
    ensures q[i..][1..] == q[i + 1..] && q[i..][0] == q[i]
  {
    var items := Items(q[..i + 1]);
    assert items[..|items| - 1] == Items(q[..i]);
  }

  class OutboundQueues {
    var ephemeral: map<string, Message>
    var ephemeralOrder: seq<string>
    const maxEphemeral: nat
    var dropped: nat
    var droppedInk: nat

    var reliable: seq<Message>
    const maxReliable: nat
    var wake: bool

    var closed: bool
    var closeReason: string

    ghost predicate Valid()
      reads this
    {
      Matches(ephemeralOrder, ephemeral) && |ephemeralOrder| <= maxEphemeral && |reliable| <= maxReliable
    }

    /** The queued streams in order, each with its newest frame. */
    ghost function Contents(): (q: Slots<Message>)
      requires Matches(ephemeralOrder, ephemeral)
      reads this
    {
      Zip(ephemeralOrder, ephemeral)
    }

    constructor (ephemeralSize: nat, reliableSize: nat)
      ensures Valid() && Contents() == [] && reliable == [] && !wake && !closed
      ensures maxEphemeral == ephemeralSize && maxReliable == reliableSize && dropped == droppedInk == 0
    {
      ephemeral, ephemeralOrder, maxEphemeral := map[], [], ephemeralSize;
      dropped, droppedInk := 0, 0;
      reliable, maxReliable, wake := [], reliableSize, false;
      closed, closeReason := false, "";
    }

    /** Only the first reason is kept. */
    method MarkClosedWith(reason: string)
      requires Valid()
      modifies this`closed, this`closeReason
      ensures Valid() && closed
      ensures closeReason == if old(closed) then old(closeReason) else reason
    {
      if !closed {
        closeReason := reason;
        closed := true;
      }
    }

    method Signal()
      modifies this`wake
      ensures wake
    {
      wake := true;
    }

    method PushReliable(m: Message) returns (ok: bool)
      requires Valid()
      modifies this`reliable, this`wake
      ensures Valid()
      ensures ok == (closed || |old(reliable)| < maxReliable)
      ensures reliable == if !closed && ok then old(reliable) + [m] else old(reliable)
      ensures wake == (old(wake) || (!closed && ok))
    {
      if closed {
        return true;
      }
      if |reliable| < maxReliable {
        reliable := reliable + [m];
        Signal();
        return true;
      }
      ok := false;
    }

    method TakeReliable() returns (m: Option<Message>)
      requires Valid()
      modifies this`reliable
      ensures Valid()
      ensures if old(reliable) == [] then m.None? && reliable == []
              else m == Some(old(reliable)[0]) && reliable == old(reliable)[1..]
    {
      if reliable == [] {
        return None;
      }
      m := Some(reliable[0]);
      reliable := reliable[1..];
    }

    method CountDrop(m: Message)
      modifies this`dropped, this`droppedInk
      ensures dropped == old(dropped) + 1
      ensures droppedInk == old(droppedInk) + if IsInk(m) then 1 else 0
      ensures IsInk(m) <==> |m.event| >= 4 && m.event[..4] == "ink."
    {
      assert "ink." <= m.event <==> |m.event| >= 4 && m.event[..4] == "ink.";
      dropped := dropped + 1;
      if IsInk(m) {
        droppedInk := droppedInk + 1;
      }
    }

    /** What a push discards: the frame it replaces, then what the limit sheds. */
    static function Discarded(q: Slots<Message>, key: string, m: Message, limit: nat): seq<Message> {
      Superseded(q, key) + Shed(q, key, m, limit)
    }

    method PushEphemeral(m: Message, key: string)
      requires Valid()
      modifies this`ephemeral, this`ephemeralOrder, this`dropped, this`droppedInk
      ensures Valid()
      ensures closed ==> Contents() == old(Contents()) && dropped == old(dropped) && droppedInk == old(droppedInk)
      ensures !closed ==>
                && Contents() == Push(old(Contents()), key, m, maxEphemeral)
                && var discarded := Discarded(old(Contents()), key, m, maxEphemeral);
                && dropped == old(dropped) + |discarded|
                && droppedInk == old(droppedInk) + InkCount(discarded)
                && LostBy(old(Contents()), discarded, key, m, maxEphemeral)
      ensures !closed ==> PushedOnto(old(Contents()), Contents(), key, m, maxEphemeral)
    {
      hide Matches, Zip, Put, Superseded, InkCount, IsInk, PushedOnto, LostBy;
      if closed {
        return;
      }
      ghost var before := Contents();
      ZipIsDistinct(ephemeralOrder, ephemeral);
      PushIsExact(before, key, m, maxEphemeral);
      ZipPut(ephemeralOrder, ephemeral, key, m);
      InkCountSmall();
      if key in ephemeral {
        CountDrop(ephemeral[key]);
      } else {
        ephemeralOrder := ephemeralOrder + [key];
      }
      ephemeral := ephemeral[key := m];
      assert droppedInk == old(droppedInk) + InkCount(Superseded(before, key));
      ShedLocked();
      InkCountConcat(Superseded(before, key), Shed(before, key, m, maxEphemeral));
    }

    /** The shedding loop of a push. */
    method ShedLocked()
      requires Matches(ephemeralOrder, ephemeral)
      modifies this`ephemeral, this`ephemeralOrder, this`dropped, this`droppedInk
      ensures Matches(ephemeralOrder, ephemeral) && |ephemeralOrder| <= maxEphemeral
      ensures var cut := Excess(|old(Contents())|, maxEphemeral);
              && Contents() == old(Contents())[cut..]
              && dropped == old(dropped) + cut
              && droppedInk == old(droppedInk) + InkCount(Items(old(Contents())[..cut]))
    {
      hide Matches, Zip, InkCount, IsInk;
      ghost var before := Contents();
      ghost var cut := 0;
      InkCountSmall();
      assert Items(before[..0]) == [];
      while |ephemeralOrder| > maxEphemeral
        invariant Matches(ephemeralOrder, ephemeral)
        invariant cut <= |before| && Contents() == before[cut..]
        invariant cut > 0 ==> |before| - cut >= maxEphemeral
        invariant dropped == old(dropped) + cut
        invariant droppedInk == old(droppedInk) + InkCount(Items(before[..cut]))
        decreases |ephemeralOrder|
      {
        ZipPop(ephemeralOrder, ephemeral);
        ItemsOneMore(before, cut);
        var oldest := ephemeralOrder[0];
        ephemeralOrder := ephemeralOrder[1..];
        CountDrop(ephemeral[oldest]);
        ephemeral := ephemeral - {oldest};
        cut := cut + 1;
      }
    }

    method TakeEphemeral() returns (m: Option<Message>)
      requires Valid()
      modifies this`ephemeral, this`ephemeralOrder
      ensures Valid()
      ensures if old(Contents()) == [] then m.None? && Contents() == []
              else m == Some(old(Contents())[0].item) && Contents() == old(Contents())[1..]
    {
      hide Matches, Zip;
      if |ephemeralOrder| == 0 {
        return None;
      }
      ZipPop(ephemeralOrder, ephemeral);
      var key := ephemeralOrder[0];
      ephemeralOrder := ephemeralOrder[1..];
      m := Some(ephemeral[key]);
      ephemeral := ephemeral - {key};
    }

    /** The same as taking one by one, up to `limit` times. */
    method TakeEphemeralBatch(limit: int) returns (batch: seq<Message>)
      requires Valid()
      modifies this`ephemeral, this`ephemeralOrder
      ensures Valid()
      ensures (batch, Contents()) == TakeMany(old(Contents()), if limit > 0 then limit else 0)
    {
      hide Matches, Zip, TakeMany;
      ghost var before := Contents();
      TakeManyIsPrefix(before, if limit > 0 then limit else 0);
      assert Items(before[..0]) == [];
      if limit <= 0 {
        return [];
      }
      var count := if limit < |ephemeralOrder| then limit else |ephemeralOrder|;
      if count == 0 {
        return [];
      }
      batch := [];
      for i := 0 to count
        invariant ephemeralOrder == old(ephemeralOrder)
        invariant Matches(ephemeralOrder[i..], ephemeral)
        invariant Zip(ephemeralOrder[i..], ephemeral) == before[i..]
        invariant batch == Items(before[..i])
      {
        ZipPop(ephemeralOrder[i..], ephemeral);
        ItemsOneMore(before, i);
        assert ephemeralOrder[i..][1..] == ephemeralOrder[i + 1..];
        var key := ephemeralOrder[i];
        batch := batch + [ephemeral[key]];
        ephemeral := ephemeral - {key};
      }
      ephemeralOrder := ephemeralOrder[count..];
    }
  }

  lemma InkCountSmall()
    ensures InkCount([]) == 0
    ensures forall m :: InkCount([m]) == if IsInk(m) then 1 else 0
  {
  }
}
