/** The two drains of the writer, over the queues of one connection. */
module WritePump {
  import opened Wrappers
  import opened Events
  import opened LatestWins
  import opened Queues

  const MAX_AGGREGATE_FRAMES := 64

  /** One write for a batch that fits an aggregate, else one for each frame of it. */
  function WritesFor(batch: seq<Message>, aggregates: bool, encodes: seq<Message> -> bool): nat {
    if |batch| > 1 && aggregates && encodes(batch) then 1 else |batch|
  }

  /** Batches of at most 64. */
  function WritesForAll(frames: seq<Message>, aggregates: bool, encodes: seq<Message> -> bool): nat {
    if |frames| <= 64 then WritesFor(frames, aggregates, encodes)
    else WritesFor(frames[..64], aggregates, encodes) + WritesForAll(frames[64..], aggregates, encodes)
  }

  lemma {:induction false} WithoutAggregates(frames: seq<Message>, encodes: seq<Message> -> bool)
    ensures WritesForAll(frames, false, encodes) == |frames|
    decreases |frames|
  {
    if |frames| > 64 {
      WithoutAggregates(frames[64..], encodes);
    }
  }

  /** When every batch encodes, a drain takes one write for each 64 frames or fewer. */
  lemma {:induction false} WithAggregates(frames: seq<Message>, encodes: seq<Message> -> bool)
    requires forall batch :: encodes(batch)
    ensures WritesForAll(frames, true, encodes) == (|frames| + 63) / 64
    decreases |frames|
  {
    if |frames| > 64 {
      WithAggregates(frames[64..], encodes);
    }
  }

  /**
    `writes` is how many more writes the socket will take before one fails, and
    `encodes` tells which batches fit one aggregate; both are the outside world's.
   */
  class Pump {
    const queues: OutboundQueues
    const encodes: seq<Message> -> bool
    var aggregates: bool
    var writes: nat
    var sent: seq<Message>

    constructor (queues: OutboundQueues, encodes: seq<Message> -> bool, aggregates: bool, writes: nat)
      ensures this.queues == queues && this.encodes == encodes
      ensures this.aggregates == aggregates && this.writes == writes && sent == []
    {
      this.queues, this.encodes, this.aggregates, this.writes, sent := queues, encodes, aggregates, writes, [];
    }

    /** One socket write carrying `frames`; a failed write closes the connection. */
    method Write(frames: seq<Message>) returns (ok: bool)
      requires queues.Valid()
      modifies this`writes, this`sent, queues`closed, queues`closeReason
      ensures queues.Valid()
      ensures ok == (old(writes) > 0)
      ensures ok ==> writes == old(writes) - 1 && sent == old(sent) + frames && queues.closed == old(queues.closed)
      ensures !ok ==> writes == 0 && sent == old(sent) && queues.closed
    {
      if writes == 0 {
        queues.MarkClosedWith("write failed");
        return false;
      }
      writes := writes - 1;
      sent := sent + frames;
      ok := true;
    }

    /** Writes the reliable queue in order until it is seen empty or a write fails. */
    method DrainReliable() returns (ok: bool)
      requires queues.Valid()
      modifies this`writes, this`sent, queues`reliable, queues`closed, queues`closeReason
      ensures queues.Valid()
      ensures ok == (|old(queues.reliable)| <= old(writes))
      ensures ok ==>
                && sent == old(sent) + old(queues.reliable) && queues.reliable == []
                && queues.closed == old(queues.closed)
      ensures !ok ==>
                && sent == old(sent) + old(queues.reliable)[..old(writes)]
                && queues.reliable == old(queues.reliable)[old(writes) + 1..] && queues.closed
    {
      ghost var all := queues.reliable;
      ghost var done := 0;
      while true
        invariant queues.Valid() && done <= |all| && done <= old(writes)
        invariant writes == old(writes) - done && queues.closed == old(queues.closed)
        invariant queues.reliable == all[done..] && sent == old(sent) + all[..done]
        decreases |queues.reliable|
      {
        var m := queues.TakeReliable();
        if m.None? {
          return true;
        }
        var written := Write([m.value]);
        if !written {
          return false;
        }
        assert all[..done + 1] == all[..done] + [m.value];
        done := done + 1;
      }
    }

    /** One batch: as an aggregate when the peer and the codec allow it, else frame by frame. */
    method WriteBatch(batch: seq<Message>) returns (ok: bool, ghost n: nat)
      requires queues.Valid()
      modifies this`writes, this`sent, queues`closed, queues`closeReason
      ensures queues.Valid()
      ensures n <= |batch| && sent == old(sent) + batch[..n]
      ensures ok == (WritesFor(batch, aggregates, encodes) <= old(writes))
      ensures ok ==> n == |batch| && queues.closed == old(queues.closed)
      ensures ok ==> writes == old(writes) - WritesFor(batch, aggregates, encodes)
      ensures !ok ==> queues.closed && writes == 0
      ensures !ok ==> n == if |batch| > 1 && aggregates && encodes(batch) then 0 else old(writes)
    {
      n := 0;
      if |batch| > 1 && aggregates && encodes(batch) {
        ok := Write(batch);
        n := if ok then |batch| else 0;
        assert batch[..|batch|] == batch;
        return;
      }
      for i := 0 to |batch|
        invariant queues.Valid() && n == i && sent == old(sent) + batch[..i] && i <= old(writes)
        invariant writes == old(writes) - i
        invariant queues.closed == old(queues.closed)
      {
        ok := Write([batch[i]]);
        if !ok {
          return;
        }
        assert batch[..i + 1] == batch[..i] + [batch[i]];
        n := i + 1;
      }
      ok := true;
    }

    /** Sends the queued previews in queue order, batch by batch, until none is left or a write fails. */
    method DrainEphemeral() returns (ok: bool)
      requires queues.Valid()
      modifies this`writes, this`sent, queues`ephemeral, queues`ephemeralOrder, queues`closed, queues`closeReason
      ensures queues.Valid()
      ensures ok == (WritesForAll(Items(old(queues.Contents())), aggregates, encodes) <= old(writes))
      ensures ok ==> sent == old(sent) + Items(old(queues.Contents())) && queues.Contents() == []
      ensures ok ==> queues.closed == old(queues.closed)
      ensures ok ==> writes == old(writes) - WritesForAll(Items(old(queues.Contents())), aggregates, encodes)
      ensures !ok ==> queues.closed && old(sent) <= sent <= old(sent) + Items(old(queues.Contents()))
    {
      hide Matches, Zip, TakeMany, Items, Outgoing, WritesFor, WritesForAll;
      ghost var all := sent + Items(queues.Contents());
      ghost var needed := WritesForAll(Items(queues.Contents()), aggregates, encodes);
      OutgoingStarts(sent, queues.Contents());
      while true
        invariant queues.Valid() && queues.closed == old(queues.closed)
        invariant needed - WritesForAll(Items(queues.Contents()), aggregates, encodes) == old(writes) - writes
        invariant Outgoing(all, old(sent), sent, queues.Contents())
        decreases |queues.Contents()|
      {
        ghost var before := queues.Contents();
        var batch := queues.TakeEphemeralBatch(MAX_AGGREGATE_FRAMES);
        OutgoingTake(all, old(sent), sent, before, batch, queues.Contents());
        WritesForNext(before, batch, queues.Contents(), aggregates, encodes);
        if |batch| == 0 {
          return true;
        }
        var written, n := WriteBatch(batch);
        if !written {
          return false;
        }
        assert batch[..n] == batch;
      }
    }
  }

  /** `sent` began as `first`, and with what is still queued it will be `all`. */
  ghost predicate Outgoing(all: seq<Message>, first: seq<Message>, sent: seq<Message>, queued: Slots<Message>) {
    first <= sent && sent + Items(queued) == all
  }

  lemma OutgoingStarts(sent: seq<Message>, queued: Slots<Message>)
    ensures Outgoing(sent + Items(queued), sent, sent, queued)
  {
  }

  lemma OutgoingTake(all: seq<Message>, first: seq<Message>, sent: seq<Message>, queued: Slots<Message>,
                     batch: seq<Message>, left: Slots<Message>)
    requires Outgoing(all, first, sent, queued)
    requires (batch, left) == TakeMany(queued, MAX_AGGREGATE_FRAMES)
    ensures batch == [] ==> sent == all && left == []
    ensures batch != [] ==> |left| < |queued|
    ensures Outgoing(all, first, sent + batch, left)
    ensures forall n | 0 <= n <= |batch| :: first <= sent + batch[..n] <= all
  {
    TakeManyIsPrefix(queued, MAX_AGGREGATE_FRAMES);
    hide TakeMany, Items;
    var m := if MAX_AGGREGATE_FRAMES < |queued| then MAX_AGGREGATE_FRAMES else |queued|;
    ItemsSplit(queued, m);
    PrefixesOfWhole(sent, batch, Items(left));
    forall n | 0 <= n <= |batch| ensures first <= sent + batch[..n] <= all {
      PrefixOfAppended(first, sent, batch[..n]);
    }
    PrefixOfAppended(first, sent, batch);
  }

  lemma WritesForNext(queued: Slots<Message>, batch: seq<Message>, left: Slots<Message>,
                      aggregates: bool, encodes: seq<Message> -> bool)
    requires (batch, left) == TakeMany(queued, MAX_AGGREGATE_FRAMES)
    ensures WritesForAll(Items(queued), aggregates, encodes)
         == WritesFor(batch, aggregates, encodes) + WritesForAll(Items(left), aggregates, encodes)
    ensures batch == [] ==> WritesForAll(Items(queued), aggregates, encodes) == 0
  {
    TakeManyIsPrefix(queued, MAX_AGGREGATE_FRAMES);
    hide TakeMany, Items;
    if |queued| <= MAX_AGGREGATE_FRAMES {
      assert queued[..|queued|] == queued;
    } else {
      ItemsSplit(queued, MAX_AGGREGATE_FRAMES);
      assert Items(queued)[..64] == batch && Items(queued)[64..] == Items(left);
    }
  }

  lemma ItemsSplit(q: Slots<Message>, m: nat)
    requires m <= |q|
    ensures Items(q) == Items(q[..m]) + Items(q[m..])
  {
  }

  lemma PrefixesOfWhole(a: seq<Message>, b: seq<Message>, c: seq<Message>)
    ensures a + (b + c) == (a + b) + c
    ensures forall n | 0 <= n <= |b| :: a + b[..n] <= a + (b + c)
    ensures b == [] ==> a + b == a
  {
    forall n | 0 <= n <= |b| ensures a + b[..n] <= a + (b + c) {
      assert a + b[..n] == (a + (b + c))[..|a| + n];
    }
  }

  lemma PrefixOfAppended(first: seq<Message>, a: seq<Message>, b: seq<Message>)
    requires first <= a
    ensures first <= a + b
  {
  }
}
