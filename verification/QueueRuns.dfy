/**
  The ephemeral queue over whole runs.

  A ledger follows each accepted push by its ordinal, so that "this frame" stays
  meaningful when equal frames are pushed twice.
 */
module QueueRuns {
  import opened Events
  import opened LatestWins
  import opened Queues

  datatype Op = PushOp(key: string, message: Message) | TakeOp | BatchOp(limit: int) | CloseOp

  datatype Ledger = Ledger(
    accepted: Slots<Message>, queued: Slots<nat>, taken: seq<nat>,
    superseded: seq<nat>, shed: seq<nat>, closed: bool)

  function Apply(l: Ledger, op: Op, limit: nat): Ledger {
    match op
    case PushOp(key, m) =>
      if l.closed then l
      else
        var o := |l.accepted|;
        l.(accepted := l.accepted + [Slot(key, m)],
           queued := Push(l.queued, key, o, limit),
           superseded := l.superseded + Superseded(l.queued, key),
           shed := l.shed + Shed(l.queued, key, o, limit))
    case TakeOp =>
      var (items, rest) := TakeMany(l.queued, 1);
      l.(queued := rest, taken := l.taken + items)
    case BatchOp(n) =>
      var (items, rest) := TakeMany(l.queued, if n > 0 then n else 0);
      l.(queued := rest, taken := l.taken + items)
    case CloseOp =>
      l.(closed := true)
  }

  function Run(ops: seq<Op>, limit: nat): Ledger {
    if ops == [] then Ledger([], [], [], [], [], false)
    else Apply(Run(ops[..|ops| - 1], limit), ops[|ops| - 1], limit)
  }

  // ---------------------------------------------- the ledger is the queue's own history

  predicate Known(q: Slots<nat>, accepted: Slots<Message>) {
    forall i | 0 <= i < |q| :: q[i].item < |accepted|
  }

  /** The queue that a connection holds when its ledger says `q`. */
  function Render(q: Slots<nat>, accepted: Slots<Message>): (r: Slots<Message>)
    requires Known(q, accepted)
    ensures |r| == |q|
    ensures forall i | 0 <= i < |q| :: r[i] == Slot(q[i].key, accepted[q[i].item].item)
  {
    seq(|q|, i requires 0 <= i < |q| => Slot(q[i].key, accepted[q[i].item].item))
  }

  lemma {:induction false} RenderPut(q: Slots<nat>, accepted: Slots<Message>, key: string, m: Message)
    requires Known(q, accepted)
    ensures var accepted' := accepted + [Slot(key, m)];
            var q' := Put(q, key, |accepted|);
            && Known(q', accepted')
            && Render(q', accepted') == Put(Render(q, accepted), key, m)
            && |Superseded(q, key)| == |Superseded(Render(q, accepted), key)|
  {
    var accepted' := accepted + [Slot(key, m)];
    var q', r := Put(q, key, |accepted|), Render(q, accepted);
    if q != [] {
      RenderPut(q[1..], accepted, key, m);
      assert r[1..] == Render(q[1..], accepted);
      if q[0].key == key {
        var placed: Slot<nat> := Slot(key, |accepted|);
        assert q' == [placed] + q[1..];
        assert Render(q', accepted') == [Slot(key, m)] + r[1..];
      } else {
        var tail := Put(q[1..], key, |accepted|);
        assert q' == [q[0]] + tail;
        assert Render(q', accepted') == [r[0]] + Render(tail, accepted');
      }
    }
  }

  /** One push on the ledger is one push on the queue it renders, with the same losses. */
  lemma PushRenders(l: Ledger, key: string, m: Message, limit: nat)
    requires Known(l.queued, l.accepted) && !l.closed
    ensures var after := Apply(l, PushOp(key, m), limit);
            && Known(after.queued, after.accepted)
            && Render(after.queued, after.accepted) == Push(Render(l.queued, l.accepted), key, m, limit)
            && |after.superseded| + |after.shed| - |l.superseded| - |l.shed|
               == |OutboundQueues.Discarded(Render(l.queued, l.accepted), key, m, limit)|
  {
    hide Put, Superseded;
    RenderPut(l.queued, l.accepted, key, m);
    var put := Put(l.queued, key, |l.accepted|);
    var accepted' := l.accepted + [Slot(key, m)];
    var cut := Excess(|put|, limit);
    assert Render(put[cut..], accepted') == Render(put, accepted')[cut..];
  }

  /** What the methods of the connection's own queue say, call after call. */
  datatype Queue = Queue(contents: Slots<Message>, dropped: nat, taken: seq<Message>, closed: bool)

  function ApplyToQueue(q: Queue, op: Op, limit: nat): Queue {
    match op
    case PushOp(key, m) =>
      if q.closed then q
      else q.(contents := Push(q.contents, key, m, limit),
              dropped := q.dropped + |OutboundQueues.Discarded(q.contents, key, m, limit)|)
    case TakeOp =>
      var (items, rest) := TakeMany(q.contents, 1);
      q.(contents := rest, taken := q.taken + items)
    case BatchOp(n) =>
      var (items, rest) := TakeMany(q.contents, if n > 0 then n else 0);
      q.(contents := rest, taken := q.taken + items)
    case CloseOp =>
      q.(closed := true)
  }

  function QueueAfter(ops: seq<Op>, limit: nat): Queue {
    if ops == [] then Queue([], 0, [], false)
    else ApplyToQueue(QueueAfter(ops[..|ops| - 1], limit), ops[|ops| - 1], limit)
  }

  predicate KnownTaken(l: Ledger) {
    forall i | 0 <= i < |l.taken| :: l.taken[i] < |l.accepted|
  }

  function RenderTaken(l: Ledger): seq<Message>
    requires KnownTaken(l)
  {
    seq(|l.taken|, i requires 0 <= i < |l.taken| => l.accepted[l.taken[i]].item)
  }

  ghost predicate Mirrors(q: Queue, l: Ledger) {
    && Known(l.queued, l.accepted) && KnownTaken(l)
    && q == Queue(Render(l.queued, l.accepted), |l.superseded| + |l.shed|, RenderTaken(l), l.closed)
  }

  lemma TakeMirrors(q: Queue, l: Ledger, n: nat)
    requires Mirrors(q, l)
    ensures var (items, rest) := TakeMany(l.queued, n);
            var (messages, left) := TakeMany(q.contents, n);
            Mirrors(q.(contents := left, taken := q.taken + messages), l.(queued := rest, taken := l.taken + items))
  {
    TakeManyIsPrefix(l.queued, n);
    TakeManyIsPrefix(q.contents, n);
    hide TakeMany;
    var m := if n < |l.queued| then n else |l.queued|;
    var after := l.(queued := l.queued[m..], taken := l.taken + Items(l.queued[..m]));
    assert Render(l.queued[m..], l.accepted) == q.contents[m..];
    assert RenderTaken(after) == q.taken + Items(q.contents[..m]);
  }

  /** The ledger tells the history of the very queue: same contents, same drop count, same frames out. */
  lemma {:induction false} LedgerMirrorsQueue(ops: seq<Op>, limit: nat)
    ensures Mirrors(QueueAfter(ops, limit), Run(ops, limit))
    decreases |ops|
  {
    if ops != [] {
      var l, op := Run(ops[..|ops| - 1], limit), ops[|ops| - 1];
      var q := QueueAfter(ops[..|ops| - 1], limit);
      LedgerMirrorsQueue(ops[..|ops| - 1], limit);
      match op
      case PushOp(key, m) =>
        if !l.closed {
          PushRenders(l, key, m, limit);
          assert RenderTaken(Run(ops, limit)) == RenderTaken(l);
        }
      case TakeOp => TakeMirrors(q, l, 1);
      case BatchOp(n) => TakeMirrors(q, l, if n > 0 then n else 0);
      case CloseOp =>
        assert RenderTaken(l.(closed := true)) == RenderTaken(l);
    }
  }

  // ------------------------------------------------------------------- conservation

  function UpTo(n: nat): (s: seq<nat>)
    ensures |s| == n && forall i | 0 <= i < n :: s[i] == i
  {
    seq(n, i => i)
  }

  /** Each accepted push is in exactly one place: taken, superseded, shed or still queued. */
  ghost predicate Conserved(l: Ledger) {
    multiset(l.taken) + multiset(l.superseded) + multiset(l.shed) + multiset(Items(l.queued))
    == multiset(UpTo(|l.accepted|))
  }

  /** Each queued key holds its newest push. */
  ghost predicate Newest(l: Ledger) {
    forall i | 0 <= i < |l.queued| ::
      && l.queued[i].item < |l.accepted|
      && l.accepted[l.queued[i].item].key == l.queued[i].key
      && forall o | l.queued[i].item < o < |l.accepted| :: l.accepted[o].key != l.queued[i].key
  }

  /** A push was superseded only by a newer one of its own stream. */
  ghost predicate OnlyByNewer(l: Ledger) {
    forall i | 0 <= i < |l.superseded| ::
      && l.superseded[i] < |l.accepted|
      && exists o :: l.superseded[i] < o < |l.accepted| && l.accepted[o].key == l.accepted[l.superseded[i]].key
  }

  ghost predicate Sound(l: Ledger, limit: nat) {
    Distinct(l.queued) && |l.queued| <= limit && Conserved(l) && Newest(l) && OnlyByNewer(l)
  }

  lemma ItemsConcat<E>(a: Slots<E>, b: Slots<E>)
    ensures Items(a + b) == Items(a) + Items(b)
  {
  }

  lemma PutMultiset(q: Slots<nat>, key: string, o: nat)
    requires Distinct(q)
    ensures multiset(Superseded(q, key)) + multiset(Items(Put(q, key, o))) == multiset(Items(q)) + multiset{o}
  {
    hide Put, Superseded, Distinct;
    var i := FindKey(q, key);
    if i < |q| {
      PutAtPlace(q, key, o, i);
      assert Items(q[i := Slot(key, o)]) == Items(q)[i := o];
    } else {
      PutAtEnd(q, key, o);
      assert Items(q + [Slot(key, o)]) == Items(q) + [o];
    }
  }

  lemma SplitItems<E>(q: Slots<E>, cut: nat)
    requires cut <= |q|
    ensures multiset(Items(q)) == multiset(Items(q[..cut])) + multiset(Items(q[cut..]))
  {
    assert Items(q) == Items(q[..cut]) + Items(q[cut..]);
  }

  lemma PushConserves(l: Ledger, key: string, m: Message, limit: nat)
    requires Distinct(l.queued) && Conserved(l) && !l.closed
    ensures Conserved(Apply(l, PushOp(key, m), limit))
  {
    var after := Apply(l, PushOp(key, m), limit);
    var o := |l.accepted|;
    var put := Put(l.queued, key, o);
    hide Put, Superseded, Distinct, Items;
    var cut := Excess(|put|, limit);
    PutMultiset(l.queued, key, o);
    SplitItems(put, cut);
    assert UpTo(o + 1) == UpTo(o) + [o];
    ConserveSum(multiset(l.taken), multiset(l.superseded), multiset(l.shed), multiset(Items(l.queued)),
                multiset(UpTo(o)), multiset(Superseded(l.queued, key)), multiset(Items(put[..cut])),
                multiset(Items(put[cut..])), o);
  }

  lemma ConserveSum(taken: multiset<nat>, superseded: multiset<nat>, shed: multiset<nat>, queued: multiset<nat>,
                    all: multiset<nat>, replaced: multiset<nat>, cut: multiset<nat>, kept: multiset<nat>, o: nat)
    requires taken + superseded + shed + queued == all
    requires replaced + (cut + kept) == queued + multiset{o}
    ensures taken + (superseded + replaced) + (shed + cut) + kept == all + multiset{o}
  {
    var left, right := taken + (superseded + replaced) + (shed + cut) + kept, all + multiset{o};
    forall x: nat ensures left[x] == right[x] {
      assert (replaced + (cut + kept))[x] == (queued + multiset{o})[x];
      assert (taken + superseded + shed + queued)[x] == all[x];
    }
  }

  lemma TakeConserves(l: Ledger, n: nat)
    requires Conserved(l)
    ensures var (items, rest) := TakeMany(l.queued, n);
            Conserved(l.(queued := rest, taken := l.taken + items))
  {
    TakeManyIsPrefix(l.queued, n);
    hide TakeMany;
    var m := if n < |l.queued| then n else |l.queued|;
    ItemsConcat(l.queued[..m], l.queued[m..]);
    assert l.queued == l.queued[..m] + l.queued[m..];
    assert multiset(Items(l.queued)) == multiset(Items(l.queued[..m])) + multiset(Items(l.queued[m..]));
  }

  lemma PushKeepsNewest(l: Ledger, key: string, m: Message, limit: nat)
    requires Distinct(l.queued) && Newest(l) && OnlyByNewer(l) && !l.closed
    ensures var after := Apply(l, PushOp(key, m), limit);
            Distinct(after.queued) && Newest(after) && OnlyByNewer(after)
  {
    hide Put, Superseded;
    var o := |l.accepted|;
    var after := Apply(l, PushOp(key, m), limit);
    PutKeepsPlaces(l.queued, key, o);
    var put := Put(l.queued, key, o);
    DistinctSuffix(put, Excess(|put|, limit));
    var at := FindKey(l.queued, key);
    if at < |l.queued| {
      PutAtPlace(l.queued, key, o, at);
      assert after.accepted[o].key == after.accepted[l.queued[at].item].key;
    } else {
      PutAtEnd(l.queued, key, o);
    }
    forall i | 0 <= i < |after.superseded|
      ensures after.superseded[i] < |after.accepted|
      ensures exists p :: after.superseded[i] < p < |after.accepted|
                          && after.accepted[p].key == after.accepted[after.superseded[i]].key
    {
      if i < |l.superseded| {
        var p :| l.superseded[i] < p < |l.accepted| && l.accepted[p].key == l.accepted[l.superseded[i]].key;
        assert after.accepted[p].key == after.accepted[after.superseded[i]].key;
      }
    }
    forall i | 0 <= i < |put|
      ensures put[i].item < |after.accepted| && after.accepted[put[i].item].key == put[i].key
      ensures forall p | put[i].item < p < |after.accepted| :: after.accepted[p].key != put[i].key
    {
    }
  }

  lemma PushIsSound(l: Ledger, key: string, m: Message, limit: nat)
    requires Sound(l, limit) && !l.closed
    ensures Sound(Apply(l, PushOp(key, m), limit), limit)
  {
    hide Conserved, Newest, OnlyByNewer, Put, Superseded, Distinct;
    PushConserves(l, key, m, limit);
    PushKeepsNewest(l, key, m, limit);
  }

  lemma TakeIsSound(l: Ledger, n: nat, limit: nat)
    requires Sound(l, limit)
    ensures var (items, rest) := TakeMany(l.queued, n);
            Sound(l.(queued := rest, taken := l.taken + items), limit)
  {
    hide Conserved;
    TakeConserves(l, n);
    TakeManyIsPrefix(l.queued, n);
    hide TakeMany;
  }

  /** Every reachable state of every run is sound. */
  lemma {:induction false} RunIsSound(ops: seq<Op>, limit: nat)
    ensures Sound(Run(ops, limit), limit)
    decreases |ops|
  {
    if ops != [] {
      hide Sound, Push, Shed, TakeMany, Superseded;
      var l, op := Run(ops[..|ops| - 1], limit), ops[|ops| - 1];
      RunIsSound(ops[..|ops| - 1], limit);
      match op
      case PushOp(key, m) =>
        if !l.closed {
          PushIsSound(l, key, m, limit);
        }
      case TakeOp => TakeIsSound(l, 1, limit);
      case BatchOp(n) => TakeIsSound(l, if n > 0 then n else 0, limit);
      case CloseOp => ClosingIsSound(l, limit);
    } else {
      EmptyConserved();
    }
  }

  lemma ClosingIsSound(l: Ledger, limit: nat)
    requires Sound(l, limit)
    ensures Sound(l.(closed := true), limit)
  {
  }

  lemma EmptyConserved()
    ensures Conserved(Ledger([], [], [], [], [], false))
  {
  }

  /** Accepted pushes are those taken, those dropped and those pending, each counted once. */
  lemma NothingVanishes(ops: seq<Op>, limit: nat)
    ensures var l := Run(ops, limit);
            |l.accepted| == |l.taken| + (|l.superseded| + |l.shed|) + |l.queued|
  {
    RunIsSound(ops, limit);
    var l := Run(ops, limit);
    assert |multiset(UpTo(|l.accepted|))| == |l.accepted|;
  }

  // ------------------------------------------------------------- one push of a run

  /**
    Right after its push a frame is pending, and a push loses at most one frame: the one of
    its own key, or at the limit the oldest of all.
   */
  lemma PushIsPending(ops: seq<Op>, limit: nat, key: string, m: Message)
    requires limit > 0 && !Run(ops, limit).closed
    ensures var before, after := Run(ops, limit), Run(ops + [PushOp(key, m)], limit);
            var o := |before.accepted|;
            && after.accepted == before.accepted + [Slot(key, m)]
            && Slot(key, o) in after.queued
            && after.taken == before.taken
            && (IsQueued(before.queued, key) ==>
                  && after.shed == before.shed
                  && exists i | 0 <= i < |before.queued| :: before.queued[i].key == key
                       && after.superseded == before.superseded + [before.queued[i].item])
            && (!IsQueued(before.queued, key) ==>
                  && after.superseded == before.superseded
                  && after.shed == before.shed
                     + if |before.queued| < limit then [] else [before.queued[0].item])
  {
    RunIsSound(ops, limit);
    var before := Run(ops, limit);
    assert (ops + [PushOp(key, m)])[..|ops|] == ops;
    PushIsExact(before.queued, key, |before.accepted|, limit);
    PushedIsQueued(before.queued, key, |before.accepted|, limit);
    PushLosses(before, key, limit);
    hide Run, Push, Shed, Superseded, Conserved, Newest, OnlyByNewer, LostBy, PushedOnto;
  }

  lemma PushLosses(l: Ledger, key: string, limit: nat)
    requires Distinct(l.queued) && |l.queued| <= limit && limit > 0
    ensures var o := |l.accepted|;
            var superseded, shed := Superseded(l.queued, key), Shed(l.queued, key, o, limit);
            && (IsQueued(l.queued, key) ==>
                  && shed == []
                  && exists i | 0 <= i < |l.queued| :: l.queued[i].key == key && superseded == [l.queued[i].item])
            && (!IsQueued(l.queued, key) ==>
                  superseded == [] && shed == if |l.queued| < limit then [] else [l.queued[0].item])
  {
    PushIsExact(l.queued, key, |l.accepted|, limit);
    hide Shed, Superseded, PushedOnto;
    var superseded, shed := Superseded(l.queued, key), Shed(l.queued, key, |l.accepted|, limit);
    if shed == [] {
      assert superseded + shed == superseded;
    } else {
      assert superseded + shed == shed;
    }
  }

  // -------------------------------------------------------------------- live ink

  predicate IsDelta(l: Ledger, o: nat)
    requires o < |l.accepted|
  {
    l.accepted[o].item.event == "ink.points"
  }

  /** No other accepted push uses the key of an ink delta. */
  ghost predicate FreshDeltas(l: Ledger) {
    forall i, j | 0 <= i < |l.accepted| && 0 <= j < |l.accepted| && i != j && IsDelta(l, i) ::
      l.accepted[i].key != l.accepted[j].key
  }

  /** What has left or will leave, in that order. */
  function Line(l: Ledger): seq<nat> {
    l.taken + Items(l.queued)
  }

  /** The ink deltas of a line of ordinals are in push order. */
  ghost predicate InOrder(line: seq<nat>, accepted: Slots<Message>) {
    && (forall i | 0 <= i < |line| :: line[i] < |accepted|)
    && (forall i, j | 0 <= i < j < |line| && accepted[line[i]].item.event == "ink.points"
          && accepted[line[j]].item.event == "ink.points" :: line[i] < line[j])
  }

  ghost predicate DeltasInOrder(l: Ledger) {
    InOrder(Line(l), l.accepted)
  }

  lemma InOrderOneMore(line: seq<nat>, accepted: Slots<Message>, s: Slot<Message>)
    requires InOrder(line, accepted)
    ensures InOrder(line + [|accepted|], accepted + [s])
  {
  }

  lemma InOrderReplaced(line: seq<nat>, accepted: Slots<Message>, s: Slot<Message>, p: nat)
    requires InOrder(line, accepted) && p < |line|
    requires s.item.event != "ink.points"
    ensures InOrder(line[p := |accepted|], accepted + [s])
  {
  }

  lemma InOrderCut(line: seq<nat>, accepted: Slots<Message>, p: nat, cut: nat)
    requires InOrder(line, accepted) && p + cut <= |line|
    ensures InOrder(line[..p] + line[p + cut..], accepted)
  {
  }

  lemma AppendsOnly(l: Ledger, op: Op, limit: nat)
    ensures l.accepted <= Apply(l, op, limit).accepted
  {
    hide Put, Shed, TakeMany;
  }

  lemma {:induction false} AcceptedGrows(ops: seq<Op>, limit: nat, n: nat)
    requires n <= |ops|
    ensures Run(ops[..n], limit).accepted <= Run(ops, limit).accepted
    decreases |ops| - n
  {
    hide Apply;
    if n < |ops| {
      AppendsOnly(Run(ops[..n], limit), ops[n], limit);
      AcceptedGrows(ops, limit, n + 1);
      assert ops[..n + 1][..n] == ops[..n];
    } else {
      assert ops[..n] == ops;
    }
  }

  /** The line before anything is shed. */
  lemma PutKeepsDeltaOrder(l: Ledger, key: string, m: Message, limit: nat)
    requires Distinct(l.queued) && Newest(l) && DeltasInOrder(l) && !l.closed
    requires FreshDeltas(Apply(l, PushOp(key, m), limit))
    ensures InOrder(l.taken + Items(Put(l.queued, key, |l.accepted|)), l.accepted + [Slot(key, m)])
  {
    hide Put, Superseded, Distinct, InOrder, Shed;
    var o := |l.accepted|;
    var after := Apply(l, PushOp(key, m), limit);
    var before, whole := Line(l), l.taken + Items(Put(l.queued, key, o));
    var at := FindKey(l.queued, key);
    if at < |l.queued| {
      PutAtPlace(l.queued, key, o, at);
      var p := |l.taken| + at;
      assert whole == before[p := o];
      var replaced := l.queued[at].item;
      assert after.accepted[replaced].key == key == after.accepted[o].key;
      assert !IsDelta(after, o);
      InOrderReplaced(before, l.accepted, Slot(key, m), p);
    } else {
      PutAtEnd(l.queued, key, o);
      assert whole == before + [o];
      InOrderOneMore(before, l.accepted, Slot(key, m));
    }
  }

  lemma LineAfterCut(taken: seq<nat>, put: Slots<nat>, cut: nat)
    requires cut <= |put|
    ensures var whole := taken + Items(put);
            taken + Items(put[cut..]) == whole[..|taken|] + whole[|taken| + cut..]
  {
    assert Items(put[cut..]) == Items(put)[cut..];
  }

  lemma LineAfterPush(l: Ledger, key: string, m: Message, limit: nat)
    requires !l.closed
    ensures var put, after := Put(l.queued, key, |l.accepted|), Apply(l, PushOp(key, m), limit);
            && after.accepted == l.accepted + [Slot(key, m)]
            && Line(after) == l.taken + Items(put[Excess(|put|, limit)..])
  {
    hide Put, Superseded, Shed, Items;
  }

  lemma PushKeepsDeltaOrder(l: Ledger, key: string, m: Message, limit: nat)
    requires Distinct(l.queued) && Newest(l) && DeltasInOrder(l) && !l.closed
    requires FreshDeltas(Apply(l, PushOp(key, m), limit))
    ensures DeltasInOrder(Apply(l, PushOp(key, m), limit))
  {
    hide Apply, Put, Distinct, InOrder, Newest, FreshDeltas, Items, Line;
    PutKeepsDeltaOrder(l, key, m, limit);
    LineAfterPush(l, key, m, limit);
    var put := Put(l.queued, key, |l.accepted|);
    var cut := Excess(|put|, limit);
    LineAfterCut(l.taken, put, cut);
    InOrderCut(l.taken + Items(put), l.accepted + [Slot(key, m)], |l.taken|, cut);
  }

  lemma TakeKeepsLine(l: Ledger, n: nat)
    ensures var (items, rest) := TakeMany(l.queued, n);
            Line(l.(queued := rest, taken := l.taken + items)) == Line(l)
  {
    TakeManyIsPrefix(l.queued, n);
  }

  lemma {:induction false} DeltasStayInOrder(ops: seq<Op>, limit: nat)
    requires FreshDeltas(Run(ops, limit))
    ensures DeltasInOrder(Run(ops, limit))
    decreases |ops|
  {
    if ops != [] {
      var l, op := Run(ops[..|ops| - 1], limit), ops[|ops| - 1];
      AcceptedGrows(ops, limit, |ops| - 1);
      FreshInPrefix(l, Run(ops, limit));
      DeltasStayInOrder(ops[..|ops| - 1], limit);
      RunIsSound(ops[..|ops| - 1], limit);
      match op
      case PushOp(key, m) =>
        if !l.closed {
          PushKeepsDeltaOrder(l, key, m, limit);
        }
      case TakeOp => TakeKeepsLine(l, 1);
      case BatchOp(n) => TakeKeepsLine(l, if n > 0 then n else 0);
      case CloseOp =>
    }
  }

  lemma FreshInPrefix(l: Ledger, after: Ledger)
    requires l.accepted <= after.accepted && FreshDeltas(after)
    ensures FreshDeltas(l)
  {
    forall i, j | 0 <= i < |l.accepted| && 0 <= j < |l.accepted| && i != j && IsDelta(l, i)
      ensures l.accepted[i].key != l.accepted[j].key
    {
      assert IsDelta(after, i) && after.accepted[i] == l.accepted[i] && after.accepted[j] == l.accepted[j];
    }
  }

  /**
    With a key of its own for each ink delta, a delta is never replaced: it is lost only
    by shedding, and the deltas that survive leave in the order they were pushed.
   */
  lemma DeltasAreOnlyShed(ops: seq<Op>, limit: nat)
    requires FreshDeltas(Run(ops, limit))
    ensures var l := Run(ops, limit);
            && DeltasInOrder(l)
            && forall o: nat | o < |l.accepted| && IsDelta(l, o) :: o in Line(l) || o in l.shed
  {
    var l := Run(ops, limit);
    DeltasStayInOrder(ops, limit);
    RunIsSound(ops, limit);
    forall o: nat | o < |l.accepted| && IsDelta(l, o) ensures o in Line(l) || o in l.shed {
      assert UpTo(|l.accepted|)[o] == o;
      assert o in multiset(l.taken) + multiset(l.superseded) + multiset(l.shed) + multiset(Items(l.queued));
    }
  }
}
