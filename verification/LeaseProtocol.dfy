/**
  The lease protocol over whole runs.

  A run is a sequence of service calls, each one atomic and carrying the time it
  happened at.  What a connection may *believe* is computed from its own calls and
  the answers to them alone; the theorems relate the beliefs of different
  connections to one another and to the store.
 */
module LeaseProtocol {
  import opened Wrappers
  import opened Leases

  datatype Settings = Settings(lease: int, maxPerSession: int)

  datatype Client = Client(id: string, sessionId: string, userId: string, noteId: string)

  datatype Call =
    | RequestLock(at: int, client: Client, blockId: string, lockId: string)
    | RenewLock(at: int, client: Client, blockId: string, lockId: string)
    | ReleaseLock(at: int, client: Client, blockId: string, lockId: string)
    | Disconnect(at: int, connectionId: string)
    | Sweep(at: int)

  datatype Answer =
    | Outcome(outcome: AcquireOutcome)
    | Renewal(result: LockResult)
    | Released(result: LockResult)
    | Dropped(keys: set<Key>)

  /** The lease a request asks for: identity from the connection, expiry from the clock. */
  function Wanted(s: Settings, client: Client, blockId: string, lockId: string, now: int): BlockLock {
    BlockLock(lockId, blockId, client.noteId, client.id, client.sessionId, client.userId, now, now + s.lease)
  }

  function Step(s: Settings, t: Table, call: Call): (Table, Answer) {
    match call
    case RequestLock(at, client, blockId, lockId) =>
      if blockId == "" || lockId == "" then
        (t, Outcome(AcquireOutcome(None, None, Some(HeldByOther))))
      else
        var (after, outcome) := Acquire(t, Wanted(s, client, blockId, lockId, at), s.maxPerSession, at);
        (after, Outcome(outcome))
    case RenewLock(at, client, blockId, lockId) =>
      var (after, result) := Renew(t, Key(client.noteId, blockId), lockId, client.id, at + s.lease, at);
      (after, Renewal(result))
    case ReleaseLock(at, client, blockId, lockId) =>
      var (after, result) := Release(t, Key(client.noteId, blockId), lockId, client.id);
      (after, Released(result))
    case Disconnect(at, connectionId) =>
      (t - HeldBy(t, connectionId), Dropped(HeldBy(t, connectionId)))
    case Sweep(at) =>
      (t - Lapsed(t, at), Dropped(Lapsed(t, at)))
  }

  function BlockedBy(t: Table, client: Client, blockId: string, now: int): Option<BlockLock> {
    if blockId == "" then None
    else
      var holder := Holder(t, Key(client.noteId, blockId), now);
      if holder.None? || holder.value.connectionId == client.id then None else holder
  }

  // ------------------------------------------------------------------------ runs

  type Calls = seq<Call>

  function Run(s: Settings, calls: Calls): Table {
    if calls == [] then map[] else Step(s, Run(s, calls[..|calls| - 1]), calls[|calls| - 1]).0
  }

  /** The answer to the last call. */
  function LastAnswer(s: Settings, calls: Calls): Answer
    requires calls != []
  {
    Step(s, Run(s, calls[..|calls| - 1]), calls[|calls| - 1]).1
  }

  /** The clock of a run never goes back. */
  predicate Monotone(calls: Calls) {
    forall i, j | 0 <= i < j < |calls| :: calls[i].at <= calls[j].at
  }

  /** `now` is not before any call of the run. */
  predicate NotBefore(now: int, calls: Calls) {
    forall i | 0 <= i < |calls| :: calls[i].at <= now
  }

  /** The last call was a granted request for the block, by anyone. */
  predicate Grants(s: Settings, calls: Calls, k: Key) {
    && calls != []
    && var call := calls[|calls| - 1];
    && call.RequestLock? && Key(call.client.noteId, call.blockId) == k
    && LastAnswer(s, calls).outcome.lock.Some?
  }

  /** The last call was a successful renewal of the block, by anyone. */
  predicate Renews(s: Settings, calls: Calls, k: Key) {
    && calls != []
    && var call := calls[|calls| - 1];
    && call.RenewLock? && Key(call.client.noteId, call.blockId) == k
    && LastAnswer(s, calls).result.Success?
  }

  /** The last call gave `c` the block until one lease length later: a grant or a renewal. */
  predicate Extends(s: Settings, calls: Calls, c: string, k: Key) {
    (Grants(s, calls, k) || Renews(s, calls, k)) && calls[|calls| - 1].client.id == c
  }

  /** The last call ended what `c` had on the block: its release, or its disconnect. */
  predicate Ends(s: Settings, calls: Calls, c: string, k: Key) {
    && calls != []
    && var call := calls[|calls| - 1];
    && match call
       case ReleaseLock(_, client, blockId, _) =>
         client.id == c && Key(client.noteId, blockId) == k && LastAnswer(s, calls).result.Success?
       case Disconnect(_, connectionId) => connectionId == c
       case _ => false
  }

  /** Until when `c` may believe it holds the block, from its own calls and their answers. */
  function Belief(s: Settings, calls: Calls, c: string, k: Key): Option<int> {
    if calls == [] then None
    else if Extends(s, calls, c, k) then Some(calls[|calls| - 1].at + s.lease)
    else if Ends(s, calls, c, k) then None
    else Belief(s, calls[..|calls| - 1], c, k)
  }

  predicate Holds(s: Settings, calls: Calls, c: string, k: Key, now: int) {
    var until := Belief(s, calls, c, k);
    until.Some? && until.value > now
  }

  /** What the store and one connection's belief about one block have to do with one another. */
  ghost predicate Agrees(s: Settings, calls: Calls, c: string, k: Key, now: int) {
    var t, until := Run(s, calls), Belief(s, calls, c, k);
    && (until.Some? && until.value > now ==> k in t && t[k].connectionId == c && t[k].expiresAt == until.value)
    && (k in t && t[k].connectionId == c ==> until == Some(t[k].expiresAt))
  }

  /** What the last call of a run did to the lease stored for one block. */
  lemma StepOn(s: Settings, calls: Calls, k: Key)
    requires calls != []
    ensures var call := calls[|calls| - 1];
            var before, after := Run(s, calls[..|calls| - 1]), Run(s, calls);
            if Grants(s, calls, k) then
              && k in after && after[k].connectionId == call.client.id && after[k].lockId == call.lockId
              && after[k].expiresAt == call.at + s.lease
              && (k in before && before[k].connectionId != call.client.id ==> before[k].IsExpired(call.at))
            else if Renews(s, calls, k) then
              && k in before && before[k].connectionId == call.client.id && !before[k].IsExpired(call.at)
              && k in after && after[k] == before[k].(expiresAt := call.at + s.lease)
            else if k in after then
              && k in before && after[k] == before[k]
              && !Ends(s, calls, after[k].connectionId, k) && (call.Sweep? ==> !after[k].IsExpired(call.at))
            else
              k in before ==> Ends(s, calls, before[k].connectionId, k) || (call.Sweep? && before[k].IsExpired(call.at))
  {
    hide Count;
  }

  lemma {:induction false} StoreAgrees(s: Settings, calls: Calls, c: string, k: Key, now: int)
    requires s.lease > 0 && Monotone(calls) && NotBefore(now, calls)
    ensures Agrees(s, calls, c, k, now)
    decreases |calls|
  {
    hide Run, Grants, Renews, Ends;
    if calls != [] {
      var prefix, call := calls[..|calls| - 1], calls[|calls| - 1];
      StoreAgrees(s, prefix, c, k, now);
      StoreAgrees(s, prefix, c, k, call.at);
      StepOn(s, calls, k);
    } else {
      NothingStored(s);
    }
  }

  lemma NothingStored(s: Settings)
    ensures Run(s, []) == map[]
  {
  }

  /** The stored lease of a block is exactly what its connection believes. */
  lemma StoredMeansBelieved(s: Settings, calls: Calls, k: Key, now: int)
    requires s.lease > 0 && Monotone(calls) && NotBefore(now, calls)
    requires k in Run(s, calls)
    ensures Belief(s, calls, Run(s, calls)[k].connectionId, k) == Some(Run(s, calls)[k].expiresAt)
  {
    StoreAgrees(s, calls, Run(s, calls)[k].connectionId, k, now);
  }

  /** A connection holds a block exactly when the store says so, live at that moment. */
  lemma HoldsIsHolder(s: Settings, calls: Calls, c: string, k: Key, now: int)
    requires s.lease > 0 && Monotone(calls) && NotBefore(now, calls)
    ensures Holds(s, calls, c, k, now)
       <==> Holder(Run(s, calls), k, now).Some? && Holder(Run(s, calls), k, now).value.connectionId == c
  {
    StoreAgrees(s, calls, c, k, now);
  }

  /**
    Exclusion.  At no moment of any run do two connections both believe, on the
    strength of the answers they were given, that they hold the same block.
   */
  lemma ExclusiveBeliefs(s: Settings, calls: Calls, c: string, d: string, k: Key, now: int)
    requires s.lease > 0 && Monotone(calls) && NotBefore(now, calls)
    requires c != d
    ensures !(Holds(s, calls, c, k, now) && Holds(s, calls, d, k, now))
  {
    HoldsIsHolder(s, calls, c, k, now);
    HoldsIsHolder(s, calls, d, k, now);
  }

  /**
    What a request is told, from the beliefs alone: somebody else's live hold denies it,
    naming that holder; a full session denies it; otherwise it is granted.
   */
  lemma RequestAnswer(s: Settings, calls: Calls, client: Client, blockId: string, lockId: string, now: int)
    requires s.lease > 0 && Monotone(calls) && NotBefore(now, calls)
    requires blockId != "" && lockId != ""
    ensures var k := Key(client.noteId, blockId);
            var t := Run(s, calls);
            var (after, answer) := Step(s, t, RequestLock(now, client, blockId, lockId));
            var outcome := answer.outcome;
            var others := exists c :: c != client.id && Holds(s, calls, c, k, now);
            var full := s.maxPerSession > 0 && Count(t, client.sessionId) >= s.maxPerSession;
            var own := k in t && t[k].connectionId == client.id;
            && (outcome.denial == Some(HeldByOther) <==> others)
            && (others ==> outcome.holder.Some? && outcome.holder.value.connectionId != client.id
                           && Holds(s, calls, outcome.holder.value.connectionId, k, now))
            && (outcome.denial == Some(TooManyLocks) <==> !others && full && !own)
            && (outcome.lock.Some? <==> !others && (!full || own))
            && (outcome.lock.Some? ==>
                  && outcome.lock == Some(BlockLock(lockId, blockId, client.noteId, client.id, client.sessionId,
                                                    client.userId, now, now + s.lease))
                  && after == t[k := outcome.lock.value])
            && (outcome.lock.None? ==> after == t)
  {
    var k := Key(client.noteId, blockId);
    var t := Run(s, calls);
    hide Run, Belief, Count;
    forall c ensures Holds(s, calls, c, k, now)
                <==> Holder(t, k, now).Some? && Holder(t, k, now).value.connectionId == c {
      HoldsIsHolder(s, calls, c, k, now);
    }
    if k in t {
      assert Holds(s, calls, t[k].connectionId, k, now) <==> !t[k].IsExpired(now);
    }
  }

  datatype Grant = Grant(connectionId: string, lockId: string)

  /** Whom the most recent grant of the block was for, and under which lock id. */
  function LastGrant(s: Settings, calls: Calls, k: Key): Option<Grant> {
    if calls == [] then None
    else
      var call := calls[|calls| - 1];
      if Grants(s, calls, k) then Some(Grant(call.client.id, call.lockId))
      else LastGrant(s, calls[..|calls| - 1], k)
  }

  /** A sweep came after the belief of `c` had lapsed, and `c` was not given the block again. */
  predicate SweptAway(s: Settings, calls: Calls, c: string, k: Key) {
    && calls != []
    && !Extends(s, calls, c, k)
    && var prefix, call := calls[..|calls| - 1], calls[|calls| - 1];
    && var until := Belief(s, prefix, c, k);
    && ((call.Sweep? && until.Some? && until.value <= call.at) || SweptAway(s, prefix, c, k))
  }

  lemma {:induction false} StoredIsLastGrant(s: Settings, calls: Calls, k: Key)
    requires k in Run(s, calls)
    ensures LastGrant(s, calls, k) == Some(Grant(Run(s, calls)[k].connectionId, Run(s, calls)[k].lockId))
    decreases |calls|
  {
    hide Run, Grants, Renews, Ends;
    if calls == [] {
      NothingStored(s);
    } else {
      StepOn(s, calls, k);
      if !Grants(s, calls, k) {
        StoredIsLastGrant(s, calls[..|calls| - 1], k);
      }
    }
  }

  lemma {:induction false} StoredIsNotSwept(s: Settings, calls: Calls, k: Key)
    requires s.lease > 0 && Monotone(calls) && k in Run(s, calls)
    ensures !SweptAway(s, calls, Run(s, calls)[k].connectionId, k)
    decreases |calls|
  {
    hide Run, Grants, Renews, Ends, Belief;
    if calls != [] {
      var prefix, call := calls[..|calls| - 1], calls[|calls| - 1];
      StepOn(s, calls, k);
      if !Grants(s, calls, k) && !Renews(s, calls, k) {
        StoredIsNotSwept(s, prefix, k);
        StoredMeansBelieved(s, prefix, k, call.at);
      }
    }
  }

  /** A belief that is the latest grant and was not swept away is still stored. */
  lemma {:induction false} StillStored(s: Settings, calls: Calls, c: string, k: Key)
    requires s.lease > 0 && Monotone(calls)
    requires Belief(s, calls, c, k).Some? && !SweptAway(s, calls, c, k)
    requires LastGrant(s, calls, k).Some? && LastGrant(s, calls, k).value.connectionId == c
    ensures k in Run(s, calls) && Run(s, calls)[k].connectionId == c
    decreases |calls|
  {
    hide Run, Grants, Renews, Ends;
    var prefix, call := calls[..|calls| - 1], calls[|calls| - 1];
    StepOn(s, calls, k);
    if !Extends(s, calls, c, k) {
      StillStored(s, prefix, c, k);
      StoredMeansBelieved(s, prefix, k, call.at);
    }
  }

  /** A renewal succeeds exactly for a connection that holds the block and names its latest grant. */
  lemma RenewalAnswer(s: Settings, calls: Calls, client: Client, blockId: string, lockId: string, now: int)
    requires s.lease > 0 && Monotone(calls) && NotBefore(now, calls)
    ensures var k := Key(client.noteId, blockId);
            var t := Run(s, calls);
            var (after, answer) := Step(s, t, RenewLock(now, client, blockId, lockId));
            var renewed := answer.result.Success?;
            && (renewed <==>
                  Holds(s, calls, client.id, k, now) && LastGrant(s, calls, k) == Some(Grant(client.id, lockId)))
            && (renewed ==>
                  && k in t && answer.result.lock == t[k].(expiresAt := now + s.lease)
                  && after == t[k := answer.result.lock])
            && (!renewed ==> after == t)
  {
    var k := Key(client.noteId, blockId);
    hide Run, Belief, LastGrant;
    HoldsIsHolder(s, calls, client.id, k, now);
    if k in Run(s, calls) {
      StoredIsLastGrant(s, calls, k);
    }
  }

  /**
    A release succeeds exactly for the latest grant of the block, by the connection it was
    for, while that connection has not ended it and no sweep came after it lapsed.  A lapsed
    lease can thus still be released.
   */
  lemma ReleaseAnswer(s: Settings, calls: Calls, client: Client, blockId: string, lockId: string, now: int)
    requires s.lease > 0 && Monotone(calls) && NotBefore(now, calls)
    ensures var k := Key(client.noteId, blockId);
            var t := Run(s, calls);
            var (after, answer) := Step(s, t, ReleaseLock(now, client, blockId, lockId));
            var released := answer.result.Success?;
            && (released <==>
                  && LastGrant(s, calls, k) == Some(Grant(client.id, lockId))
                  && Belief(s, calls, client.id, k).Some?
                  && !SweptAway(s, calls, client.id, k))
            && (released ==> k in t && answer.result.lock == t[k] && after == t - {k})
            && (!released ==> after == t)
  {
    var k := Key(client.noteId, blockId);
    hide Run, Belief, LastGrant, SweptAway;
    if k in Run(s, calls) {
      StoredIsLastGrant(s, calls, k);
      StoredMeansBelieved(s, calls, k, now);
      StoredIsNotSwept(s, calls, k);
    }
    if && LastGrant(s, calls, k) == Some(Grant(client.id, lockId))
       && Belief(s, calls, client.id, k).Some? && !SweptAway(s, calls, client.id, k)
    {
      StillStored(s, calls, client.id, k);
    }
  }

  // -------------------------------------------------------------- holding periods

  predicate ExtendsAt(s: Settings, calls: Calls, i: nat, c: string, k: Key)
    requires i < |calls|
  {
    Extends(s, calls[..i + 1], c, k)
  }

  predicate EndsAt(s: Settings, calls: Calls, i: nat, c: string, k: Key)
    requires i < |calls|
  {
    Ends(s, calls[..i + 1], c, k)
  }

  lemma SameInPrefix(s: Settings, calls: Calls, n: nat, c: string, k: Key)
    requires n <= |calls|
    ensures forall i | 0 <= i < n :: ExtendsAt(s, calls[..n], i, c, k) == ExtendsAt(s, calls, i, c, k)
    ensures forall i | 0 <= i < n :: EndsAt(s, calls[..n], i, c, k) == EndsAt(s, calls, i, c, k)
  {
    forall i | 0 <= i < n
      ensures ExtendsAt(s, calls[..n], i, c, k) == ExtendsAt(s, calls, i, c, k)
      ensures EndsAt(s, calls[..n], i, c, k) == EndsAt(s, calls, i, c, k)
    {
      assert calls[..n][..i + 1] == calls[..i + 1];
    }
  }

  /** What a belief rests on: the last extension, not ended since. */
  ghost predicate RestsOn(s: Settings, calls: Calls, c: string, k: Key, m: nat)
    requires m < |calls|
  {
    && ExtendsAt(s, calls, m, c, k)
    && forall j | m < j < |calls| :: !ExtendsAt(s, calls, j, c, k) && !EndsAt(s, calls, j, c, k)
  }

  lemma {:induction false} BeliefRests(s: Settings, calls: Calls, c: string, k: Key) returns (m: nat)
    requires Belief(s, calls, c, k).Some?
    ensures m < |calls| && RestsOn(s, calls, c, k, m)
    ensures Belief(s, calls, c, k) == Some(calls[m].at + s.lease)
    decreases |calls|
  {
    hide Extends, Ends;
    var n := |calls| - 1;
    assert calls[..n + 1] == calls;
    if Extends(s, calls, c, k) {
      m := n;
    } else {
      m := BeliefRests(s, calls[..n], c, k);
      SameInPrefix(s, calls, n, c, k);
      assert !ExtendsAt(s, calls, n, c, k) && !EndsAt(s, calls, n, c, k);
    }
  }

  lemma {:induction false} BeliefSince(s: Settings, calls: Calls, c: string, k: Key, i: nat)
    requires i < |calls| && ExtendsAt(s, calls, i, c, k)
    requires forall m | i < m < |calls| :: !EndsAt(s, calls, m, c, k)
    ensures Belief(s, calls, c, k).Some?
    decreases |calls|
  {
    hide Extends, Ends;
    var n := |calls| - 1;
    assert calls[..n + 1] == calls;
    if i < n {
      SameInPrefix(s, calls, n, c, k);
      BeliefSince(s, calls[..n], c, k, i);
      assert !EndsAt(s, calls, n, c, k);
    }
  }

  /**
    Holding periods do not overlap.  When `c` was granted a block by call `i` and a
    different connection is granted it by a later call `j`, then in between `c` released
    it or disconnected, or a whole lease length passed since the last call, from `i` on,
    that gave it to `c`.
   */
  lemma HoldingPeriodsAreDisjoint(s: Settings, calls: Calls, c: string, d: string, k: Key, i: nat, j: nat)
    requires s.lease > 0 && Monotone(calls) && c != d
    requires i < j < |calls|
    requires ExtendsAt(s, calls, i, c, k)
    requires ExtendsAt(s, calls, j, d, k)
    ensures || (exists m | i < m < j :: EndsAt(s, calls, m, c, k))
            || (exists m | i <= m < j :: RestsOn(s, calls[..j], c, k, m) && calls[m].at + s.lease <= calls[j].at)
  {
    hide Extends, Ends;
    var before := calls[..j];
    if forall m | i < m < j :: !EndsAt(s, calls, m, c, k) {
      SameInPrefix(s, calls, j, c, k);
      BeliefSince(s, before, c, k, i);
      var m := BeliefRests(s, before, c, k);
      assert i <= m by {
        assert ExtendsAt(s, before, i, c, k);
      }
      assert calls[..j + 1] == before + [calls[j]];
      ExtensionExcludes(s, before, calls[j], c, d, k);
    }
  }

  /** A successful request or renewal by `d` finds nobody else holding the block. */
  lemma ExtensionExcludes(s: Settings, before: Calls, call: Call, c: string, d: string, k: Key)
    requires s.lease > 0 && Monotone(before) && NotBefore(call.at, before) && c != d
    requires Extends(s, before + [call], d, k)
    ensures !Holds(s, before, c, k, call.at)
  {
    assert (before + [call])[..|before|] == before;
    HoldsIsHolder(s, before, c, k, call.at);
    assert Step(s, Run(s, before), call).1 == LastAnswer(s, before + [call]);
  }

  // ------------------------------------------------------------------ accounting

  /** Every connection is bound to one session. */
  predicate BoundSessions(calls: Calls) {
    forall i, j | 0 <= i < |calls| && 0 <= j < |calls| && calls[i].RequestLock? && calls[j].RequestLock?
      && calls[i].client.id == calls[j].client.id :: calls[i].client.sessionId == calls[j].client.sessionId
  }

  /** Each stored lease was asked for by its connection under its session. */
  lemma {:induction false} StoredWasRequested(s: Settings, calls: Calls, k: Key) returns (i: nat)
    requires k in Run(s, calls)
    ensures i < |calls| && calls[i].RequestLock?
    ensures calls[i].client.id == Run(s, calls)[k].connectionId
    ensures calls[i].client.sessionId == Run(s, calls)[k].sessionId
    ensures Key(calls[i].client.noteId, calls[i].blockId) == k == Run(s, calls)[k].Place()
    decreases |calls|
  {
    var n := |calls| - 1;
    var before := Run(s, calls[..n]);
    if calls[n].RequestLock? && Run(s, calls) != before && Key(calls[n].client.noteId, calls[n].blockId) == k {
      i := n;
    } else {
      i := StoredWasRequested(s, calls[..n], k);
    }
  }

  /** A first grant, or one that takes over a lapsed lease, counts the session first. */
  lemma CeilingAfterNewGrant(t: Table, lock: BlockLock, max: int, now: int, sessionId: string)
    requires Count(t, sessionId) <= max
    requires !(lock.Place() in t && t[lock.Place()].connectionId == lock.connectionId)
    requires max > 0
    ensures Count(Acquire(t, lock, max, now).0, sessionId) <= max
  {
    hide Count;
    var k := lock.Place();
    CountAfterPut(t, k, lock, sessionId);
    if k in t {
      CountAfterRemove(t, k, sessionId);
    } else {
      assert t - {k} == t;
    }
  }

  /** A re-grant to the same connection is a re-grant to the same session. */
  lemma CeilingAfterRegrant(t: Table, lock: BlockLock, max: int, now: int, sessionId: string)
    requires Count(t, sessionId) <= max
    requires lock.Place() in t && t[lock.Place()].sessionId == lock.sessionId
    ensures Count(Acquire(t, lock, max, now).0, sessionId) <= max
  {
    hide Count;
    CountAfterPut(t, lock.Place(), lock, sessionId);
    CountAfterRemove(t, lock.Place(), sessionId);
  }

  lemma CeilingAfterRequest(s: Settings, calls: Calls, sessionId: string)
    requires s.maxPerSession > 0 && BoundSessions(calls)
    requires calls != [] && calls[|calls| - 1].RequestLock?
    requires Count(Run(s, calls[..|calls| - 1]), sessionId) <= s.maxPerSession
    ensures Count(Run(s, calls), sessionId) <= s.maxPerSession
  {
    hide Count, Acquire;
    var n := |calls| - 1;
    var before, call := Run(s, calls[..n]), calls[n];
    var lock := Wanted(s, call.client, call.blockId, call.lockId, call.at);
    var k := lock.Place();
    if k in before && before[k].connectionId == call.client.id {
      var i := StoredWasRequested(s, calls[..n], k);
      assert calls[..n][i] == calls[i];
      CeilingAfterRegrant(before, lock, s.maxPerSession, call.at, sessionId);
    } else {
      CeilingAfterNewGrant(before, lock, s.maxPerSession, call.at, sessionId);
    }
  }

  lemma RenewalKeepsCount(t: Table, k: Key, lockId: string, connectionId: string, until: int, now: int,
                          sessionId: string)
    ensures Count(Renew(t, k, lockId, connectionId, until, now).0, sessionId) == Count(t, sessionId)
  {
    hide Count;
    if k in t {
      CountAfterPut(t, k, t[k].(expiresAt := until), sessionId);
      CountAfterRemove(t, k, sessionId);
    }
  }

  lemma ReleaseCounts(t: Table, k: Key, lockId: string, connectionId: string, sessionId: string)
    ensures Count(Release(t, k, lockId, connectionId).0, sessionId) <= Count(t, sessionId)
  {
    hide Count;
    CountAfterDrop(t, {k}, sessionId);
  }

  /** The ceiling: no session ever has more leases stored than it may, re-grants and takeovers included. */
  lemma {:induction false} CeilingHolds(s: Settings, calls: Calls, sessionId: string)
    requires s.maxPerSession > 0 && BoundSessions(calls)
    ensures Count(Run(s, calls), sessionId) <= s.maxPerSession
    decreases |calls|
  {
    if calls != [] {
      hide Count, Renew, Release, Acquire;
      var n := |calls| - 1;
      var before, call := Run(s, calls[..n]), calls[n];
      CeilingHolds(s, calls[..n], sessionId);
      match call
      case RequestLock(_, _, _, _) =>
        CeilingAfterRequest(s, calls, sessionId);
      case RenewLock(at, client, blockId, lockId) =>
        RenewalKeepsCount(before, Key(client.noteId, blockId), lockId, client.id, at + s.lease, at, sessionId);
      case ReleaseLock(_, client, blockId, lockId) =>
        ReleaseCounts(before, Key(client.noteId, blockId), lockId, client.id, sessionId);
      case Disconnect(_, connectionId) =>
        CountAfterDrop(before, HeldBy(before, connectionId), sessionId);
      case Sweep(at) =>
        CountAfterDrop(before, Lapsed(before, at), sessionId);
    } else {
      assert SessionKeys(map[], sessionId) == {};
    }
  }

  lemma CountAfterDrop(t: Table, keys: set<Key>, sessionId: string)
    ensures Count(t - keys, sessionId) <= Count(t, sessionId)
  {
    var all := SessionKeys(t, sessionId);
    var left := SessionKeys(t - keys, sessionId);
    assert left <= all;
    SubsetIsSmaller(left, all);
  }

  lemma SubsetIsSmaller<T>(a: set<T>, b: set<T>)
    requires a <= b
    ensures |a| <= |b|
  {
    assert b == a + (b - a);
  }

  // -------------------------------------------------------------- bounded pinning

  /** Nothing pins a block for longer than one lease from now. */
  lemma {:induction false} ExpiryIsBounded(s: Settings, calls: Calls, k: Key, now: int)
    requires s.lease > 0 && Monotone(calls) && NotBefore(now, calls)
    requires k in Run(s, calls)
    ensures Run(s, calls)[k].expiresAt <= now + s.lease
  {
    StoredMeansBelieved(s, calls, k, now);
    var m := BeliefRests(s, calls, Run(s, calls)[k].connectionId, k);
  }

  /** No other connection was granted or renewed the block within one lease length before `now`. */
  ghost predicate SilentSince(s: Settings, calls: Calls, client: Client, k: Key, now: int) {
    forall i, c | 0 <= i < |calls| && c != client.id && ExtendsAt(s, calls, i, c, k) ::
      calls[i].at + s.lease <= now
  }

  /**
    Once everyone else has been silent about a block for one lease length, it is not
    blocked, and a connection below its ceiling gets it.
   */
  lemma FreeAfterSilence(s: Settings, calls: Calls, client: Client, blockId: string, lockId: string, now: int)
    requires s.lease > 0 && Monotone(calls) && NotBefore(now, calls)
    requires blockId != "" && lockId != ""
    requires SilentSince(s, calls, client, Key(client.noteId, blockId), now)
    ensures BlockedBy(Run(s, calls), client, blockId, now).None?
    ensures var full := s.maxPerSession > 0 && Count(Run(s, calls), client.sessionId) >= s.maxPerSession;
            !full ==> Step(s, Run(s, calls), RequestLock(now, client, blockId, lockId)).1.outcome.lock.Some?
  {
    var k := Key(client.noteId, blockId);
    var t := Run(s, calls);
    if k in t && t[k].connectionId != client.id {
      StoredMeansBelieved(s, calls, k, now);
      var m := BeliefRests(s, calls, t[k].connectionId, k);
      assert ExtendsAt(s, calls, m, t[k].connectionId, k);
      assert t[k].IsExpired(now);
    }
  }

  /** The server refuses a transform exactly when some other connection holds the block. */
  lemma BlockedByAnotherHolder(s: Settings, calls: Calls, client: Client, blockId: string, now: int)
    requires s.lease > 0 && Monotone(calls) && NotBefore(now, calls) && blockId != ""
    ensures BlockedBy(Run(s, calls), client, blockId, now).Some?
       <==> exists c :: c != client.id && Holds(s, calls, c, Key(client.noteId, blockId), now)
    ensures var blocker := BlockedBy(Run(s, calls), client, blockId, now);
            blocker.Some? ==>
              && blocker.value.connectionId != client.id
              && Holds(s, calls, blocker.value.connectionId, Key(client.noteId, blockId), now)
  {
    var k := Key(client.noteId, blockId);
    var t := Run(s, calls);
    hide Run, Belief;
    forall c ensures Holds(s, calls, c, k, now)
                <==> Holder(t, k, now).Some? && Holder(t, k, now).value.connectionId == c {
      HoldsIsHolder(s, calls, c, k, now);
    }
    if k in t {
      assert Holds(s, calls, t[k].connectionId, k, now) <==> !t[k].IsExpired(now);
    }
  }
}

/** The service in front of the store; every call of a run is one of its methods. */
module LockService {
  import opened Wrappers
  import opened Leases
  import opened LeaseProtocol
  import opened LockStore

  const DEFAULT_LEASE := 5_000_000_000

  class BlockLockService {
    const store: MemoryLockStore
    const settings: Settings

    constructor (store: MemoryLockStore, settings: Settings)
      ensures this.store == store && this.settings.maxPerSession == settings.maxPerSession
      ensures this.settings.lease == if settings.lease <= 0 then DEFAULT_LEASE else settings.lease
    {
      this.store := store;
      this.settings := if settings.lease <= 0 then settings.(lease := DEFAULT_LEASE) else settings;
    }

    method Request(client: Client, blockId: string, lockId: string, now: int) returns (outcome: AcquireOutcome)
      requires store.Valid()
      modifies store
      ensures store.Valid()
      ensures (store.Table(), Outcome(outcome))
           == Step(settings, old(store.Table()), RequestLock(now, client, blockId, lockId))
    {
      hide Flatten, Accounts, Count, Leases.Acquire;
      if blockId == "" || lockId == "" {
        return AcquireOutcome(None, None, Some(HeldByOther));
      }
      outcome := store.Acquire(
        BlockLock(lockId, blockId, client.noteId, client.id, client.sessionId, client.userId,
                  now, now + settings.lease),
        settings.maxPerSession, now);
    }

    method Renew(client: Client, blockId: string, lockId: string, now: int) returns (result: LockResult)
      requires store.Valid()
      modifies store
      ensures store.Valid()
      ensures (store.Table(), Renewal(result))
           == Step(settings, old(store.Table()), RenewLock(now, client, blockId, lockId))
    {
      hide Flatten, Accounts, Count, Leases.Renew;
      result := store.Renew(client.noteId, blockId, lockId, client.id, now + settings.lease, now);
    }

    method Release(client: Client, blockId: string, lockId: string, ghost now: int) returns (result: LockResult)
      requires store.Valid()
      modifies store
      ensures store.Valid()
      ensures (store.Table(), Released(result))
           == Step(settings, old(store.Table()), ReleaseLock(now, client, blockId, lockId))
    {
      result := store.Release(client.noteId, blockId, lockId, client.id);
    }

    method ReleaseConnection(connectionId: string, ghost now: int) returns (released: seq<BlockLock>)
      requires store.Valid()
      modifies store
      ensures store.Valid()
      ensures var (after, answer) := Step(settings, old(store.Table()), Disconnect(now, connectionId));
              store.Table() == after && Lists(released, old(store.Table()), answer.keys)
    {
      released := store.ReleaseAllForConnection(connectionId);
    }

    method SweepExpired(now: int) returns (expired: seq<BlockLock>)
      requires store.Valid()
      modifies store
      ensures store.Valid()
      ensures var (after, answer) := Step(settings, old(store.Table()), Sweep(now));
              store.Table() == after && Lists(expired, old(store.Table()), answer.keys)
    {
      expired := store.SweepExpired(now);
    }

    method BlockedBy(client: Client, blockId: string, now: int) returns (holder: Option<BlockLock>)
      ensures holder == LeaseProtocol.BlockedBy(store.Table(), client, blockId, now)
    {
      if blockId == "" {
        return None;
      }
      holder := store.Holder(client.noteId, blockId, now);
      if holder.None? || holder.value.connectionId == client.id {
        return None;
      }
    }
  }
}
