/** Block geometry leases: what one call on the lease table does. */
module Leases {
  import opened Wrappers

  /** Times are in one unit throughout; only their order and differences matter. */
  datatype BlockLock = BlockLock(
    lockId: string, blockId: string, noteId: string, connectionId: string, sessionId: string,
    userId: string, acquiredAt: int, expiresAt: int)
  {
    predicate IsExpired(now: int) {
      now >= expiresAt
    }

    function Place(): Key {
      Key(noteId, blockId)
    }
  }

  datatype Key = Key(note: string, block: string)

  /** The stored leases, expired ones that nobody has swept included. */
  type Table = map<Key, BlockLock>

  datatype Denial = HeldByOther | TooManyLocks

  datatype AcquireOutcome = AcquireOutcome(lock: Option<BlockLock>, holder: Option<BlockLock>, denial: Option<Denial>)

  datatype LockError = NotFound | NotHeld

  datatype LockResult = Success(lock: BlockLock) | Failure(error: LockError)

  predicate Keyed(t: Table) {
    forall k | k in t :: t[k].Place() == k
  }

  function SessionKeys(t: Table, sessionId: string): set<Key> {
    set k | k in t && t[k].sessionId == sessionId
  }

  /** The recount the cached counters must agree with. */
  function Count(t: Table, sessionId: string): nat {
    |SessionKeys(t, sessionId)|
  }

  function Acquire(t: Table, lock: BlockLock, maxPerSession: int, now: int): (Table, AcquireOutcome) {
    var k := lock.Place();
    var reacquiring := k in t && t[k].connectionId == lock.connectionId;
    if k in t && !reacquiring && !t[k].IsExpired(now) then
      (t, AcquireOutcome(None, Some(t[k]), Some(HeldByOther)))
    else if !reacquiring && maxPerSession > 0 && Count(t, lock.sessionId) >= maxPerSession then
      (t, AcquireOutcome(None, None, Some(TooManyLocks)))
    else
      (t[k := lock], AcquireOutcome(Some(lock), None, None))
  }

  function Renew(t: Table, k: Key, lockId: string, connectionId: string, expiresAt: int, now: int)
    : (Table, LockResult)
  {
    if k !in t || t[k].IsExpired(now) then (t, Failure(NotFound))
    else if t[k].lockId != lockId || t[k].connectionId != connectionId then (t, Failure(NotHeld))
    else
      var renewed := t[k].(expiresAt := expiresAt);
      (t[k := renewed], Success(renewed))
  }

  function Release(t: Table, k: Key, lockId: string, connectionId: string): (Table, LockResult) {
    if k !in t then (t, Failure(NotFound))
    else if t[k].lockId != lockId || t[k].connectionId != connectionId then (t, Failure(NotHeld))
    else (t - {k}, Success(t[k]))
  }

  function HeldBy(t: Table, connectionId: string): set<Key> {
    set k | k in t && t[k].connectionId == connectionId
  }

  function Lapsed(t: Table, now: int): set<Key> {
    set k | k in t && t[k].IsExpired(now)
  }

  function Holder(t: Table, k: Key, now: int): Option<BlockLock> {
    if k !in t || t[k].IsExpired(now) then None else Some(t[k])
  }

  lemma KeysAfterPut(t: Table, k: Key, lock: BlockLock, sessionId: string)
    ensures k !in SessionKeys(t - {k}, sessionId)
    ensures SessionKeys(t[k := lock], sessionId)
         == SessionKeys(t - {k}, sessionId) + if lock.sessionId == sessionId then {k} else {}
  {
    var after, rest := t[k := lock], t - {k};
    forall j ensures j in SessionKeys(after, sessionId)
                <==> j in SessionKeys(rest, sessionId) || (j == k && lock.sessionId == sessionId) {
      if j != k {
        assert j in after <==> j in rest;
      }
    }
  }

  lemma CountAfterPut(t: Table, k: Key, lock: BlockLock, sessionId: string)
    ensures Count(t[k := lock], sessionId)
         == Count(t - {k}, sessionId) + if lock.sessionId == sessionId then 1 else 0
  {
    hide SessionKeys;
    KeysAfterPut(t, k, lock, sessionId);
  }

  lemma CountAfterRemove(t: Table, k: Key, sessionId: string)
    requires k in t
    ensures Count(t - {k}, sessionId) == Count(t, sessionId) - if t[k].sessionId == sessionId then 1 else 0
  {
    var all := SessionKeys(t, sessionId);
    assert SessionKeys(t - {k}, sessionId) == all - {k};
  }
}

/** The store that holds the leases: nested maps and a counter per session. */
module LockStore {
  import opened Wrappers
  import opened Leases

  type Locks = map<string, map<string, BlockLock>>

  ghost function Flatten(locks: Locks): (t: Table) {
    map n, b | n in locks && b in locks[n] :: Key(n, b) := locks[n][b]
  }

  lemma InFlatten(locks: Locks, k: Key)
    ensures k in Flatten(locks) <==> k.note in locks && k.block in locks[k.note]
    ensures k in Flatten(locks) ==> Flatten(locks)[k] == locks[k.note][k.block]
  {
    assert k == Key(k.note, k.block);
  }

  lemma FlattenPut(locks: Locks, lock: BlockLock)
    requires lock.noteId in locks
    ensures Flatten(locks[lock.noteId := locks[lock.noteId][lock.blockId := lock]])
         == Flatten(locks)[lock.Place() := lock]
  {
    hide Flatten;
    var after := locks[lock.noteId := locks[lock.noteId][lock.blockId := lock]];
    forall k ensures k in Flatten(after) <==> k in Flatten(locks)[lock.Place() := lock]
             ensures k in Flatten(after) ==> Flatten(after)[k] == Flatten(locks)[lock.Place() := lock][k] {
      InFlatten(locks, k);
      InFlatten(after, k);
    }
    assert Flatten(after) == Flatten(locks)[lock.Place() := lock];
  }

  lemma FlattenEmptyNote(locks: Locks, note: string)
    requires note !in locks
    ensures Flatten(locks[note := map[]]) == Flatten(locks)
  {
    hide Flatten;
    forall k ensures k in Flatten(locks[note := map[]]) <==> k in Flatten(locks)
             ensures k in Flatten(locks) ==> Flatten(locks[note := map[]])[k] == Flatten(locks)[k] {
      InFlatten(locks, k);
      InFlatten(locks[note := map[]], k);
    }
    assert Flatten(locks[note := map[]]) == Flatten(locks);
  }

  function Without(locks: Locks, note: string, block: string): Locks {
    if note !in locks then locks
    else
      var blocks := locks[note] - {block};
      if blocks == map[] then locks - {note} else locks[note := blocks]
  }

  lemma FlattenWithout(locks: Locks, note: string, block: string)
    ensures Flatten(Without(locks, note, block)) == Flatten(locks) - {Key(note, block)}
  {
    hide Flatten;
    var after := Without(locks, note, block);
    forall k ensures k in Flatten(after) <==> k in Flatten(locks) - {Key(note, block)}
             ensures k in Flatten(after) ==> Flatten(after)[k] == Flatten(locks)[k] {
      InFlatten(locks, k);
      InFlatten(after, k);
      if k.note == note && note in locks {
        assert k.block in locks[note] - {block} <==> k.block in locks[note] && k.block != block;
      }
    }
    assert Flatten(after) == Flatten(locks) - {Key(note, block)};
  }

  /** The counters hold exactly the sessions with a lease, each with its recount. */
  ghost predicate Accounts(perSession: map<string, int>, t: Table) {
    && (forall s | s in perSession :: perSession[s] == Count(t, s) > 0)
    && (forall s :: s !in perSession ==> Count(t, s) == 0)
  }

  function Decremented(perSession: map<string, int>, sessionId: string): map<string, int> {
    if sessionId !in perSession || perSession[sessionId] <= 1 then perSession - {sessionId}
    else perSession[sessionId := perSession[sessionId] - 1]
  }

  lemma AccountsAfterRemove(perSession: map<string, int>, t: Table, k: Key)
    requires Accounts(perSession, t) && k in t
    ensures Accounts(Decremented(perSession, t[k].sessionId), t - {k})
  {
    var after := Decremented(perSession, t[k].sessionId);
    forall s ensures if s in after then after[s] == Count(t - {k}, s) > 0 else Count(t - {k}, s) == 0 {
      CountAfterRemove(t, k, s);
    }
  }

  lemma AccountsAfterPut(perSession: map<string, int>, t: Table, lock: BlockLock)
    requires lock.Place() !in t && Accounts(perSession, t)
    ensures var s := lock.sessionId;
            Accounts(perSession[s := (if s in perSession then perSession[s] else 0) + 1], t[lock.Place() := lock])
  {
    var s := lock.sessionId;
    var after := perSession[s := (if s in perSession then perSession[s] else 0) + 1];
    var k := lock.Place();
    assert t - {k} == t;
    forall r ensures if r in after then after[r] == Count(t[k := lock], r) > 0 else Count(t[k := lock], r) == 0 {
      CountAfterPut(t, k, lock, r);
    }
  }

  /** `list` names, once each, the leases that `before` holds under `keys`. */
  ghost predicate Lists(list: seq<BlockLock>, before: Table, keys: set<Key>)
    requires keys <= before.Keys
  {
    && |list| == |keys|
    && (forall l | l in list :: l.Place() in keys && before[l.Place()] == l)
    && (forall k | k in keys :: before[k] in list)
  }

  lemma ListsOneMore(list: seq<BlockLock>, before: Table, keys: set<Key>, k: Key)
    requires Keyed(before) && keys <= before.Keys && k in before && k !in keys
    requires Lists(list, before, keys)
    ensures Lists(list + [before[k]], before, keys + {k})
  {
  }

  // The two deleting loops walk the notes and, inside one note, its blocks.

  /** `t` is `before` after the `gone` part of the `doomed` leases was removed and listed. */
  ghost predicate Pruning(t: Table, before: Table, doomed: set<Key>, gone: set<Key>, list: seq<BlockLock>) {
    Keyed(before) && gone <= doomed <= before.Keys && t == before - gone && Lists(list, before, gone)
  }

  /** Every doomed lease still stored lies in a note that is yet to be visited. */
  ghost predicate Ahead(doomed: set<Key>, t: Table, notes: set<string>) {
    forall k | k in doomed && k in t :: k.note in notes
  }

  /** The same in the middle of the note `noteId`, of which `blocks` are left. */
  ghost predicate AheadIn(doomed: set<Key>, t: Table, notes: set<string>, noteId: string, blocks: set<string>) {
    && Ahead(doomed, t, notes)
    && (forall b | b in blocks :: Key(noteId, b) in t)
    && (forall k | k in doomed && k in t && k.note == noteId :: k.block in blocks)
  }

  lemma PruningStarts(locks: Locks, doomed: set<Key>)
    requires Keyed(Flatten(locks)) && doomed <= Flatten(locks).Keys
    ensures Pruning(Flatten(locks), Flatten(locks), doomed, {}, [])
    ensures Ahead(doomed, Flatten(locks), locks.Keys)
  {
    assert Flatten(locks) - {} == Flatten(locks);
  }

  lemma PruningStored(t: Table, before: Table, doomed: set<Key>, gone: set<Key>, list: seq<BlockLock>, k: Key)
    requires Pruning(t, before, doomed, gone, list) && k in t
    ensures k in before && t[k] == before[k]
  {
  }

  lemma PruningStep(t: Table, before: Table, doomed: set<Key>, gone: set<Key>, list: seq<BlockLock>, k: Key)
    requires Pruning(t, before, doomed, gone, list) && k in t && k in doomed
    ensures Pruning(t - {k}, before, doomed, gone + {k}, list + [t[k]])
  {
    hide Lists;
    ListsOneMore(list, before, gone, k);
    assert t - {k} == before - (gone + {k});
  }

  lemma PruningEnds(t: Table, before: Table, doomed: set<Key>, gone: set<Key>, list: seq<BlockLock>)
    requires Pruning(t, before, doomed, gone, list) && Ahead(doomed, t, {})
    ensures doomed <= before.Keys && t == before - doomed && Lists(list, before, doomed)
  {
    assert gone == doomed;
  }

  lemma NoteStarts(locks: Locks, doomed: set<Key>, notes: set<string>, noteId: string)
    requires Ahead(doomed, Flatten(locks), notes)
    ensures AheadIn(doomed, Flatten(locks), notes, noteId, if noteId in locks then locks[noteId].Keys else {})
  {
  }

  lemma AheadStep(doomed: set<Key>, t: Table, notes: set<string>, noteId: string, blocks: set<string>, blockId: string)
    requires AheadIn(doomed, t, notes, noteId, blocks) && blockId in blocks
    ensures Key(noteId, blockId) in t
    ensures AheadIn(doomed, t - {Key(noteId, blockId)}, notes, noteId, blocks - {blockId})
    ensures Key(noteId, blockId) !in doomed ==> AheadIn(doomed, t, notes, noteId, blocks - {blockId})
  {
  }

  lemma NoteDone(doomed: set<Key>, t: Table, notes: set<string>, noteId: string)
    requires AheadIn(doomed, t, notes, noteId, {})
    ensures Ahead(doomed, t, notes - {noteId})
  {
  }

  class MemoryLockStore {
    var locks: Locks
    var perSession: map<string, int>

    ghost function Table(): Table
      reads this
    {
      Flatten(locks)
    }

    ghost predicate Valid()
      reads this
    {
      Keyed(Table()) && Accounts(perSession, Table())
    }

    constructor ()
      ensures Valid() && Table() == map[]
    {
      locks, perSession := map[], map[];
    }

    method Acquire(lock: BlockLock, maxPerSession: int, now: int) returns (outcome: AcquireOutcome)
      requires Valid()
      modifies this
      ensures Valid()
      ensures (Table(), outcome) == Leases.Acquire(old(Table()), lock, maxPerSession, now)
    {
      hide Flatten, Accounts, Count;
      InFlatten(locks, lock.Place());
      if lock.noteId !in locks {
        FlattenEmptyNote(locks, lock.noteId);
        locks := locks[lock.noteId := map[]];
      }
      var blocks := locks[lock.noteId];
      var held := lock.blockId in blocks;
      var reacquiring := held && blocks[lock.blockId].connectionId == lock.connectionId;
      if held && !reacquiring && !blocks[lock.blockId].IsExpired(now) {
        return AcquireOutcome(None, Some(blocks[lock.blockId]), Some(HeldByOther));
      }
      var used := if lock.sessionId in perSession then perSession[lock.sessionId] else 0;
      AccountsRead(perSession, Table(), lock.sessionId);
      if !reacquiring && maxPerSession > 0 && used >= maxPerSession {
        return AcquireOutcome(None, None, Some(TooManyLocks));
      }
      ghost var before, rest := Table(), Table() - {lock.Place()};
      if held {
        AccountsAfterRemove(perSession, before, lock.Place());
        DecrementLocked(blocks[lock.blockId].sessionId);
      }
      assert Accounts(perSession, rest) by {
        if !held {
          assert rest == before;
        }
      }
      AccountsAfterPut(perSession, rest, lock);
      assert rest[lock.Place() := lock] == before[lock.Place() := lock];
      FlattenPut(locks, lock);
      locks := locks[lock.noteId := blocks[lock.blockId := lock]];
      perSession := perSession[lock.sessionId :=
        (if lock.sessionId in perSession then perSession[lock.sessionId] else 0) + 1];
      outcome := AcquireOutcome(Some(lock), None, None);
    }

    method Renew(noteId: string, blockId: string, lockId: string, connectionId: string, expiresAt: int, now: int)
      returns (result: LockResult)
      requires Valid()
      modifies this
      ensures Valid()
      ensures (Table(), result)
           == Leases.Renew(old(Table()), Key(noteId, blockId), lockId, connectionId, expiresAt, now)
    {
      hide Flatten, Accounts;
      ghost var k := Key(noteId, blockId);
      InFlatten(locks, k);
      if noteId !in locks || blockId !in locks[noteId] {
        return Failure(NotFound);
      }
      var existing := locks[noteId][blockId];
      if existing.IsExpired(now) {
        return Failure(NotFound);
      }
      if existing.lockId != lockId || existing.connectionId != connectionId {
        return Failure(NotHeld);
      }
      var renewed := existing.(expiresAt := expiresAt);
      FlattenPut(locks, renewed);
      AccountsAfterRenewal(perSession, Table(), k, expiresAt);
      locks := locks[noteId := locks[noteId][blockId := renewed]];
      result := Success(renewed);
    }

    method Release(noteId: string, blockId: string, lockId: string, connectionId: string)
      returns (result: LockResult)
      requires Valid()
      modifies this
      ensures Valid()
      ensures (Table(), result) == Leases.Release(old(Table()), Key(noteId, blockId), lockId, connectionId)
    {
      hide Flatten, Accounts;
      InFlatten(locks, Key(noteId, blockId));
      if noteId !in locks {
        return Failure(NotFound);
      }
      if blockId !in locks[noteId] {
        return Failure(NotFound);
      }
      var existing := locks[noteId][blockId];
      if existing.lockId != lockId || existing.connectionId != connectionId {
        return Failure(NotHeld);
      }
      RemoveLocked(noteId, blockId, existing);
      result := Success(existing);
    }

    method ReleaseAllForConnection(connectionId: string) returns (released: seq<BlockLock>)
      requires Valid()
      modifies this
      ensures Valid()
      ensures Table() == old(Table()) - HeldBy(old(Table()), connectionId)
      ensures Lists(released, old(Table()), HeldBy(old(Table()), connectionId))
    {
      hide Flatten, Accounts, Keyed, Lists, HeldBy, Pruning, Ahead, AheadIn;
      ghost var before := Table();
      ghost var doomed := HeldBy(before, connectionId);
      ghost var gone: set<Key> := {};
      released := [];
      var notes := locks.Keys;
      InHeldBy(before, connectionId);
      PruningStarts(locks, doomed);
      while notes != {}
        invariant Valid() && Pruning(Table(), before, doomed, gone, released) && Ahead(doomed, Table(), notes)
        decreases |notes|
      {
        var noteId :| noteId in notes;
        var blocks := if noteId in locks then locks[noteId].Keys else {};
        NoteStarts(locks, doomed, notes, noteId);
        while blocks != {}
          invariant Valid() && Pruning(Table(), before, doomed, gone, released)
          invariant AheadIn(doomed, Table(), notes, noteId, blocks)
          decreases |blocks|
        {
          var blockId :| blockId in blocks;
          ghost var k := Key(noteId, blockId);
          AheadStep(doomed, Table(), notes, noteId, blocks, blockId);
          InFlatten(locks, k);
          PruningStored(Table(), before, doomed, gone, released, k);
          var lock := locks[noteId][blockId];
          if lock.connectionId == connectionId {
            PruningStep(Table(), before, doomed, gone, released, k);
            released := released + [lock];
            RemoveLocked(noteId, blockId, lock);
            gone := gone + {k};
          }
          blocks := blocks - {blockId};
        }
        NoteDone(doomed, Table(), notes, noteId);
        notes := notes - {noteId};
      }
      PruningEnds(Table(), before, doomed, gone, released);
    }

    method SweepExpired(now: int) returns (expired: seq<BlockLock>)
      requires Valid()
      modifies this
      ensures Valid()
      ensures Table() == old(Table()) - Lapsed(old(Table()), now)
      ensures Lists(expired, old(Table()), Lapsed(old(Table()), now))
    {
      hide Flatten, Accounts, Keyed, Lists, Lapsed, Pruning, Ahead, AheadIn;
      ghost var before := Table();
      ghost var doomed := Lapsed(before, now);
      ghost var gone: set<Key> := {};
      expired := [];
      var notes := locks.Keys;
      InLapsed(before, now);
      PruningStarts(locks, doomed);
      while notes != {}
        invariant Valid() && Pruning(Table(), before, doomed, gone, expired) && Ahead(doomed, Table(), notes)
        decreases |notes|
      {
        var noteId :| noteId in notes;
        var blocks := if noteId in locks then locks[noteId].Keys else {};
        NoteStarts(locks, doomed, notes, noteId);
        while blocks != {}
          invariant Valid() && Pruning(Table(), before, doomed, gone, expired)
          invariant AheadIn(doomed, Table(), notes, noteId, blocks)
          decreases |blocks|
        {
          var blockId :| blockId in blocks;
          ghost var k := Key(noteId, blockId);
          AheadStep(doomed, Table(), notes, noteId, blocks, blockId);
          InFlatten(locks, k);
          PruningStored(Table(), before, doomed, gone, expired, k);
          var lock := locks[noteId][blockId];
          if lock.IsExpired(now) {
            PruningStep(Table(), before, doomed, gone, expired, k);
            expired := expired + [lock];
            RemoveLocked(noteId, blockId, lock);
            gone := gone + {k};
          }
          blocks := blocks - {blockId};
        }
        NoteDone(doomed, Table(), notes, noteId);
        notes := notes - {noteId};
      }
      PruningEnds(Table(), before, doomed, gone, expired);
    }

    method Holder(noteId: string, blockId: string, now: int) returns (holder: Option<BlockLock>)
      ensures holder == Leases.Holder(Table(), Key(noteId, blockId), now)
    {
      InFlatten(locks, Key(noteId, blockId));
      if noteId !in locks || blockId !in locks[noteId] || locks[noteId][blockId].IsExpired(now) {
        return None;
      }
      holder := Some(locks[noteId][blockId]);
    }

    method RemoveLocked(noteId: string, blockId: string, lock: BlockLock)
      requires Valid()
      requires Key(noteId, blockId) in Table() && Table()[Key(noteId, blockId)] == lock
      modifies this
      ensures Valid() && Table() == old(Table()) - {Key(noteId, blockId)}
    {
      hide Flatten, Accounts;
      ghost var k := Key(noteId, blockId);
      InFlatten(locks, k);
      FlattenWithout(locks, noteId, blockId);
      AccountsAfterRemove(perSession, Table(), k);
      locks := locks[noteId := locks[noteId] - {blockId}];
      if locks[noteId] == map[] {
        locks := locks - {noteId};
      }
      assert locks == Without(old(locks), noteId, blockId);
      DecrementLocked(lock.sessionId);
    }

    method DecrementLocked(sessionId: string)
      modifies this`perSession
      ensures perSession == Decremented(old(perSession), sessionId)
    {
      if (if sessionId in perSession then perSession[sessionId] else 0) <= 1 {
        perSession := perSession - {sessionId};
        return;
      }
      perSession := perSession[sessionId := perSession[sessionId] - 1];
    }
  }

  lemma AccountsRead(perSession: map<string, int>, t: Table, s: string)
    requires Accounts(perSession, t)
    ensures (if s in perSession then perSession[s] else 0) == Count(t, s)
  {
  }

  lemma AccountsAfterRenewal(perSession: map<string, int>, t: Table, k: Key, expiresAt: int)
    requires Accounts(perSession, t) && k in t
    ensures Accounts(perSession, t[k := t[k].(expiresAt := expiresAt)])
  {
    var after := t[k := t[k].(expiresAt := expiresAt)];
    forall s ensures Count(after, s) == Count(t, s) {
      assert SessionKeys(after, s) == SessionKeys(t, s);
    }
  }

  lemma InHeldBy(t: Table, connectionId: string)
    ensures HeldBy(t, connectionId) <= t.Keys
    ensures forall k | k in t :: k in HeldBy(t, connectionId) <==> t[k].connectionId == connectionId
  {
  }

  lemma InLapsed(t: Table, now: int)
    ensures Lapsed(t, now) <= t.Keys
    ensures forall k | k in t :: k in Lapsed(t, now) <==> t[k].IsExpired(now)
  {
  }
}
