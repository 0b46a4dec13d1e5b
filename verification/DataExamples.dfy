/** Runs that show the harms of the other modules happen. */
module DataExamples {
  import opened Wrappers
  import opened WaitForGraph
  import opened LockTables
  import opened Transactions
  import opened Interleaving
  import opened DataRuns
  import opened DataInvariant
  import opened DataResults

  // ---- Building runs --------------------------------------------------------------------

  lemma RunOn(w: World, events: seq<Event>, event: Event)
    ensures Run(w, events + [event]) == Act(Run(w, events), event)
  {
    hide Act;
    assert (events + [event])[..|events|] == events;
  }

  /** `t` is unknown, and nothing stands in the way of its first lock. */
  ghost predicate CanStart(s: Sys, t: TxnId, key: Key) {
    s.guard == None && t !in s.pending && key.modality in MODALITIES && HoldersOf(s.m.table, key) == []
  }

  /** `t` began and holds `key`; all else is as before. */
  ghost predicate Started(s: Sys, s': Sys, t: TxnId, level: Isolation, key: Key, kind: LockType) {
    && s'.guard == None && s'.log == s.log && s'.m.versions == s.m.versions
    && s'.pending == s.pending[t := Idle]
    && s'.m.txns == s.m.txns[t := Txn(Active, level, [], [LockEntry(key, kind)], [])]
    && s'.m.table.locks == s.m.table.locks[key := [LockInfo(t, kind)]]
  }

  lemma BeginStep(s: Sys, t: TxnId, level: Isolation)
    requires s.guard == None && t !in s.pending
    ensures var s' := Do(s, Begin(t, level));
      && s'.guard == None && s'.log == s.log && s'.m == s.m.(txns := s.m.txns[t := NewTxn(level)]) && s'.pending == s.pending[t := Idle]
  {
  }

  lemma LockSteps(s: Sys, t: TxnId, level: Isolation, key: Key, kind: LockType)
    requires s.guard == None && t in s.pending && s.pending[t] == Idle && key.modality in MODALITIES
    requires t in s.m.txns && s.m.txns[t] == NewTxn(level) && HoldersOf(s.m.table, key) == []
    ensures var s' := Do(Do(Do(s, CheckForLock(t, key, kind)), TakeLock(t)), NoteLock(t));
      && s'.guard == None && s'.log == s.log && s'.m.versions == s.m.versions && s'.pending == s.pending
      && s'.m.txns == s.m.txns[t := Txn(Active, level, [], [LockEntry(key, kind)], [])]
      && s'.m.table.locks == s.m.table.locks[key := [LockInfo(t, kind)]]
  {
    var s1 := Do(s, CheckForLock(t, key, kind));
    assert s1 == Interleaving.Move(s, t, Checked(key, kind));
    assert Decide([], t, kind) == Grant && Without([], t) == [];
    var s2 := Do(s1, TakeLock(t));
    assert s2.pending[t] == Taken(key, kind) && s2.m.table.locks == s.m.table.locks[key := [] + [LockInfo(t, kind)]];
    assert [] + [LockInfo(t, kind)] == [LockInfo(t, kind)];
    assert DropKey([], key) == [];
    assert [] + [LockEntry(key, kind)] == [LockEntry(key, kind)];
  }

  function StartEvents(t: TxnId, level: Isolation, key: Key, kind: LockType): seq<Event> {
    [Manage(Begin(t, level)), Manage(CheckForLock(t, key, kind)), Manage(TakeLock(t)), Manage(NoteLock(t))]
  }

  lemma StartRun(w: World, events: seq<Event>, t: TxnId, level: Isolation, key: Key, kind: LockType)
    requires CanStart(Run(w, events).sys, t, key)
    ensures var (before, after) := (Run(w, events), Run(w, events + StartEvents(t, level, key, kind)));
      Started(before.sys, after.sys, t, level, key, kind) && after == before.(sys := after.sys)
  {
    hide Do, Run;
    var s := Run(w, events).sys;
    var e0, e1, e2, e3 := Manage(Begin(t, level)), Manage(CheckForLock(t, key, kind)), Manage(TakeLock(t)), Manage(NoteLock(t));
    RunOn(w, events, e0);
    RunOn(w, events + [e0], e1);
    RunOn(w, events + [e0] + [e1], e2);
    RunOn(w, events + [e0] + [e1] + [e2], e3);
    assert events + StartEvents(t, level, key, kind) == events + [e0] + [e1] + [e2] + [e3];
    BeginStep(s, t, level);
    LockSteps(Do(s, Begin(t, level)), t, level, key, kind);
  }

  // ---- Single steps of these runs ----------------------------------------------------------

  /** The transaction is ready, holds `key` for writing, and has the given log and stamps. */
  ghost predicate At(s: Sys, t: TxnId, txn: Txn) {
    s.guard == None && t in s.pending && s.pending[t] == Idle && t in s.m.txns && s.m.txns[t] == txn && txn.state == Active
  }

  /** Nothing but `t`'s record changed. */
  ghost predicate OnlyTxn(s: Sys, s': Sys, t: TxnId, txn: Txn) {
    && s'.m.txns == s.m.txns[t := txn] && s'.m.table == s.m.table && s'.m.versions == s.m.versions
    && s'.log == s.log && s'.pending == s.pending && s'.guard == s.guard
  }

  lemma WriteStep(w: World, t: TxnId, txn: Txn, key: Key, value: Option<Bytes>)
    requires At(w.sys, t, txn) && key.modality in MODALITIES && HoldersOf(w.sys.m.table, key) == [LockInfo(t, Exclusive)]
    ensures var w' := Act(w, WriteData(t, key, value, 0));
      && OnlyTxn(w.sys, w'.sys, t, txn.(undoLog := txn.undoLog + [UndoEntry(key, Lookup(w.store, key), 0)]))
      && w'.store == Put(w.store, key, value) && w'.ops == w.ops[t := OpsOf(w, t) + [Write(key, value)]]
      && w' == w.(sys := w'.sys, store := w'.store, ops := w'.ops)
  {
    assert CanWrite(w.sys, t, key);
  }

  lemma StampSteps(w: World, t: TxnId, txn: Txn, key: Key)
    requires At(w.sys, t, txn) && key.modality in MODALITIES
    ensures var w' := Act(Act(w, Stamp(t, key)), Manage(NoteRead(t)));
      && OnlyTxn(w.sys, w'.sys, t, txn.(readSet := txn.readSet + [ReadStamp(key, VersionOf(w.sys.m.versions, key))]))
      && w' == w.(sys := w'.sys)
  {
    var stamp := ReadStamp(key, VersionOf(w.sys.m.versions, key));
    assert Do(w.sys, ReadVersion(t, key)) == Interleaving.Move(w.sys, t, Seen(stamp, |w.sys.log|));
    assert w.sys.pending[t := Seen(stamp, |w.sys.log|)][t := Idle] == w.sys.pending;
  }

  lemma ReadStep(w: World, t: TxnId, txn: Txn, key: Key, version: nat)
    requires At(w.sys, t, txn) && txn.level == Serializable && ReadStamp(key, version) in txn.readSet
    ensures var w' := Act(w, ReadData(t, key));
      && w'.ops == w.ops[t := OpsOf(w, t) + [Read(key, Lookup(w.store, key))]]
      && w' == w.(ops := w'.ops, dirty := w'.dirty)
  {
    assert StampedIn(txn, key);
  }

  lemma CommitSteps(w: World, t: TxnId, txn: Txn)
    requires At(w.sys, t, txn) && !FailsValidation(w.sys.m, t)
    ensures var w' := Act(Act(w, Commit(t)), Manage(Release));
      && w'.sys.guard == None && w'.sys.pending == w.sys.pending && w'.sys.m.table == AfterRelease(w.sys.m.table, t)
      && w'.sys.m.txns == w.sys.m.txns[t := txn.(state := TxnState.Committed)]
      && w'.sys.m.versions == IncrementAll(w.sys.m.versions, txn.undoLog)
      && |w'.sys.log| == |w.sys.log| + 1 && w'.sys.log[|w.sys.log|].level == txn.level
      && w'.history == w.history + [OpsOf(w, t)] && w' == w.(sys := w'.sys, history := w'.history)
  {
    hide AfterRelease, IncrementAll, FailsValidation;
  }

  lemma RollbackSteps(w: World, t: TxnId, txn: Txn)
    requires At(w.sys, t, txn)
    ensures var w' := Act(Act(w, Rollback(t)), Manage(Release));
      && w'.sys.guard == None && w'.sys.pending == w.sys.pending && w'.sys.m.table == AfterRelease(w.sys.m.table, t)
      && w'.sys.m.txns == w.sys.m.txns[t := txn.(state := RolledBack)] && w'.sys.m.versions == w.sys.m.versions
      && w'.sys.log == w.sys.log && w'.owed == w.owed[t := txn.undoLog] && w' == w.(sys := w'.sys, owed := w'.owed)
  {
    hide AfterRelease;
  }

  lemma AbortSteps(w: World, t: TxnId, txn: Txn)
    requires At(w.sys, t, txn)
    ensures var w' := Act(Act(w, Abort(t)), Manage(Release));
      && w'.sys.guard == None && w'.sys.pending == w.sys.pending && w'.sys.m.table == AfterRelease(w.sys.m.table, t)
      && w'.sys.m.txns == w.sys.m.txns[t := txn.(state := RolledBack)] && w'.sys.m.versions == w.sys.m.versions
      && w'.sys.log == w.sys.log && w'.store == ApplyUndo(w.store, Newest(txn.undoLog))
      && w' == w.(sys := w'.sys, store := w'.store)
  {
    hide AfterRelease, ApplyUndo, Newest;
  }

  /** Stamps at the current versions pass validation; a stale first one does not. */
  lemma OneStamp(m: Manager, t: TxnId, key: Key, version: nat)
    requires t in m.txns && m.txns[t].level == Serializable && m.txns[t].readSet == [ReadStamp(key, version)]
    ensures FailsValidation(m, t) <==> VersionOf(m.versions, key) != version
  {
  }

  lemma RunOnTwo(w: World, events: seq<Event>, a: Event, b: Event)
    ensures Run(w, events + [a, b]) == Act(Act(Run(w, events), a), b)
  {
    hide Run, Act;
    RunOn(w, events, a);
    RunOn(w, events + [a], b);
    assert events + [a, b] == events + [a] + [b];
  }

  // ---- A validated read of data that is then undone -----------------------------------------

  /** One transaction writes and rolls back; its list is applied only after another has read, validated, and committed. */
  function LateUndoRun(key: Key, value: Bytes): seq<Event> {
    StartEvents(1, ReadCommitted, key, Exclusive) + [WriteData(1, key, Some(value), 0)] + [Rollback(1), Manage(Release)]
    + StartEvents(2, Serializable, key, Shared) + [Stamp(2, key), Manage(NoteRead(2))] + [ReadData(2, key)]
    + [Commit(2), Manage(Release)] + [ApplyEntry(1)]
  }

  /** After the write: the first transaction holds the key for writing and has logged what was there. */
  lemma WriterRun(versions: Versions, base: Store, key: Key, value: Bytes)
    requires key.modality in MODALITIES
    ensures var (w, txn) := (
        Run(Fresh(versions, base), StartEvents(1, ReadCommitted, key, Exclusive) + [WriteData(1, key, Some(value), 0)]),
        Txn(Active, ReadCommitted, [UndoEntry(key, Lookup(base, key), 0)], [LockEntry(key, Exclusive)], []));
      && At(w.sys, 1, txn) && w.sys.pending == map[1 := Idle] && w.sys.m.versions == versions && w.sys.log == []
      && w.sys.m.table.locks == map[key := [LockInfo(1, Exclusive)]] && w.sys.m.txns == map[1 := txn]
      && w.store == Put(base, key, Some(value)) && w.ops == map[1 := [Write(key, Some(value))]]
      && w.base == base && w.history == [] && w.owed == map[] && w.lost == {} && w.dirty == {}
  {
    hide Act, Do;
    var w0 := Fresh(versions, base);
    var start := StartEvents(1, ReadCommitted, key, Exclusive);
    assert [] + start == start && Run(w0, []) == w0;
    StartRun(w0, [], 1, ReadCommitted, key, Exclusive);
    var w1 := Run(w0, start);
    WriteStep(w1, 1, Txn(Active, ReadCommitted, [], [LockEntry(key, Exclusive)], []), key, Some(value));
    RunOn(w0, start, WriteData(1, key, Some(value), 0));
    assert [] + [Write(key, Some(value))] == [Write(key, Some(value))];
  }

  /** Once the only lock is released, the key is free. */
  lemma ReleasedKeyIsFree(tb: Table, t: TxnId, key: Key, kind: LockType)
    requires HoldersOf(tb, key) == [LockInfo(t, kind)]
    ensures HoldersOf(AfterRelease(tb, t), key) == []
  {
    assert Without([LockInfo(t, kind)], t) == Without([], t) by {
      assert [LockInfo(t, kind)][1..] == [];
    }
  }

  lemma LateUndoReader(versions: Versions, base: Store, key: Key, value: Bytes)
    requires key.modality in MODALITIES
    ensures var w := Run(Fresh(versions, base),
        StartEvents(1, ReadCommitted, key, Exclusive) + [WriteData(1, key, Some(value), 0)] + [Rollback(1), Manage(Release)]
        + StartEvents(2, Serializable, key, Shared));
      var txn := Txn(Active, Serializable, [], [LockEntry(key, Shared)], []);
      && At(w.sys, 2, txn) && w.sys.m.versions == versions && w.sys.log == []
      && w.store == Put(base, key, Some(value)) && OpsOf(w, 2) == [] && w.base == base && w.history == []
      && w.owed == map[1 := [UndoEntry(key, Lookup(base, key), 0)]] && w.lost == {}
  {
    hide Act, Do, AfterRelease;
    var w0 := Fresh(versions, base);
    var e1 := StartEvents(1, ReadCommitted, key, Exclusive) + [WriteData(1, key, Some(value), 0)];
    WriterRun(versions, base, key, value);
    var w1 := Run(w0, e1);
    RollbackSteps(w1, 1, w1.sys.m.txns[1]);
    RunOnTwo(w0, e1, Rollback(1), Manage(Release));
    ReleasedKeyIsFree(w1.sys.m.table, 1, key, Exclusive);
    StartRun(w0, e1 + [Rollback(1), Manage(Release)], 2, Serializable, key, Shared);
  }

  /**
   * The second transaction's only read is validated and committed, and is of
   * data that no serial execution shows: applying the list afterwards takes it
   * back, although nobody wrote the key in between.
   */
  lemma LateUndoBreaksReader(versions: Versions, base: Store, key: Key, value: Bytes)
    requires key.modality in MODALITIES && Lookup(base, key) != Some(value)
    ensures var w := Run(Fresh(versions, base), LateUndoRun(key, value));
      && w.history == [[Read(key, Some(value))]] && |w.sys.log| == 1 && w.sys.log[0].level == Serializable
      && !Legal(base, w.history[0]) && Lookup(w.store, key) == Lookup(base, key)
  {
    hide Act, Do, AfterRelease, IncrementAll;
    var w0 := Fresh(versions, base);
    var e1 := StartEvents(1, ReadCommitted, key, Exclusive) + [WriteData(1, key, Some(value), 0)] + [Rollback(1), Manage(Release)]
              + StartEvents(2, Serializable, key, Shared);
    LateUndoReader(versions, base, key, value);
    var w1 := Run(w0, e1);
    var txn := w1.sys.m.txns[2];
    StampSteps(w1, 2, txn, key);
    RunOnTwo(w0, e1, Stamp(2, key), Manage(NoteRead(2)));
    var e2 := e1 + [Stamp(2, key), Manage(NoteRead(2))];
    var w2 := Run(w0, e2);
    var stamped := w2.sys.m.txns[2];
    assert stamped.readSet == [ReadStamp(key, VersionOf(versions, key))];
    ReadStep(w2, 2, stamped, key, VersionOf(versions, key));
    RunOn(w0, e2, ReadData(2, key));
    var w3 := Run(w0, e2 + [ReadData(2, key)]);
    OneStamp(w3.sys.m, 2, key, VersionOf(versions, key));
    CommitSteps(w3, 2, stamped);
    RunOnTwo(w0, e2 + [ReadData(2, key)], Commit(2), Manage(Release));
    var e4 := e2 + [ReadData(2, key)] + [Commit(2), Manage(Release)];
    var w4 := Run(w0, e4);
    RunOn(w0, e4, ApplyEntry(1));
    assert e4 + [ApplyEntry(1)] == LateUndoRun(key, value);
    ApplyStep(w4, 1, key, Lookup(base, key));
    ReadIsIllegal(base, key, value);
    assert [] + [Read(key, Some(value))] == [Read(key, Some(value))];
    assert [] + [[Read(key, Some(value))]] == [[Read(key, Some(value))]];
  }

  lemma ApplyStep(w: World, t: TxnId, key: Key, before: Option<Bytes>)
    requires w.owed == map[t := [UndoEntry(key, before, 0)]] && w.lost == {} && w.sys.guard == None
    ensures var w' := Act(w, ApplyEntry(t)); Lookup(w'.store, key) == before && w'.history == w.history && w'.sys == w.sys
  {
    UndoRestoresOldest(w.store, w.owed[t], key);
  }

  lemma ReadIsIllegal(base: Store, key: Key, value: Bytes)
    requires Lookup(base, key) != Some(value)
    ensures !Legal(base, [Read(key, Some(value))])
  {
    assert [Read(key, Some(value))][..0] == [];
  }

  // ---- A list applied half ----------------------------------------------------------------------

  /** One transaction writes twice, the second time what was there before, and rolls back; another reads between the two entries. */
  function HalfUndoneRun(key: Key, value: Bytes, before: Option<Bytes>): seq<Event> {
    StartEvents(1, ReadCommitted, key, Exclusive) + [WriteData(1, key, Some(value), 0)] + [WriteData(1, key, before, 0)]
    + [Rollback(1), Manage(Release)] + StartEvents(2, Serializable, key, Shared) + [ApplyEntry(1)]
    + [Stamp(2, key), Manage(NoteRead(2))] + [ReadData(2, key)] + [ApplyEntry(1)] + [Commit(2), Manage(Release)]
  }

  /** That run up to the grant to the reader. */
  function UntilGrant(key: Key, value: Bytes, before: Option<Bytes>): seq<Event> {
    StartEvents(1, ReadCommitted, key, Exclusive) + [WriteData(1, key, Some(value), 0)] + [WriteData(1, key, before, 0)]
    + [Rollback(1), Manage(Release)] + [Manage(Begin(2, Serializable)), Manage(CheckForLock(2, key, Shared))]
  }

  ghost predicate TwiceLogged(w: World, versions: Versions, base: Store, key: Key, value: Bytes) {
    && w.owed == map[1 := [UndoEntry(key, Lookup(base, key), 0), UndoEntry(key, Some(value), 0)]] && w.lost == {}
    && Lookup(w.store, key) == Lookup(base, key) && w.base == base && w.history == [] && OpsOf(w, 2) == []
    && w.sys.m.versions == versions && w.sys.log == [] && w.sys.guard == None
  }

  lemma TwiceRolledBack(versions: Versions, base: Store, key: Key, value: Bytes)
    requires key.modality in MODALITIES
    ensures var w := Run(Fresh(versions, base),
        StartEvents(1, ReadCommitted, key, Exclusive) + [WriteData(1, key, Some(value), 0)] + [WriteData(1, key, Lookup(base, key), 0)]
        + [Rollback(1), Manage(Release)]);
      TwiceLogged(w, versions, base, key, value) && CanStart(w.sys, 2, key)
  {
    hide Act, Do, AfterRelease;
    var w0 := Fresh(versions, base);
    var e1 := StartEvents(1, ReadCommitted, key, Exclusive) + [WriteData(1, key, Some(value), 0)];
    WriterRun(versions, base, key, value);
    var w1 := Run(w0, e1);
    WriteStep(w1, 1, w1.sys.m.txns[1], key, Lookup(base, key));
    RunOn(w0, e1, WriteData(1, key, Lookup(base, key), 0));
    var e2 := e1 + [WriteData(1, key, Lookup(base, key), 0)];
    var w2 := Run(w0, e2);
    assert [UndoEntry(key, Lookup(base, key), 0)] + [UndoEntry(key, Some(value), 0)]
        == [UndoEntry(key, Lookup(base, key), 0), UndoEntry(key, Some(value), 0)];
    RollbackSteps(w2, 1, w2.sys.m.txns[1]);
    RunOnTwo(w0, e2, Rollback(1), Manage(Release));
    ReleasedKeyIsFree(w2.sys.m.table, 1, key, Exclusive);
  }

  lemma CheckStep(s: Sys, t: TxnId, level: Isolation, key: Key, kind: LockType)
    requires s.guard == None && t in s.pending && s.pending[t] == Idle && key.modality in MODALITIES
    requires t in s.m.txns && s.m.txns[t] == NewTxn(level) && HoldersOf(s.m.table, key) == []
    ensures Do(s, CheckForLock(t, key, kind)) == Interleaving.Move(s, t, Checked(key, kind))
    ensures AboutToHold(Do(s, CheckForLock(t, key, kind)), t)
  {
    assert Decide([], t, kind) == Grant;
  }

  /** Reading between the two entries: what is stored at the grant is what the oldest entry restores, and yet the grant is dangerous. */
  lemma HalfUndoneGrant(versions: Versions, base: Store, key: Key, value: Bytes)
    requires key.modality in MODALITIES && Lookup(base, key) != Some(value)
    ensures var w := Run(Fresh(versions, base), UntilGrant(key, value, Lookup(base, key)));
      && AboutToHold(w.sys, 2) && w.sys.pending[2] == Checked(key, Shared)
      && 1 in w.owed && FirstLogged(w.owed[1], key) == Some(Lookup(w.store, key)) && Dangerous(w, key, Shared)
  {
    hide Act, Do, AfterRelease, AboutToHold;
    var w0 := Fresh(versions, base);
    var e1 := StartEvents(1, ReadCommitted, key, Exclusive) + [WriteData(1, key, Some(value), 0)] + [WriteData(1, key, Lookup(base, key), 0)]
              + [Rollback(1), Manage(Release)];
    TwiceRolledBack(versions, base, key, value);
    var w1 := Run(w0, e1);
    RunOnTwo(w0, e1, Manage(Begin(2, Serializable)), Manage(CheckForLock(2, key, Shared)));
    BeginAct(w1, 2);
    BeginStep(w1.sys, 2, Serializable);
    CheckStep(Act(w1, Manage(Begin(2, Serializable))).sys, 2, Serializable, key, Shared);
    CheckAct(Act(w1, Manage(Begin(2, Serializable))), 2, key, Shared);
    var w := Run(w0, UntilGrant(key, value, Lookup(base, key)));
    var e := UndoEntry(key, Some(value), 0);
    assert w.owed[1][1] == e && w.owed[1][0] == UndoEntry(key, Lookup(base, key), 0);
    assert e in w.owed[1];
  }

  lemma CheckAct(w: World, t: TxnId, key: Key, kind: LockType)
    ensures Act(w, Manage(CheckForLock(t, key, kind))) == w.(sys := Do(w.sys, CheckForLock(t, key, kind)))
  {
  }

  lemma ApplyOne(w: World, t: TxnId, older: seq<UndoEntry>, e: UndoEntry)
    requires w.owed == map[t := older + [e]] && w.lost == {} && w.sys.guard == None
    ensures Act(w, ApplyEntry(t)) == w.(store := Put(w.store, e.key, e.previousData), owed := map[t := older])
  {
    assert (older + [e])[..|older|] == older;
    assert w.owed[t := older] == map[t := older];
  }

  /** The reader, holding the key, after the first of the two entries. */
  lemma HalfUndoneReader(versions: Versions, base: Store, key: Key, value: Bytes)
    requires key.modality in MODALITIES
    ensures var w := Run(Fresh(versions, base),
        StartEvents(1, ReadCommitted, key, Exclusive) + [WriteData(1, key, Some(value), 0)] + [WriteData(1, key, Lookup(base, key), 0)]
        + [Rollback(1), Manage(Release)] + StartEvents(2, Serializable, key, Shared) + [ApplyEntry(1)]);
      && At(w.sys, 2, Txn(Active, Serializable, [], [LockEntry(key, Shared)], []))
      && w.owed == map[1 := [UndoEntry(key, Lookup(base, key), 0)]] && w.lost == {} && Lookup(w.store, key) == Some(value)
      && w.base == base && w.history == [] && OpsOf(w, 2) == [] && w.sys.m.versions == versions && w.sys.log == []
  {
    hide Act, Do, AfterRelease;
    var w0 := Fresh(versions, base);
    var e1 := StartEvents(1, ReadCommitted, key, Exclusive) + [WriteData(1, key, Some(value), 0)] + [WriteData(1, key, Lookup(base, key), 0)]
              + [Rollback(1), Manage(Release)];
    TwiceRolledBack(versions, base, key, value);
    StartRun(w0, e1, 2, Serializable, key, Shared);
    var e2 := e1 + StartEvents(2, Serializable, key, Shared);
    RunOn(w0, e2, ApplyEntry(1));
    assert [UndoEntry(key, Lookup(base, key), 0)] + [UndoEntry(key, Some(value), 0)]
        == [UndoEntry(key, Lookup(base, key), 0), UndoEntry(key, Some(value), 0)];
    ApplyOne(Run(w0, e2), 1, [UndoEntry(key, Lookup(base, key), 0)], UndoEntry(key, Some(value), 0));
  }

  /** The read between the entries is validated and committed, and no serial execution shows it. */
  lemma HalfUndoneBreaksReader(versions: Versions, base: Store, key: Key, value: Bytes)
    requires key.modality in MODALITIES && Lookup(base, key) != Some(value)
    ensures var w := Run(Fresh(versions, base), HalfUndoneRun(key, value, Lookup(base, key)));
      && w.history == [[Read(key, Some(value))]] && |w.sys.log| == 1 && w.sys.log[0].level == Serializable
      && !Legal(base, w.history[0]) && Lookup(w.store, key) == Lookup(base, key)
  {
    hide Act, Do, AfterRelease, IncrementAll;
    var w0 := Fresh(versions, base);
    var e1 := StartEvents(1, ReadCommitted, key, Exclusive) + [WriteData(1, key, Some(value), 0)] + [WriteData(1, key, Lookup(base, key), 0)]
              + [Rollback(1), Manage(Release)] + StartEvents(2, Serializable, key, Shared) + [ApplyEntry(1)];
    HalfUndoneReader(versions, base, key, value);
    var w1 := Run(w0, e1);
    StampSteps(w1, 2, w1.sys.m.txns[2], key);
    RunOnTwo(w0, e1, Stamp(2, key), Manage(NoteRead(2)));
    var e2 := e1 + [Stamp(2, key), Manage(NoteRead(2))];
    var w2 := Run(w0, e2);
    var stamped := w2.sys.m.txns[2];
    assert stamped.readSet == [ReadStamp(key, VersionOf(versions, key))];
    ReadStep(w2, 2, stamped, key, VersionOf(versions, key));
    RunOn(w0, e2, ReadData(2, key));
    var e3 := e2 + [ReadData(2, key)];
    var w3 := Run(w0, e3);
    RunOn(w0, e3, ApplyEntry(1));
    assert [] + [UndoEntry(key, Lookup(base, key), 0)] == [UndoEntry(key, Lookup(base, key), 0)];
    ApplyOne(w3, 1, [], UndoEntry(key, Lookup(base, key), 0));
    var e4 := e3 + [ApplyEntry(1)];
    var w4 := Run(w0, e4);
    OneStamp(w4.sys.m, 2, key, VersionOf(versions, key));
    CommitSteps(w4, 2, stamped);
    RunOnTwo(w0, e4, Commit(2), Manage(Release));
    assert e4 + [Commit(2), Manage(Release)] == HalfUndoneRun(key, value, Lookup(base, key));
    ReadIsIllegal(base, key, value);
    assert [] + [Read(key, Some(value))] == [Read(key, Some(value))];
    assert [] + [[Read(key, Some(value))]] == [[Read(key, Some(value))]];
  }

  // ---- A stamped read of uncommitted data ----------------------------------------------------

  /** A Serializable transaction stamps and reads without a lock what another wrote and then rolls back, even at once. */
  function DirtyStampRun(key: Key, value: Bytes): seq<Event> {
    StartEvents(1, ReadCommitted, key, Exclusive) + [WriteData(1, key, Some(value), 0)]
    + [Manage(Begin(2, Serializable))] + [Stamp(2, key), Manage(NoteRead(2))] + [ReadData(2, key)]
    + [Abort(1), Manage(Release)] + [Commit(2), Manage(Release)]
  }

  lemma DirtyStampReader(versions: Versions, base: Store, key: Key, value: Bytes)
    requires key.modality in MODALITIES
    ensures var w := Run(Fresh(versions, base),
        StartEvents(1, ReadCommitted, key, Exclusive) + [WriteData(1, key, Some(value), 0)]
        + [Manage(Begin(2, Serializable))] + [Stamp(2, key), Manage(NoteRead(2))] + [ReadData(2, key)]);
      var writer := Txn(Active, ReadCommitted, [UndoEntry(key, Lookup(base, key), 0)], [LockEntry(key, Exclusive)], []);
      && At(w.sys, 1, writer)
      && At(w.sys, 2, Txn(Active, Serializable, [], [], [ReadStamp(key, VersionOf(versions, key))]))
      && w.sys.m.versions == versions && w.sys.log == [] && w.history == [] && w.base == base
      && w.store == Put(base, key, Some(value)) && OpsOf(w, 2) == [Read(key, Some(value))]
  {
    hide Act, Do;
    var w0 := Fresh(versions, base);
    var e1 := StartEvents(1, ReadCommitted, key, Exclusive) + [WriteData(1, key, Some(value), 0)];
    WriterRun(versions, base, key, value);
    var w1 := Run(w0, e1);
    BeginStep(w1.sys, 2, Serializable);
    RunOn(w0, e1, Manage(Begin(2, Serializable)));
    var e2 := e1 + [Manage(Begin(2, Serializable))];
    var w2 := Run(w0, e2);
    BeginAct(w1, 2);
    StampSteps(w2, 2, NewTxn(Serializable), key);
    RunOnTwo(w0, e2, Stamp(2, key), Manage(NoteRead(2)));
    var e3 := e2 + [Stamp(2, key), Manage(NoteRead(2))];
    var w3 := Run(w0, e3);
    var stamped := w3.sys.m.txns[2];
    assert stamped.readSet == [ReadStamp(key, VersionOf(versions, key))];
    ReadStep(w3, 2, stamped, key, VersionOf(versions, key));
    RunOn(w0, e3, ReadData(2, key));
    assert [] + [Read(key, Some(value))] == [Read(key, Some(value))];
  }

  /** The version never moved, so the dirty read passes validation. */
  lemma DirtyStampPasses(versions: Versions, base: Store, key: Key, value: Bytes)
    requires key.modality in MODALITIES && Lookup(base, key) != Some(value)
    ensures var w := Run(Fresh(versions, base), DirtyStampRun(key, value));
      && w.history == [[Read(key, Some(value))]] && |w.sys.log| == 1 && w.sys.log[0].level == Serializable
      && !Legal(base, w.history[0]) && Lookup(w.store, key) == Lookup(base, key)
  {
    hide Act, Do, AfterRelease, IncrementAll, ApplyUndo;
    var w0 := Fresh(versions, base);
    var e4 := StartEvents(1, ReadCommitted, key, Exclusive) + [WriteData(1, key, Some(value), 0)]
              + [Manage(Begin(2, Serializable))] + [Stamp(2, key), Manage(NoteRead(2))] + [ReadData(2, key)];
    DirtyStampReader(versions, base, key, value);
    var w4 := Run(w0, e4);
    var writer := w4.sys.m.txns[1];
    AbortSteps(w4, 1, writer);
    RunOnTwo(w0, e4, Abort(1), Manage(Release));
    var e5 := e4 + [Abort(1), Manage(Release)];
    var w5 := Run(w0, e5);
    OneStamp(w5.sys.m, 2, key, VersionOf(versions, key));
    CommitSteps(w5, 2, w5.sys.m.txns[2]);
    RunOnTwo(w0, e5, Commit(2), Manage(Release));
    assert e5 + [Commit(2), Manage(Release)] == DirtyStampRun(key, value);
    UndoRestoresOldest(w4.store, writer.undoLog, key);
    ReadIsIllegal(base, key, value);
    assert [] + [[Read(key, Some(value))]] == [[Read(key, Some(value))]];
  }

  lemma BeginAct(w: World, t: TxnId)
    ensures Act(w, Manage(Begin(t, Serializable))) == w.(sys := Do(w.sys, Begin(t, Serializable)))
  {
  }

  // ---- A commit that fails with data written --------------------------------------------------

  /** One Serializable transaction stamps `a`; another commits a write to it; then the first writes `b` and cannot commit. */
  function OvertakenRun(a: Key, b: Key, value: Bytes): seq<Event> {
    StartEvents(1, Serializable, b, Exclusive) + [Stamp(1, a), Manage(NoteRead(1))]
    + StartEvents(2, ReadCommitted, a, Exclusive) + [WriteData(2, a, Some(value), 0)] + [Commit(2), Manage(Release)]
    + [WriteData(1, b, Some(value), 0)]
  }

  lemma OvertakenStart(versions: Versions, base: Store, a: Key, b: Key, value: Bytes)
    requires a.modality in MODALITIES && b.modality in MODALITIES && a != b
    ensures var w := Run(Fresh(versions, base),
        StartEvents(1, Serializable, b, Exclusive) + [Stamp(1, a), Manage(NoteRead(1))]
        + StartEvents(2, ReadCommitted, a, Exclusive) + [WriteData(2, a, Some(value), 0)]);
      && At(w.sys, 1, Txn(Active, Serializable, [], [LockEntry(b, Exclusive)], [ReadStamp(a, VersionOf(versions, a))]))
      && At(w.sys, 2, Txn(Active, ReadCommitted, [UndoEntry(a, Lookup(base, a), 0)], [LockEntry(a, Exclusive)], []))
      && w.sys.m.versions == versions && w.sys.log == [] && w.history == [] && w.base == base
      && w.store == Put(base, a, Some(value)) && OpsOf(w, 1) == [] && OpsOf(w, 2) == [Write(a, Some(value))]
      && HoldersOf(w.sys.m.table, b) == [LockInfo(1, Exclusive)] && w.owed == map[]
  {
    hide Act, Do, StartEvents;
    var w0 := Fresh(versions, base);
    var start := StartEvents(1, Serializable, b, Exclusive);
    assert [] + start == start && Run(w0, []) == w0;
    StartRun(w0, [], 1, Serializable, b, Exclusive);
    hide Run;
    var w1 := Run(w0, start);
    StampSteps(w1, 1, w1.sys.m.txns[1], a);
    RunOnTwo(w0, start, Stamp(1, a), Manage(NoteRead(1)));
    var e2 := start + [Stamp(1, a), Manage(NoteRead(1))];
    assert [] + [ReadStamp(a, VersionOf(versions, a))] == [ReadStamp(a, VersionOf(versions, a))];
    StartRun(w0, e2, 2, ReadCommitted, a, Exclusive);
    var e3 := e2 + StartEvents(2, ReadCommitted, a, Exclusive);
    var w3 := Run(w0, e3);
    WriteStep(w3, 2, w3.sys.m.txns[2], a, Some(value));
    RunOn(w0, e3, WriteData(2, a, Some(value), 0));
    assert [] + [Write(a, Some(value))] == [Write(a, Some(value))];
  }

  lemma OtherHolderStays(tb: Table, t: TxnId, u: TxnId, key: Key)
    requires HoldersOf(tb, key) == [LockInfo(u, Exclusive)] && u != t
    ensures HoldersOf(AfterRelease(tb, t), key) == [LockInfo(u, Exclusive)]
  {
    assert Without([LockInfo(u, Exclusive)], t) == [LockInfo(u, Exclusive)] + Without([], t);
  }

  /** The commit fails with an undo log that is not empty, and the written key is left off its committed data. */
  lemma OvertakenCommitFails(versions: Versions, base: Store, a: Key, b: Key, value: Bytes)
    requires a.modality in MODALITIES && b.modality in MODALITIES && a != b && Lookup(base, b) != Some(value)
    ensures var w := Run(Fresh(versions, base), OvertakenRun(a, b, value));
      && CanFinish(w.sys, 1) && FailsValidation(w.sys.m, 1) && w.sys.m.txns[1].undoLog == [UndoEntry(b, Lookup(base, b), 0)]
      && var after := Act(w, Commit(1));
         Lookup(after.store, b) == Some(value) && Lookup(CommittedData(after), b) == Lookup(base, b)
         && RollbackResult(after.sys.m, 1) == Err(InvalidState(1, RolledBack))
  {
    hide Act, Do, AfterRelease;
    var w0 := Fresh(versions, base);
    var e1 := StartEvents(1, Serializable, b, Exclusive) + [Stamp(1, a), Manage(NoteRead(1))]
              + StartEvents(2, ReadCommitted, a, Exclusive) + [WriteData(2, a, Some(value), 0)];
    OvertakenStart(versions, base, a, b, value);
    var w1 := Run(w0, e1);
    var writer := w1.sys.m.txns[2];
    CommitSteps(w1, 2, writer);
    RunOnTwo(w0, e1, Commit(2), Manage(Release));
    var e2 := e1 + [Commit(2), Manage(Release)];
    var w2 := Run(w0, e2);
    OtherHolderStays(w1.sys.m.table, 2, 1, b);
    WriteStep(w2, 1, w2.sys.m.txns[1], b, Some(value));
    RunOn(w0, e2, WriteData(1, b, Some(value), 0));
    assert e2 + [WriteData(1, b, Some(value), 0)] == OvertakenRun(a, b, value);
    var w3 := Run(w0, OvertakenRun(a, b, value));
    assert [writer.undoLog[0]][..0] == [];
    assert VersionOf(w3.sys.m.versions, a) == VersionOf(versions, a) + 1;
    OneStamp(w3.sys.m, 1, a, VersionOf(versions, a));
    AfterFailing(w3, 1);
    OneWriteElsewhere(base, a, b, value);
    assert w3.history == [[Write(a, Some(value))]];
  }

  lemma AfterFailing(w: World, t: TxnId)
    requires CanFinish(w.sys, t) && FailsValidation(w.sys.m, t)
    ensures var w' := Act(w, Commit(t));
      w'.store == w.store && w'.history == w.history && w'.base == w.base && RollbackResult(w'.sys.m, t) == Err(InvalidState(t, RolledBack))
  {
    hide FailsValidation;
  }

  lemma OneWriteElsewhere(base: Store, a: Key, b: Key, value: Bytes)
    requires a != b
    ensures Lookup(Serial(base, [[Write(a, Some(value))]]), b) == Lookup(base, b)
  {
    var ops: seq<Op> := [Write(a, Some(value))];
    var history: seq<seq<Op>> := [ops];
    assert ops[..0] == [] && history[..0] == [];
    assert Serial(base, history[..0]) == base && Final(base, ops[..0]) == base;
    assert Serial(base, history) == Final(base, ops) == Put(base, a, Some(value));
  }

  // ---- That run is guarded ----------------------------------------------------------------------

  lemma GuardedOn(w: World, events: seq<Event>, event: Event)
    requires GuardedRun(w, events)
    requires (event.Manage? ==> !event.step.TakeLock?) || Run(w, events).owed == map[]
    ensures GuardedRun(w, events + [event])
  {
    hide Act;
    assert (events + [event])[..|events|] == events;
  }

  lemma GuardedStart(w: World, events: seq<Event>, t: TxnId, level: Isolation, key: Key, kind: LockType)
    requires GuardedRun(w, events) && Run(w, events).owed == map[]
    ensures GuardedRun(w, events + StartEvents(t, level, key, kind))
  {
    hide Guarded, Do, GuardedRun, Run;
    var e0, e1, e2, e3 := Manage(Begin(t, level)), Manage(CheckForLock(t, key, kind)), Manage(TakeLock(t)), Manage(NoteLock(t));
    RunOn(w, events, e0);
    RunOn(w, events + [e0], e1);
    GuardedOn(w, events, e0);
    GuardedOn(w, events + [e0], e1);
    GuardedOn(w, events + [e0] + [e1], e2);
    GuardedOn(w, events + [e0] + [e1] + [e2], e3);
    assert events + StartEvents(t, level, key, kind) == events + [e0] + [e1] + [e2] + [e3];
  }

  /** So what `FailedCommitStrands` says of guarded runs happens. */
  lemma OvertakenRunIsGuarded(versions: Versions, base: Store, a: Key, b: Key, value: Bytes)
    requires a.modality in MODALITIES && b.modality in MODALITIES && a != b
    ensures GuardedRun(Fresh(versions, base), OvertakenRun(a, b, value))
  {
    hide Guarded, Act, Do;
    var w0 := Fresh(versions, base);
    var start := StartEvents(1, Serializable, b, Exclusive);
    assert [] + start == start && Run(w0, []) == w0 && GuardedRun(w0, []);
    StartRun(w0, [], 1, Serializable, b, Exclusive);
    GuardedStart(w0, [], 1, Serializable, b, Exclusive);
    var w1 := Run(w0, start);
    StampSteps(w1, 1, w1.sys.m.txns[1], a);
    RunOnTwo(w0, start, Stamp(1, a), Manage(NoteRead(1)));
    GuardedTwo(w0, start, Stamp(1, a), Manage(NoteRead(1)));
    var e2 := start + [Stamp(1, a), Manage(NoteRead(1))];
    GuardedStart(w0, e2, 2, ReadCommitted, a, Exclusive);
    var e3 := e2 + StartEvents(2, ReadCommitted, a, Exclusive);
    GuardedOn(w0, e3, WriteData(2, a, Some(value), 0));
    GuardedTwo(w0, e3 + [WriteData(2, a, Some(value), 0)], Commit(2), Manage(Release));
    GuardedOn(w0, e3 + [WriteData(2, a, Some(value), 0)] + [Commit(2), Manage(Release)], WriteData(1, b, Some(value), 0));
  }

  lemma GuardedTwo(w: World, events: seq<Event>, a: Event, b: Event)
    requires GuardedRun(w, events) && (a.Manage? ==> !a.step.TakeLock?) && (b.Manage? ==> !b.step.TakeLock?)
    ensures GuardedRun(w, events + [a, b])
  {
    hide GuardedRun, Run, Act, Guarded;
    GuardedOn(w, events, a);
    GuardedOn(w, events + [a], b);
    assert events + [a, b] == events + [a] + [b];
  }
}
