/** Every event of a guarded run keeps the data invariant. */
module DataSteps {
  import opened Wrappers
  import opened WaitForGraph
  import opened LockTables
  import opened LockSafety
  import opened Transactions
  import opened Interleaving
  import opened Serializability
  import opened DataRuns
  import opened DataInvariant

  // ---- Undo stays quiet -----------------------------------------------------------------

  /** No entry more is owed, and what is held was held, with the same data. */
  lemma QuietCarriesOver(w: World, w': World)
    requires UndoIsQuiet(w)
    requires forall t, e :: t in w'.owed && e in w'.owed[t] ==> t in w.owed && e in w.owed[t]
    requires forall u, k :: IsActive(w'.sys, u) && Holds(w'.sys.m.table, u, k) ==>
               IsActive(w.sys, u) && Holds(w.sys.m.table, u, k) && (Owed(w, k) ==> Lookup(w'.store, k) == Lookup(w.store, k))
    ensures UndoIsQuiet(w')
  {
    forall t, e, u | t in w'.owed && e in w'.owed[t] && IsActive(w'.sys, u) && Holds(w'.sys.m.table, u, e.key)
      ensures e.previousData == Lookup(w'.store, e.key)
    {
      EntryIsOwed(w, t, e);
      assert Holds(w.sys.m.table, u, e.key);
    }
  }

  lemma EntryIsOwed(w: World, t: TxnId, e: UndoEntry)
    requires t in w.owed && e in w.owed[t]
    ensures Names(w.owed[t], e.key) && Owed(w, e.key)
  {
    LoggedKeys(w.owed[t], e.key);
  }

  // ---- The manager's own steps ------------------------------------------------------

  /** A new transaction has no past: it holds nothing, did nothing, and logged nothing. */
  lemma NewTxnOk(w: World, t: TxnId, level: Isolation)
    requires SysInv(w.sys) && DataInv(w) && Do(w.sys, Begin(t, level)) != w.sys
    ensures t !in w.sys.pending && !IsActive(w.sys, t) && IsActive(Do(w.sys, Begin(t, level)), t)
    ensures TxnOk(w.(sys := Do(w.sys, Begin(t, level))), t)
    ensures forall k :: !Holds(w.sys.m.table, t, k) && !HoldsExclusive(w.sys.m.table, t, k)
  {
    assert OpsOf(w, t) == [] && t !in w.dirty && !Live(w.sys, t);
    assert forall k :: !Holds(w.sys.m.table, t, k);
    forall k ensures !HoldsExclusive(w.sys.m.table, t, k) {
      assert !Holds(w.sys.m.table, t, k);
    }
  }

  lemma DataMeans(w: World)
    requires DataInv(w)
    ensures HistoryOk(w) && StoreOk(w) && OwedOk(w) && UndoIsQuiet(w)
  {
  }

  lemma BeginFacts(s: Sys, t: TxnId, level: Isolation)
    ensures var s' := Do(s, Begin(t, level));
      && s'.log == s.log && s'.m.versions == s.m.versions && s'.m.table == s.m.table && s.pending.Keys <= s'.pending.Keys
      && (forall u :: IsActive(s', u) && !IsActive(s, u) ==> u == t && s' != s)
  {
  }

  lemma BeginDisturbsNobody(s: Sys, t: TxnId, level: Isolation, u: TxnId)
    requires IsActive(s, u) && CallersInv(s)
    ensures Undisturbed(s, Do(s, Begin(t, level)), u)
  {
  }

  lemma BeginKeepsData(w: World, t: TxnId, level: Isolation)
    requires SysInv(w.sys) && DataInv(w)
    ensures DataInv(Act(w, Manage(Begin(t, level))))
  {
    hide DataInv, Do, Undisturbed, LocksInv, VersionsInv, TxnOk, UndoIsQuiet;
    var s, s' := w.sys, Do(w.sys, Begin(t, level));
    if s' != s {
      BeginFacts(s, t, level);
      NewTxnOk(w, t, level);
      forall u | IsActive(s, u) ensures Undisturbed(s, s', u) {
        BeginDisturbsNobody(s, t, level, u);
      }
      assert UndoIsQuiet(w) by { DataMeans(w); }
      QuietCarriesOver(w, w.(sys := s'));
      ManagerChangeKeepsData(w, s');
    }
  }

  lemma CheckForLockDisturbsNobody(s: Sys, t: TxnId, key: Key, kind: LockType, u: TxnId)
    requires IsActive(s, u)
    ensures Undisturbed(s, Do(s, CheckForLock(t, key, kind)), u)
  {
  }

  lemma NoteLockDisturbsNobody(s: Sys, t: TxnId, u: TxnId)
    requires IsActive(s, u)
    ensures Undisturbed(s, Do(s, NoteLock(t)), u)
  {
  }

  lemma NoteReadDisturbsNobody(s: Sys, t: TxnId, u: TxnId)
    requires IsActive(s, u)
    ensures Undisturbed(s, Do(s, NoteRead(t)), u)
  {
  }

  lemma StampDisturbsNobody(s: Sys, t: TxnId, key: Key, u: TxnId)
    requires IsActive(s, u)
    ensures Undisturbed(s, Do(s, ReadVersion(t, key)), u)
  {
  }

  lemma ReleaseDisturbsNobody(s: Sys, u: TxnId)
    requires IsActive(s, u) && CallersInv(s) && TableOk(s.m.table)
    ensures Undisturbed(s, Do(s, Release), u)
  {
    if s.guard.Some? {
      ReleaseDropsOnly(s.m.table, s.guard.value);
    }
  }

  lemma TakeLockDisturbsNobody(s: Sys, t: TxnId, u: TxnId)
    requires IsActive(s, u) && TableOk(s.m.table)
    ensures Undisturbed(s, Do(s, TakeLock(t)), u)
  {
    if t in s.pending && s.pending[t].Checked? {
      HoldsAfterAcquire(s.m.table, t, s.pending[t].key, s.pending[t].kind);
      AcquireChangesOnlyRequester(s.m.table, t, s.pending[t].key, s.pending[t].kind);
    }
  }

  predicate Quiet(step: Step) {
    step.CheckForLock? || step.NoteLock? || step.NoteRead? || step.Purge? || step.Release? || step.ReadVersion?
  }

  lemma QuietStepFacts(s: Sys, step: Step)
    requires CallersInv(s) && TableOk(s.m.table) && Quiet(step)
    ensures var s' := Do(s, step);
      && s'.log == s.log && s'.m.versions == s.m.versions && s.pending.Keys <= s'.pending.Keys
      && (forall t :: IsActive(s', t) ==> IsActive(s, t))
      && (forall t, k :: Holds(s'.m.table, t, k) ==> Holds(s.m.table, t, k))
      && (forall t, k :: HoldsExclusive(s'.m.table, t, k) ==> HoldsExclusive(s.m.table, t, k))
  {
    hide Holds, HoldsExclusive, TableOk, AfterRelease;
    if step.Release? && s.guard.Some? {
      ReleaseTakesLocks(s.m.table, s.guard.value);
    }
  }

  lemma ReleaseTakesLocks(tb: Table, t: TxnId)
    requires TableOk(tb)
    ensures forall u, k :: Holds(AfterRelease(tb, t), u, k) ==> Holds(tb, u, k)
    ensures forall u, k :: HoldsExclusive(AfterRelease(tb, t), u, k) ==> HoldsExclusive(tb, u, k)
  {
    ReleaseDropsOnly(tb, t);
  }

  lemma QuietStepDisturbsNobody(s: Sys, step: Step, u: TxnId)
    requires CallersInv(s) && TableOk(s.m.table) && Quiet(step) && IsActive(s, u)
    ensures Undisturbed(s, Do(s, step), u)
  {
    match step {
      case CheckForLock(t, key, kind) => CheckForLockDisturbsNobody(s, t, key, kind, u);
      case NoteLock(t) => NoteLockDisturbsNobody(s, t, u);
      case NoteRead(t) => NoteReadDisturbsNobody(s, t, u);
      case ReadVersion(t, key) => StampDisturbsNobody(s, t, key, u);
      case Release => ReleaseDisturbsNobody(s, u);
      case _ =>
    }
  }

  /** Neutral sections other than `Begin` and `TakeLock`, and stamps. */
  lemma QuietStepKeepsData(w: World, step: Step)
    requires SysInv(w.sys) && DataInv(w) && Quiet(step)
    ensures DataInv(w.(sys := Do(w.sys, step)))
  {
    hide DataInv, Do, Undisturbed, LocksInv, VersionsInv, UndoIsQuiet;
    var s, s' := w.sys, Do(w.sys, step);
    assert TableOk(s.m.table) by { SysTableOk(s); }
    forall u | IsActive(s, u) ensures Undisturbed(s, s', u) {
      QuietStepDisturbsNobody(s, step, u);
    }
    QuietStepFacts(s, step);
    assert UndoIsQuiet(w) by { DataMeans(w); }
    QuietCarriesOver(w, w.(sys := s'));
    ManagerChangeKeepsData(w, s');
  }

  lemma SysTableOk(s: Sys)
    requires SysInv(s)
    ensures TableOk(s.m.table) && CallersInv(s)
  {
  }

  // ---- A granted lock -----------------------------------------------------------------

  /** Only the requester can come to hold a key for writing, and only one granted for that. */
  lemma NewExclusive(s: Sys, t: TxnId, u: TxnId, k: Key)
    requires TableOk(s.m.table) && HoldsExclusive(Do(s, TakeLock(t)).m.table, u, k)
    ensures HoldsExclusive(s.m.table, u, k) ||
            (u == t && AboutToHold(s, t) && k == s.pending[t].key && s.pending[t].kind == Exclusive)
  {
    if t in s.pending && s.pending[t].Checked? {
      AcquireChangesOnlyRequester(s.m.table, t, s.pending[t].key, s.pending[t].kind);
      DecisionMeaning(HoldersOf(s.m.table, s.pending[t].key), t, s.pending[t].kind);
    }
  }

  lemma NewHolder(s: Sys, t: TxnId, u: TxnId, k: Key)
    requires TableOk(s.m.table) && Holds(Do(s, TakeLock(t)).m.table, u, k) && !Holds(s.m.table, u, k)
    ensures u == t && AboutToHold(s, t) && k == s.pending[t].key
  {
    if t in s.pending && s.pending[t].Checked? {
      HoldsAfterAcquire(s.m.table, t, s.pending[t].key, s.pending[t].kind);
    }
  }

  lemma NewHolderExcludesWriters(w: World, s': Sys, u: TxnId, v: TxnId, k: Key)
    requires IsActive(w.sys, v) && TxnOk(w, v) && Undisturbed(w.sys, s', v)
    requires TableOk(s'.m.table) && Holds(s'.m.table, u, k) && !Holds(w.sys.m.table, u, k)
    ensures !Wrote(OpsOf(w, v), k)
  {
    WroteHolds(w, v, k);
    if Wrote(OpsOf(w, v), k) {
      ExclusiveExcludes(s'.m.table, v, u, k);
    }
  }

  /** A newly granted key carries committed data: nobody active wrote it, and no list owed for it differs. */
  lemma GrantedDataIsCommitted(w: World, t: TxnId, k: Key)
    requires SysInv(w.sys) && DataInv(w) && Guarded(w, Manage(TakeLock(t)))
    requires Holds(Do(w.sys, TakeLock(t)).m.table, t, k) && !Holds(w.sys.m.table, t, k)
    ensures Lookup(w.store, k) == Lookup(CommittedData(w), k)
  {
    var s' := Do(w.sys, TakeLock(t));
    NewHolder(w.sys, t, t, k);
    TakeLockKeepsLocks(w.sys, t);
    assert NobodyWrote(w, k) by {
      forall v | IsActive(w.sys, v) ensures !Wrote(OpsOf(w, v), k) {
        TakeLockDisturbsNobody(w.sys, t, v);
        NewHolderExcludesWriters(w, s', t, v, k);
      }
    }
    if Owed(w, k) {
      var u :| u in w.owed && Names(w.owed[u], k);
      var e := FirstEntry(w.owed[u], k);
      assert e in w.owed[u] && e.key == k;
    }
  }

  lemma TakeLockKeepsQuiet(w: World, t: TxnId)
    requires UndoIsQuiet(w) && TableOk(w.sys.m.table) && Guarded(w, Manage(TakeLock(t)))
    ensures UndoIsQuiet(w.(sys := Do(w.sys, TakeLock(t))))
  {
    var s' := Do(w.sys, TakeLock(t));
    forall o, e, u | o in w.owed && e in w.owed[o] && IsActive(s', u) && Holds(s'.m.table, u, e.key)
      ensures e.previousData == Lookup(w.store, e.key)
    {
      assert IsActive(w.sys, u);
      if !Holds(w.sys.m.table, u, e.key) {
        NewHolder(w.sys, t, u, e.key);
      }
    }
  }

  lemma TakeLockFrame(s: Sys, t: TxnId)
    ensures var s' := Do(s, TakeLock(t));
      && s'.log == s.log && s'.m.versions == s.m.versions && s.pending.Keys <= s'.pending.Keys
      && (forall u :: IsActive(s', u) <==> IsActive(s, u))
  {
  }

  /** A key granted for writing has no list owed for it. */
  lemma TakeLockSparesOwed(w: World, t: TxnId, u: TxnId, k: Key)
    requires TableOk(w.sys.m.table) && Guarded(w, Manage(TakeLock(t)))
    requires HoldsExclusive(Do(w.sys, TakeLock(t)).m.table, u, k) && Owed(w, k)
    ensures HoldsExclusive(w.sys.m.table, u, k)
  {
    hide Do, HoldsExclusive;
    NewExclusive(w.sys, t, u, k);
    var o :| o in w.owed && Names(w.owed[o], k);
    var e := FirstEntry(w.owed[o], k);
    assert e in w.owed[o] && e.key == k;
  }

  lemma TakeLockKeepsData(w: World, t: TxnId)
    requires SysInv(w.sys) && DataInv(w) && Guarded(w, Manage(TakeLock(t)))
    ensures DataInv(Act(w, Manage(TakeLock(t))))
  {
    hide Do, DataInv, SysInv, Undisturbed, Owed, Guarded, UndoIsQuiet;
    var s, s' := w.sys, Do(w.sys, TakeLock(t));
    SysTableOk(s);
    TakeLockFrame(s, t);
    forall u | IsActive(s, u) ensures Undisturbed(s, s', u) {
      TakeLockDisturbsNobody(s, t, u);
    }
    forall u, k | IsActive(s, u) && Holds(s'.m.table, u, k) && !Holds(s.m.table, u, k)
      ensures Lookup(w.store, k) == Lookup(CommittedData(w), k)
    {
      NewHolder(s, t, u, k);
      GrantedDataIsCommitted(w, t, k);
    }
    forall u, k | IsActive(s', u) && HoldsExclusive(s'.m.table, u, k)
      ensures !Owed(w, k) || (IsActive(s, u) && HoldsExclusive(s.m.table, u, k))
    {
      if Owed(w, k) {
        TakeLockSparesOwed(w, t, u, k);
      }
    }
    DataMeans(w);
    TakeLockKeepsQuiet(w, t);
    ManagerChangeKeepsData(w, s');
  }

  // ---- Reads and writes ---------------------------------------------------------------

  lemma WroteAppend(ops: seq<Op>, op: Op, k: Key)
    ensures Wrote(ops + [op], k) <==> Wrote(ops, k) || (op.Write? && op.key == k)
  {
    assert op in ops + [op];
    assert forall o :: o in ops ==> o in ops + [op];
  }

  lemma ReadIsRecorded(w: World, t: TxnId, key: Key)
    requires DataInv(w) && TableOk(w.sys.m.table) && IsActive(w.sys, t) && CanRead(w.sys, t, key)
    ensures TxnOk(Act(w, ReadData(t, key)), t)
  {
    hide DataInv, CanRead, Unsettled, TxnOk;
    var w' := Act(w, ReadData(t, key));
    ReadAppended(CommittedData(w), OpsOf(w, t), key, Lookup(w.store, key));
    UnsettledExactly(w, t, key);
    SameHistory(w, w');
    assert TxnOk(w, t) by { TxnOf(w, t); }
    assert Holds(w.sys.m.table, t, key) || StampedIn(w.sys.m.txns[t], key) by { CanReadMeans(w.sys, t, key); }
    ReadAddsNothing(w, w', t, key);
  }

  lemma TxnOf(w: World, t: TxnId)
    requires DataInv(w) && IsActive(w.sys, t)
    ensures TxnOk(w, t)
  {
  }

  lemma CanReadMeans(s: Sys, t: TxnId, key: Key)
    requires CanRead(s, t, key)
    ensures IsActive(s, t) && (Holds(s.m.table, t, key) || StampedIn(s.m.txns[t], key))
  {
  }

  /** Appending a read changes no data, and is legal if the value is the one the run alone finds. */
  lemma ReadAppended(c: Store, ops: seq<Op>, key: Key, value: Option<Bytes>)
    ensures Final(c, ops + [Read(key, value)]) == Final(c, ops)
    ensures Legal(c, ops + [Read(key, value)]) <==> Legal(c, ops) && value == Lookup(Final(c, ops), key)
    ensures forall k :: Wrote(ops + [Read(key, value)], k) <==> Wrote(ops, k)
  {
    assert (ops + [Read(key, value)])[..|ops|] == ops;
    forall k ensures Wrote(ops + [Read(key, value)], k) <==> Wrote(ops, k) {
      WroteAppend(ops, Read(key, value), k);
    }
  }

  lemma ReadAddsNothing(w: World, w': World, t: TxnId, key: Key)
    requires IsActive(w.sys, t) && TxnOk(w, t) && (Holds(w.sys.m.table, t, key) || StampedIn(w.sys.m.txns[t], key))
    requires w'.sys == w.sys && w'.store == w.store && CommittedData(w') == CommittedData(w)
    requires OpsOf(w', t) == OpsOf(w, t) + [Read(key, Lookup(w.store, key))]
    requires Final(CommittedData(w), OpsOf(w', t)) == Final(CommittedData(w), OpsOf(w, t))
    requires Legal(CommittedData(w), OpsOf(w', t)) <==> Legal(CommittedData(w), OpsOf(w, t)) && Lookup(w.store, key) == Own(w, t, key)
    requires forall k :: Wrote(OpsOf(w', t), k) <==> Wrote(OpsOf(w, t), k)
    requires t in w'.dirty <==> t in w.dirty || Lookup(w.store, key) != Own(w, t, key)
    ensures TxnOk(w', t)
  {
    hide Legal, Final, Wrote, FirstLogged, Holds, HoldsExclusive, StampedIn, AllCurrent;
  }

  lemma NobodyWroteBefore(w: World, w': World, k: Key)
    requires NobodyWrote(w', k)
    requires forall u :: IsActive(w.sys, u) ==> IsActive(w'.sys, u) && OpsOf(w, u) <= OpsOf(w', u)
    ensures NobodyWrote(w, k)
  {
    forall u | IsActive(w.sys, u) ensures !Wrote(OpsOf(w, u), k) {
      assert !Wrote(OpsOf(w', u), k);
      assert forall op :: op in OpsOf(w, u) ==> op in OpsOf(w', u);
    }
  }

  lemma CommittedIsNotActive(s: Sys, t: TxnId, i: nat)
    requires VersionsInv(s) && IsActive(s, t) && i < |s.log|
    ensures s.log[i].id != t
  {
  }

  /** The history is read off the commits, so a read by an active transaction does not touch it. */
  lemma ReadKeepsHistory(w: World, t: TxnId, key: Key)
    requires VersionsInv(w.sys) && HistoryOk(w) && IsActive(w.sys, t)
    ensures HistoryOk(Act(w, ReadData(t, key)))
  {
    hide VersionsInv, Legal, Serial, Unsettled, CanRead;
    forall i | 0 <= i < |w.sys.log| ensures w.sys.log[i].id != t {
      CommittedIsNotActive(w.sys, t, i);
    }
  }

  lemma ReadKeepsTxns(w: World, t: TxnId, key: Key, u: TxnId)
    requires DataInv(w) && TableOk(w.sys.m.table) && IsActive(w.sys, t) && CanRead(w.sys, t, key) && IsActive(w.sys, u)
    ensures TxnOk(Act(w, ReadData(t, key)), u)
  {
    hide DataInv, TxnOk, AllCurrent, LogMatches, CanRead, Unsettled;
    var w' := Act(w, ReadData(t, key));
    if u == t {
      ReadIsRecorded(w, t, key);
    } else {
      SameHistory(w, w');
      TxnOf(w, u);
      TxnCarriesOver(w, w', u);
    }
  }

  lemma ReadKeepsData(w: World, t: TxnId, key: Key)
    requires SysInv(w.sys) && DataInv(w)
    ensures DataInv(Act(w, ReadData(t, key)))
  {
    hide TxnOk, HistoryOk, UndoIsQuiet, Unsettled, LocksInv, VersionsInv;
    var w' := Act(w, ReadData(t, key));
    if CanRead(w.sys, t, key) {
      assert CommittedData(w') == CommittedData(w);
      assert TableOk(w.sys.m.table) by { SysTableOk(w.sys); }
      assert VersionsInv(w.sys);
      ReadKeepsHistory(w, t, key);
      forall u | IsActive(w'.sys, u) ensures TxnOk(w', u) {
        ReadKeepsTxns(w, t, key, u);
      }
      forall k | NobodyWrote(w', k) && !Owed(w', k) ensures Lookup(w'.store, k) == Lookup(CommittedData(w'), k) {
        NobodyWroteBefore(w, w', k);
        assert !Owed(w, k);
      }
      assert OwedOk(w') by { OwedOkOnlyData(w, w'); }
      QuietCarriesOver(w, w');
    }
  }

  /** What is owed depends on the lists, the committed data, and who holds what. */
  lemma OwedOkOnlyData(w: World, w': World)
    requires OwedOk(w) && w'.owed == w.owed && w'.lost == w.lost && CommittedData(w') == CommittedData(w)
    requires w'.sys.m.table == w.sys.m.table && w.sys.pending.Keys <= w'.sys.pending.Keys
    requires forall t :: IsActive(w'.sys, t) ==> IsActive(w.sys, t)
    ensures OwedOk(w')
  {
  }

  // ---- Writes ---------------------------------------------------------------------------

  /** Before its first write of a key, a transaction holding it exclusively sees committed data there. */
  lemma FirstWriteSeesCommitted(w: World, t: TxnId, key: Key)
    requires DataInv(w) && TableOk(w.sys.m.table)
    requires IsActive(w.sys, t) && HoldsExclusive(w.sys.m.table, t, key) && !Wrote(OpsOf(w, t), key)
    ensures Lookup(w.store, key) == Lookup(CommittedData(w), key)
  {
    assert Holds(w.sys.m.table, t, key) by {
      assert LockInfo(t, Exclusive) in HoldersOf(w.sys.m.table, key);
    }
    HeldUnwritten(w, t, key);
  }

  lemma LogMatchesAppend(undoLog: seq<UndoEntry>, ops: seq<Op>, c: Store, e: UndoEntry, value: Option<Bytes>)
    requires LogMatches(undoLog, ops, c)
    requires !Wrote(ops, e.key) ==> e.previousData == Lookup(c, e.key)
    ensures LogMatches(undoLog + [e], ops + [Write(e.key, value)], c)
  {
    forall k
      ensures FirstLogged(undoLog + [e], k) == if Wrote(ops + [Write(e.key, value)], k) then Some(Lookup(c, k)) else None
    {
      FirstLoggedAppend(undoLog, e, k);
      WroteAppend(ops, Write(e.key, value), k);
    }
  }

  /** The operations after a write, and the log that goes with them. */
  lemma WriteIsRecorded(w: World, t: TxnId, key: Key, value: Option<Bytes>, version: nat)
    requires IsActive(w.sys, t) && TxnOk(w, t) && CanWrite(w.sys, t, key)
    ensures var (s', ops') := (Do(w.sys, NoteUndo(t, UndoEntry(key, Lookup(w.store, key), version))), OpsOf(w, t) + [Write(key, value)]);
      && IsActive(s', t) && OpsOf(Act(w, WriteData(t, key, value, version)), t) == ops' && ops'[..|ops'| - 1] == OpsOf(w, t)
      && s'.m.txns[t] == w.sys.m.txns[t].(undoLog := w.sys.m.txns[t].undoLog + [UndoEntry(key, Lookup(w.store, key), version)])
      && s'.m.table == w.sys.m.table && s'.m.versions == w.sys.m.versions && s'.log == w.sys.log
      && Holds(w.sys.m.table, t, key)
  {
    assert LockInfo(t, Exclusive) in HoldersOf(w.sys.m.table, key);
  }

  /** Appending a write leaves the reads what they were, and changes what the transaction would find at that key only. */
  lemma WriteAppended(c: Store, ops: seq<Op>, key: Key, value: Option<Bytes>)
    ensures Legal(c, ops + [Write(key, value)]) <==> Legal(c, ops)
    ensures Final(c, ops + [Write(key, value)]) == Put(Final(c, ops), key, value)
  {
    assert (ops + [Write(key, value)])[..|ops|] == ops;
  }

  lemma WriteIsLogged(w: World, t: TxnId, key: Key, value: Option<Bytes>, version: nat)
    requires IsActive(w.sys, t) && TxnOk(w, t) && CanWrite(w.sys, t, key)
    requires !Wrote(OpsOf(w, t), key) ==> Lookup(w.store, key) == Lookup(CommittedData(w), key)
    ensures IsActive(Act(w, WriteData(t, key, value, version)).sys, t)
    ensures TxnOk(Act(w, WriteData(t, key, value, version)), t)
  {
    hide Do, CanWrite, LogMatches, Wrote, FirstLogged, Final, Legal;
    var w' := Act(w, WriteData(t, key, value, version));
    WriteIsRecorded(w, t, key, value, version);
    LogMatchesAppend(w.sys.m.txns[t].undoLog, OpsOf(w, t), CommittedData(w), UndoEntry(key, Lookup(w.store, key), version), value);
    WriteAppended(CommittedData(w), OpsOf(w, t), key, value);
    SameHistory(w, w');
    assert w'.store == Put(w.store, key, value);
    CanWriteMeans(w.sys, t, key);
  }

  lemma CanWriteMeans(s: Sys, t: TxnId, key: Key)
    requires CanWrite(s, t, key)
    ensures IsActive(s, t) && HoldsExclusive(s.m.table, t, key) && key.modality in MODALITIES
  {
  }

  lemma WriteDisturbsNobody(w: World, t: TxnId, key: Key, value: Option<Bytes>, version: nat, u: TxnId)
    requires TableOk(w.sys.m.table) && IsActive(w.sys, t) && CanWrite(w.sys, t, key)
    requires IsActive(w.sys, u) && u != t
    ensures var w' := Act(w, WriteData(t, key, value, version)); Undisturbed(w.sys, w'.sys, u) && SameData(w, w', u)
  {
    assert CommittedData(Act(w, WriteData(t, key, value, version))) == CommittedData(w);
    forall k | Holds(w.sys.m.table, u, k) ensures k != key {
      if k == key {
        ExclusiveExcludes(w.sys.m.table, t, u, key);
      }
    }
  }

  lemma TxnsAfterWrite(w: World, t: TxnId, key: Key, value: Option<Bytes>, version: nat, u: TxnId)
    requires DataInv(w) && TableOk(w.sys.m.table) && CanWrite(w.sys, t, key)
    requires IsActive(w.sys, u)
    ensures IsActive(Act(w, WriteData(t, key, value, version)).sys, u)
    ensures TxnOk(Act(w, WriteData(t, key, value, version)), u)
  {
    hide TxnOk, Act, Undisturbed, SameData, HistoryOk, StoreOk, OwedOk, CanWrite;
    CanWriteMeans(w.sys, t, key);
    assert TxnOk(w, t) && TxnOk(w, u);
    if u != t {
      WriteDisturbsNobody(w, t, key, value, version, u);
      WriteKeepsTable(w, t, key, value, version);
      assert IsActive(Act(w, WriteData(t, key, value, version)).sys, u) by {
        UndisturbedIsActive(w.sys, Act(w, WriteData(t, key, value, version)).sys, u);
      }
      TxnCarriesOver(w, Act(w, WriteData(t, key, value, version)), u);
    } else {
      if !Wrote(OpsOf(w, t), key) {
        FirstWriteSeesCommitted(w, t, key);
      }
      WriteIsLogged(w, t, key, value, version);
    }
  }

  lemma UndisturbedIsActive(s: Sys, s': Sys, u: TxnId)
    requires Undisturbed(s, s', u)
    ensures IsActive(s', u)
  {
  }

  lemma WriteKeepsTable(w: World, t: TxnId, key: Key, value: Option<Bytes>, version: nat)
    ensures var w' := Act(w, WriteData(t, key, value, version));
      && w'.sys.m.table == w.sys.m.table && w'.sys.log == w.sys.log && w'.sys.pending == w.sys.pending
      && w'.owed == w.owed && w'.lost == w.lost && w'.dirty == w.dirty && w'.history == w.history && w'.base == w.base
      && (forall u :: IsActive(w'.sys, u) <==> IsActive(w.sys, u))
  {
  }

  lemma UnwrittenAfterWrite(w: World, t: TxnId, key: Key, value: Option<Bytes>, version: nat, k: Key)
    requires CanWrite(w.sys, t, key) && NobodyWrote(Act(w, WriteData(t, key, value, version)), k)
    ensures NobodyWrote(w, k) && k != key
  {
    var w' := Act(w, WriteData(t, key, value, version));
    NobodyWroteBefore(w, w', k);
    WroteAppend(OpsOf(w, t), Write(key, value), k);
    assert !Wrote(OpsOf(w', t), k);
  }

  lemma WriteKeepsData(w: World, t: TxnId, key: Key, value: Option<Bytes>, version: nat)
    requires SysInv(w.sys) && DataInv(w)
    ensures DataInv(Act(w, WriteData(t, key, value, version)))
  {
    hide TxnOk, LocksInv, VersionsInv, UndoIsQuiet, Legal, Do, Wrote, Holds, HoldsExclusive, FirstLogged;
    var w' := Act(w, WriteData(t, key, value, version));
    if CanWrite(w.sys, t, key) {
      WriteKeepsTable(w, t, key, value, version);
      assert TableOk(w.sys.m.table) by { SysTableOk(w.sys); }
      forall u | IsActive(w'.sys, u) ensures TxnOk(w', u) {
        TxnsAfterWrite(w, t, key, value, version, u);
      }
      assert CommittedData(w') == CommittedData(w);
      forall k | NobodyWrote(w', k) && !Owed(w', k) ensures Lookup(w'.store, k) == Lookup(CommittedData(w'), k) {
        UnwrittenAfterWrite(w, t, key, value, version, k);
        assert !Owed(w, k);
      }
      OwedOkOnlyData(w, w');
      WriteKeepsQuiet(w, t, key, value, version);
    }
  }

  /** What is written under an exclusive lock nobody is owed. */
  lemma WriteKeepsQuiet(w: World, t: TxnId, key: Key, value: Option<Bytes>, version: nat)
    requires DataInv(w) && CanWrite(w.sys, t, key)
    ensures UndoIsQuiet(Act(w, WriteData(t, key, value, version)))
  {
    hide TxnOk, HistoryOk, StoreOk, UndoIsQuiet, CanWrite, Holds;
    WriteKeepsTable(w, t, key, value, version);
    CanWriteMeans(w.sys, t, key);
    assert !Owed(w, key);
    assert Act(w, WriteData(t, key, value, version)).store == Put(w.store, key, value);
    QuietCarriesOver(w, Act(w, WriteData(t, key, value, version)));
  }

  // ---- Commits ------------------------------------------------------------------------------

  ghost predicate CanCommit(w: World, t: TxnId) {
    SysInv(w.sys) && DataInv(w) && CanFinish(w.sys, t) && !FailsValidation(w.sys.m, t)
  }

  /** What a commit changes in the manager, before it releases its locks. */
  ghost predicate Commits(s: Sys, s': Sys, t: TxnId) {
    && IsActive(s, t) && t in s.pending
    && s'.m.txns == WithState(s.m.txns, t, TxnState.Committed) && s'.m.table == s.m.table
    && s'.m.versions == IncrementAll(s.m.versions, s.m.txns[t].undoLog)
    && |s'.log| == |s.log| + 1 && s'.log[..|s.log|] == s.log && s'.log[|s.log|].id == t
    && s'.pending == s.pending && s'.guard == Some(t)
  }

  lemma CommitCommits(w: World, t: TxnId)
    requires CanFinish(w.sys, t) && !FailsValidation(w.sys.m, t)
    ensures var w' := Act(w, Commit(t));
      && Commits(w.sys, w'.sys, t) && w'.history == w.history + [OpsOf(w, t)]
      && w' == w.(sys := w'.sys, history := w'.history)
  {
    assert Do(w.sys, Validate(t)).log == w.sys.log + [Record(w.sys, t)];
  }

  /** A commit leaves alone the version and the committed data of what the transaction did not write. */
  lemma CommitLeavesKey(w: World, t: TxnId, k: Key)
    requires CanCommit(w, t)
    ensures var w' := Act(w, Commit(t));
      && VersionOf(w'.sys.m.versions, k) >= VersionOf(w.sys.m.versions, k)
      && (VersionOf(w'.sys.m.versions, k) == VersionOf(w.sys.m.versions, k) <==> !Wrote(OpsOf(w, t), k))
      && (!Wrote(OpsOf(w, t), k) ==> Lookup(CommittedData(w'), k) == Lookup(CommittedData(w), k))
      && Lookup(CommittedData(w'), k) == Own(w, t, k)
  {
    hide Act, TxnOk, HistoryOk, StoreOk, OwedOk, LocksInv, VersionsInv, IncrementAll, Final, Wrote;
    CommitCommits(w, t);
    var w' := Act(w, Commit(t));
    var undoLog := w.sys.m.txns[t].undoLog;
    LogOf(w, t);
    assert w'.history[..|w'.history| - 1] == w.history;
    if !Wrote(OpsOf(w, t), k) {
      UnwrittenUnchanged(CommittedData(w), OpsOf(w, t), k);
    }
    IncrementAllCounts(w.sys.m.versions, undoLog, k);
    WritesPositive(undoLog, k);
    LoggedKeys(undoLog, k);
  }

  /** No stamp is ahead of its key's version. */
  lemma StampNotAhead(s: Sys, t: TxnId, r: ReadStamp)
    requires VersionsInv(s) && IsActive(s, t) && r in s.m.txns[t].readSet
    ensures r.version <= VersionOf(s.m.versions, r.key)
  {
    var j :| 0 <= j < |s.m.txns[t].readSet| && s.m.txns[t].readSet[j] == r;
    assert StampOk(s.base, s.log, r, s.at[t][j]);
    CountsBetween(s.log, s.at[t][j], |s.log|, r.key);
    assert s.log[..|s.log|] == s.log;
  }

  lemma CommitKeepsOthers(s: Sys, s': Sys, t: TxnId, u: TxnId)
    requires Commits(s, s', t) && (IsActive(s', u) || (IsActive(s, u) && u != t))
    ensures IsActive(s, u) && IsActive(s', u) && u != t && s'.m.txns[u] == s.m.txns[u]
  {
  }

  /** Stamps that are current after another's commit were so before, and what they stamp was not written by it. */
  lemma CommitPassesStamps(w: World, w': World, t: TxnId, u: TxnId)
    requires CanCommit(w, t) && w' == Act(w, Commit(t))
    requires IsActive(w.sys, u) && IsActive(w'.sys, u) && w'.sys.m.txns[u] == w.sys.m.txns[u] && AllCurrent(w'.sys, u)
    ensures AllCurrent(w.sys, u)
    ensures forall k :: StampedIn(w.sys.m.txns[u], k) ==> !Wrote(OpsOf(w, t), k)
  {
    hide Act, CanCommit, DataInv, LocksInv, Wrote, Own;
    assert VersionsInv(w.sys) by { CanCommitMeans(w, t); }
    forall r | w.sys.m.txns[u].level == Serializable && r in w.sys.m.txns[u].readSet
      ensures VersionOf(w.sys.m.versions, r.key) == r.version && !Wrote(OpsOf(w, t), r.key)
    {
      StampNotAhead(w.sys, u, r);
      CommitLeavesKey(w, t, r.key);
    }
  }

  lemma CanCommitMeans(w: World, t: TxnId)
    requires CanCommit(w, t)
    ensures SysInv(w.sys) && TableOk(w.sys.m.table) && VersionsInv(w.sys) && DataInv(w) && IsActive(w.sys, t)
    ensures HistoryOk(w) && StoreOk(w) && OwedOk(w) && UndoIsQuiet(w) && TxnOk(w, t)
    ensures CanFinish(w.sys, t) && !FailsValidation(w.sys.m, t)
  {
  }

  lemma CommitDisturbsNobody(w: World, t: TxnId, u: TxnId)
    requires CanCommit(w, t) && IsActive(w.sys, u) && u != t
    ensures var w' := Act(w, Commit(t)); Undisturbed(w.sys, w'.sys, u) && SameData(w, w', u)
  {
    hide Act, CanCommit, DataInv, SysInv, LocksInv, VersionsInv, Wrote, Own, AllCurrent, TxnOk, HistoryOk, StoreOk, OwedOk, StampedIn;
    var w' := Act(w, Commit(t));
    CanCommitMeans(w, t);
    CommitCommits(w, t);
    CommitKeepsOthers(w.sys, w'.sys, t, u);
    forall k | Holds(w.sys.m.table, u, k)
      ensures VersionOf(w'.sys.m.versions, k) == VersionOf(w.sys.m.versions, k)
      ensures Lookup(CommittedData(w'), k) == Lookup(CommittedData(w), k)
    {
      OthersDidNotWrite(w, t, u, k);
      CommitLeavesKey(w, t, k);
    }
    if AllCurrent(w'.sys, u) {
      CommitPassesStamps(w, w', t, u);
      forall k | StampedIn(w.sys.m.txns[u], k) ensures Lookup(CommittedData(w'), k) == Lookup(CommittedData(w), k) {
        CommitLeavesKey(w, t, k);
      }
    }
  }

  lemma CommitExtendsHistory(w: World, t: TxnId)
    requires CanCommit(w, t)
    ensures HistoryOk(Act(w, Commit(t)))
  {
    hide Act, CanCommit, DataInv, SysInv, LocksInv, VersionsInv, StoreOk, OwedOk, LogMatches, Commits;
    var w' := Act(w, Commit(t));
    CanCommitMeans(w, t);
    CurrentExactly(w.sys, t);
    CommitCommits(w, t);
    assert |w'.sys.log| == |w.sys.log| + 1 && w'.sys.log[..|w.sys.log|] == w.sys.log && w'.sys.log[|w.sys.log|].id == t by {
      CommitsLog(w.sys, w'.sys, t);
    }
    assert w.history[..|w.history|] == w.history;
    forall i | 0 <= i < |w'.history|
      ensures Legal(Serial(w.base, w'.history[..i]), w'.history[i]) <==> w'.sys.log[i].id !in w'.dirty
    {
      assert w'.history[..i] == w.history[..i];
      assert i < |w.history| ==> w'.sys.log[i] == w'.sys.log[..|w.sys.log|][i];
    }
  }

  lemma CommitsLog(s: Sys, s': Sys, t: TxnId)
    requires Commits(s, s', t)
    ensures |s'.log| == |s.log| + 1 && s'.log[..|s.log|] == s.log && s'.log[|s.log|].id == t
    ensures s'.m.table == s.m.table && s'.pending == s.pending
  {
  }

  lemma OnlyFinisherWrote(w: World, w': World, t: TxnId, k: Key)
    requires NobodyWrote(w', k) && !Wrote(OpsOf(w, t), k)
    requires forall u :: IsActive(w.sys, u) && u != t ==> IsActive(w'.sys, u) && OpsOf(w', u) == OpsOf(w, u)
    ensures NobodyWrote(w, k)
  {
    forall u | IsActive(w.sys, u) ensures !Wrote(OpsOf(w, u), k) {
      assert u != t ==> !Wrote(OpsOf(w', u), k);
    }
  }

  /** A list owed before is owed after, if none is taken away. */
  lemma OwedStays(w: World, w': World, k: Key)
    requires forall u :: u in w.owed ==> u in w'.owed && w'.owed[u] == w.owed[u]
    requires !Owed(w', k)
    ensures !Owed(w, k)
  {
    forall u | u in w.owed ensures !Names(w.owed[u], k) {
      assert u in w'.owed;
    }
  }

  lemma CommitSettlesStore(w: World, t: TxnId, k: Key)
    requires CanCommit(w, t)
    requires var w' := Act(w, Commit(t)); NobodyWrote(w', k) && !Owed(w', k)
    ensures Lookup(w.store, k) == Own(w, t, k)
  {
    hide Act, CanCommit, SysInv, HistoryOk, OwedOk, LogMatches, Legal;
    var w' := Act(w, Commit(t));
    CanCommitMeans(w, t);
    CommitCommits(w, t);
    if Wrote(OpsOf(w, t), k) {
      WriterHolds(w, t, k);
    } else {
      UnwrittenUnchanged(CommittedData(w), OpsOf(w, t), k);
      OnlyFinisherWrote(w, w', t, k);
      OwedStays(w, w', k);
    }
  }

  /** What the transaction wrote, no list owed names. */
  lemma OwedNotWritten(w: World, t: TxnId, u: TxnId, k: Key)
    requires CanCommit(w, t) && u in w.owed && Names(w.owed[u], k)
    ensures Lookup(CommittedData(Act(w, Commit(t))), k) == Lookup(CommittedData(w), k)
  {
    hide Act, CanCommit, TxnOk, HistoryOk, StoreOk, OwedOk;
    CanCommitMeans(w, t);
    assert Owed(w, k);
    if Wrote(OpsOf(w, t), k) {
      WriterHolds(w, t, k);
    }
    CommitLeavesKey(w, t, k);
  }

  lemma CommitKeepsOwed(w: World, t: TxnId)
    requires CanCommit(w, t)
    ensures OwedOk(Act(w, Commit(t)))
  {
    hide Act, CanCommit, CommittedData, DataInv, SysInv, HistoryOk, StoreOk, TxnOk;
    var w' := Act(w, Commit(t));
    CanCommitMeans(w, t);
    CommitCommits(w, t);
    forall u, k | u in w.owed && Names(w.owed[u], k) ensures Lookup(CommittedData(w'), k) == Lookup(CommittedData(w), k) {
      OwedNotWritten(w, t, u, k);
    }
    forall u | IsActive(w'.sys, u) ensures IsActive(w.sys, u) {
      CommitKeepsOthers(w.sys, w'.sys, t, u);
    }
  }

  lemma CommitKeepsTxns(w: World, t: TxnId, u: TxnId)
    requires CanCommit(w, t) && IsActive(Act(w, Commit(t)).sys, u)
    ensures TxnOk(Act(w, Commit(t)), u)
  {
    hide Act, CanCommit, TxnOk, SameData, Undisturbed, HistoryOk, StoreOk, OwedOk, SysInv;
    var w' := Act(w, Commit(t));
    CanCommitMeans(w, t);
    CommitCommits(w, t);
    CommitKeepsOthers(w.sys, w'.sys, t, u);
    CommitDisturbsNobody(w, t, u);
    CommitsLog(w.sys, w'.sys, t);
    TxnCarriesOver(w, w', u);
  }

  lemma CommitKeepsQuiet(w: World, t: TxnId)
    requires CanCommit(w, t)
    ensures UndoIsQuiet(Act(w, Commit(t)))
  {
    hide Act, CanCommit, CommittedData, DataInv, SysInv, HistoryOk, StoreOk, OwedOk, TxnOk, UndoIsQuiet, Holds;
    var w' := Act(w, Commit(t));
    CanCommitMeans(w, t);
    CommitCommits(w, t);
    forall u | IsActive(w'.sys, u) ensures IsActive(w.sys, u) {
      CommitKeepsOthers(w.sys, w'.sys, t, u);
    }
    QuietCarriesOver(w, w');
  }

  lemma CommitKeepsData(w: World, t: TxnId)
    requires CanCommit(w, t)
    ensures DataInv(Act(w, Commit(t)))
  {
    hide Act, CanCommit, CommittedData, TxnOk, HistoryOk, OwedOk, UndoIsQuiet, SysInv;
    var w' := Act(w, Commit(t));
    CanCommitMeans(w, t);
    CommitCommits(w, t);
    CommitExtendsHistory(w, t);
    CommitKeepsQuiet(w, t);
    CommitKeepsOwed(w, t);
    forall u | IsActive(w'.sys, u) ensures TxnOk(w', u) {
      CommitKeepsTxns(w, t, u);
    }
    forall k | NobodyWrote(w', k) && !Owed(w', k) ensures Lookup(w'.store, k) == Lookup(CommittedData(w'), k) {
      CommitSettlesStore(w, t, k);
      CommitLeavesKey(w, t, k);
    }
  }

  // ---- Ends without a commit ----------------------------------------------------------------

  /** `t` ends without a commit: by a rollback, or by a commit that fails validation. */
  ghost predicate Retires(s: Sys, s': Sys, t: TxnId) {
    && IsActive(s, t) && t in s'.m.txns && s'.m.txns[t].state == RolledBack
    && s'.m.txns == WithState(s.m.txns, t, RolledBack) && s'.m.table == s.m.table && s'.m.versions == s.m.versions
    && s'.log == s.log && s'.pending == s.pending
  }

  lemma RollbackRetires(s: Sys, t: TxnId)
    requires CanFinish(s, t)
    ensures Retires(s, Do(s, StartRollback(t)), t)
  {
  }

  lemma FailedCommitRetires(s: Sys, t: TxnId)
    requires CanFinish(s, t) && FailsValidation(s.m, t)
    ensures Retires(s, Do(s, Validate(t)), t)
  {
  }

  lemma RetiredDisturbsNobody(s: Sys, s': Sys, t: TxnId, u: TxnId)
    requires Retires(s, s', t) && IsActive(s', u)
    ensures u != t && Undisturbed(s, s', u) && (AllCurrent(s', u) <==> AllCurrent(s, u))
  {
  }

  /** The undo log of a retired transaction is owed: it names what the transaction wrote and holds committed data. */
  lemma RetireOwes(w: World, w': World, t: TxnId)
    requires DataInv(w) && TableOk(w.sys.m.table) && Retires(w.sys, w'.sys, t) && t in w.sys.pending
    requires w'.owed == w.owed[t := w.sys.m.txns[t].undoLog] && w.lost <= w'.lost <= w.lost + {t}
    requires CommittedData(w') == CommittedData(w)
    ensures OwedOk(w')
  {
    LogOf(w, t);
    forall k | Names(w'.owed[t], k)
      ensures FirstLogged(w'.owed[t], k) == Some(Lookup(CommittedData(w), k)) && k.modality in MODALITIES && !Owed(w, k)
      ensures HoldsExclusive(w.sys.m.table, t, k)
    {
      WriterHolds(w, t, k);
    }
    forall u, v, k | u in w'.owed && Names(w'.owed[u], k) && IsActive(w'.sys, v) ensures !HoldsExclusive(w'.sys.m.table, v, k) {
      if u == t && HoldsExclusive(w.sys.m.table, v, k) {
        assert LockInfo(v, Exclusive) in HoldersOf(w.sys.m.table, k);
        ExclusiveExcludes(w.sys.m.table, t, v, k);
      }
    }
    forall u, v, k | u in w'.owed && v in w'.owed && Names(w'.owed[u], k) && Names(w'.owed[v], k) ensures u == v {
      assert u != t ==> Owed(w, k);
      assert v != t ==> Owed(w, k);
    }
  }

  lemma RetireKeepsStore(w: World, w': World, t: TxnId)
    requires DataInv(w) && Retires(w.sys, w'.sys, t) && w'.ops == w.ops && w'.store == w.store
    requires w'.owed == w.owed[t := w.sys.m.txns[t].undoLog] && CommittedData(w') == CommittedData(w)
    requires t !in w.owed
    ensures StoreOk(w')
  {
    hide DataInv, LogMatches, CommittedData, Wrote, FirstLogged, NobodyWrote, Owed, Undisturbed;
    DataMeans(w);
    assert LogMatches(w.sys.m.txns[t].undoLog, OpsOf(w, t), CommittedData(w)) by { LogOf(w, t); }
    RetireEndsOne(w, w', t);
    forall k | NobodyWrote(w', k) && !Owed(w', k) ensures Lookup(w.store, k) == Lookup(CommittedData(w), k) {
      assert !Names(w'.owed[t], k) by { NotOwedNotNamed(w', t, k); }
      NotLoggedNotWritten(w.sys.m.txns[t].undoLog, OpsOf(w, t), CommittedData(w), k);
      OnlyFinisherWrote(w, w', t, k);
      OwedStays(w, w', k);
    }
  }

  lemma RetireEndsOne(w: World, w': World, t: TxnId)
    requires Retires(w.sys, w'.sys, t) && w'.ops == w.ops
    ensures forall u :: IsActive(w.sys, u) && u != t ==> IsActive(w'.sys, u) && OpsOf(w', u) == OpsOf(w, u)
  {
  }

  lemma NotOwedNotNamed(w: World, t: TxnId, k: Key)
    requires t in w.owed && !Owed(w, k)
    ensures !Names(w.owed[t], k)
  {
  }

  lemma NotLoggedNotWritten(undoLog: seq<UndoEntry>, ops: seq<Op>, c: Store, k: Key)
    requires LogMatches(undoLog, ops, c) && !Names(undoLog, k)
    ensures !Wrote(ops, k)
  {
  }

  /** What a retired transaction wrote nobody else holds. */
  lemma RetireKeepsQuiet(w: World, w': World, t: TxnId)
    requires DataInv(w) && TableOk(w.sys.m.table) && Retires(w.sys, w'.sys, t) && w'.store == w.store
    requires w'.owed == w.owed[t := w.sys.m.txns[t].undoLog]
    ensures UndoIsQuiet(w')
  {
    hide TxnOk, HistoryOk, StoreOk, OwedOk, LogMatches;
    forall o, e, u | o in w'.owed && e in w'.owed[o] && IsActive(w'.sys, u) && Holds(w'.sys.m.table, u, e.key)
      ensures e.previousData == Lookup(w'.store, e.key)
    {
      assert u != t && IsActive(w.sys, u);
      if o == t {
        LoggedWasWritten(w, t, e);
        OthersDidNotWrite(w, t, u, e.key);
      }
    }
  }

  lemma LoggedWasWritten(w: World, t: TxnId, e: UndoEntry)
    requires DataInv(w) && IsActive(w.sys, t) && e in w.sys.m.txns[t].undoLog
    ensures Wrote(OpsOf(w, t), e.key)
  {
    LogOf(w, t);
    LoggedKeys(w.sys.m.txns[t].undoLog, e.key);
  }

  lemma RetireKeepsData(w: World, w': World, t: TxnId)
    requires SysInv(w.sys) && DataInv(w) && Retires(w.sys, w'.sys, t) && t in w.sys.pending
    requires w' == w.(sys := w'.sys, owed := w.owed[t := w.sys.m.txns[t].undoLog], lost := w'.lost)
    requires w.lost <= w'.lost <= w.lost + {t}
    ensures DataInv(w')
  {
    assert CommittedData(w') == CommittedData(w);
    RetireOwes(w, w', t);
    RetireKeepsStore(w, w', t);
    RetireKeepsQuiet(w, w', t);
    assert HistoryOk(w');
    forall u | IsActive(w'.sys, u) ensures TxnOk(w', u) {
      RetiredDisturbsNobody(w.sys, w'.sys, t, u);
      RetireCarriesOver(w, w', u);
    }
    hide TxnOk, HistoryOk, StoreOk, OwedOk, UndoIsQuiet, LocksInv, VersionsInv;
  }

  lemma RetireCarriesOver(w: World, w': World, u: TxnId)
    requires IsActive(w.sys, u) && TxnOk(w, u) && Undisturbed(w.sys, w'.sys, u) && (AllCurrent(w'.sys, u) <==> AllCurrent(w.sys, u))
    requires CommittedData(w') == CommittedData(w) && w'.ops == w.ops && w'.dirty == w.dirty && w'.store == w.store
    requires w'.sys.m.table == w.sys.m.table
    ensures TxnOk(w', u)
  {
    hide TxnOk, AllCurrent;
    TxnCarriesOver(w, w', u);
  }

  lemma RollbackKeepsData(w: World, t: TxnId)
    requires SysInv(w.sys) && DataInv(w) && CanFinish(w.sys, t)
    ensures DataInv(Act(w, Rollback(t)))
  {
    hide DataInv, SysInv, Retires, Do;
    RollbackRetires(w.sys, t);
    RetireKeepsData(w, Act(w, Rollback(t)), t);
  }

  lemma FailedCommitKeepsData(w: World, t: TxnId)
    requires SysInv(w.sys) && DataInv(w) && CanFinish(w.sys, t) && FailsValidation(w.sys.m, t)
    ensures DataInv(Act(w, Commit(t)))
  {
    hide DataInv, SysInv, Retires, Do;
    FailedCommitRetires(w.sys, t);
    RetireKeepsData(w, Act(w, Commit(t)), t);
  }

  // ---- Undo -----------------------------------------------------------------------------------

  /** A rollback that applies its list within its step gives each key the transaction wrote its committed value, and changes no other key. */
  lemma AbortRestores(w: World, t: TxnId, k: Key)
    requires DataInv(w) && CanFinish(w.sys, t)
    ensures Lookup(Act(w, Abort(t)).store, k) == Lookup(if Wrote(OpsOf(w, t), k) then CommittedData(w) else w.store, k)
  {
    hide TxnOk, HistoryOk, StoreOk, OwedOk, Do;
    LogOf(w, t);
    UndoRestoresOldest(w.store, w.sys.m.txns[t].undoLog, k);
  }

  lemma AbortIsRollback(w: World, t: TxnId)
    requires CanFinish(w.sys, t)
    ensures var w' := Act(w, Abort(t)); Retires(w.sys, w'.sys, t) && w' == w.(sys := w'.sys, store := w'.store)
  {
    RollbackRetires(w.sys, t);
  }

  lemma AbortKeepsTxns(w: World, t: TxnId, u: TxnId)
    requires TableOk(w.sys.m.table) && DataInv(w) && CanFinish(w.sys, t) && IsActive(Act(w, Abort(t)).sys, u)
    ensures TxnOk(Act(w, Abort(t)), u)
  {
    hide Act, TxnOk, HistoryOk, StoreOk, OwedOk, AllCurrent, CommittedData;
    var w' := Act(w, Abort(t));
    AbortIsRollback(w, t);
    RetiredDisturbsNobody(w.sys, w'.sys, t, u);
    assert CommittedData(w') == CommittedData(w) by { SameHistory(w, w'); }
    forall k | Holds(w.sys.m.table, u, k) ensures Lookup(w'.store, k) == Lookup(w.store, k) {
      OthersDidNotWrite(w, t, u, k);
      AbortRestores(w, t, k);
    }
    TxnCarriesOver(w, w', u);
  }

  lemma SameHistory(w: World, w': World)
    requires w'.history == w.history && w'.base == w.base
    ensures CommittedData(w') == CommittedData(w)
  {
  }

  lemma AbortKeepsStore(w: World, t: TxnId)
    requires DataInv(w) && CanFinish(w.sys, t)
    ensures StoreOk(Act(w, Abort(t)))
  {
    hide Act, TxnOk, HistoryOk, OwedOk, CommittedData, Wrote;
    var w' := Act(w, Abort(t));
    AbortIsRollback(w, t);
    SameHistory(w, w');
    forall k | NobodyWrote(w', k) && !Owed(w', k) ensures Lookup(w'.store, k) == Lookup(CommittedData(w'), k) {
      AbortRestores(w, t, k);
      OwedStays(w, w', k);
      if !Wrote(OpsOf(w, t), k) {
        OnlyFinisherWrote(w, w', t, k);
      }
    }
  }

  lemma AbortKeepsQuiet(w: World, t: TxnId)
    requires TableOk(w.sys.m.table) && DataInv(w) && CanFinish(w.sys, t)
    ensures UndoIsQuiet(Act(w, Abort(t)))
  {
    hide Act, TxnOk, HistoryOk, StoreOk, OwedOk, UndoIsQuiet, CommittedData, Holds;
    var w' := Act(w, Abort(t));
    AbortIsRollback(w, t);
    forall u, k | IsActive(w'.sys, u) && Holds(w'.sys.m.table, u, k)
      ensures IsActive(w.sys, u) && Holds(w.sys.m.table, u, k) && Lookup(w'.store, k) == Lookup(w.store, k)
    {
      RetiredDisturbsNobody(w.sys, w'.sys, t, u);
      OthersDidNotWrite(w, t, u, k);
      AbortRestores(w, t, k);
    }
    QuietCarriesOver(w, w');
  }

  lemma AbortKeepsData(w: World, t: TxnId)
    requires SysInv(w.sys) && DataInv(w) && CanFinish(w.sys, t)
    ensures DataInv(Act(w, Abort(t)))
  {
    hide Act, TxnOk, StoreOk, OwedOk, UndoIsQuiet, CommittedData, Legal, LocksInv, VersionsInv;
    var w' := Act(w, Abort(t));
    assert TableOk(w.sys.m.table) by { SysTableOk(w.sys); }
    AbortIsRollback(w, t);
    SameHistory(w, w');
    OwedOkOnlyData(w, w');
    AbortKeepsQuiet(w, t);
    forall u | IsActive(w'.sys, u) ensures TxnOk(w', u) {
      AbortKeepsTxns(w, t, u);
    }
    AbortKeepsStore(w, t);
  }

  /** What is left of the list of `t` and the entry that is applied next. */
  lemma NextEntry(w: World, t: TxnId, k: Key) returns (e: UndoEntry)
    requires CanApply(w, t)
    ensures var w' := Act(w, ApplyEntry(t));
      && e in w.owed[t] && e == w.owed[t][|w.owed[t]| - 1]
      && w' == w.(store := Put(w.store, e.key, e.previousData), owed := w.owed[t := w.owed[t][..|w.owed[t]| - 1]])
      && FirstLogged(w.owed[t], k) ==
           if Names(w'.owed[t], k) then FirstLogged(w'.owed[t], k) else if e.key == k then Some(e.previousData) else None
  {
    var rest := w.owed[t][..|w.owed[t]| - 1];
    e := w.owed[t][|w.owed[t]| - 1];
    assert w.owed[t] == rest + [e];
    FirstLoggedAppend(rest, e, k);
  }

  /** Applying an entry keeps what active transactions hold, and what is owed shrinks. */
  lemma ApplyIsQuiet(w: World, t: TxnId)
    requires UndoIsQuiet(w) && CanApply(w, t)
    ensures var w' := Act(w, ApplyEntry(t));
      && UndoIsQuiet(w')
      && (forall u, k :: IsActive(w.sys, u) && Holds(w.sys.m.table, u, k) ==> Lookup(w'.store, k) == Lookup(w.store, k))
  {
    var w' := Act(w, ApplyEntry(t));
    var e := w.owed[t][|w.owed[t]| - 1];
    assert e in w.owed[t];
    forall u, k | IsActive(w.sys, u) && Holds(w.sys.m.table, u, k) ensures Lookup(w'.store, k) == Lookup(w.store, k) {
      assert k == e.key ==> Lookup(w.store, e.key) == e.previousData;
    }
    hide UndoIsQuiet;
    QuietCarriesOver(w, w');
  }

  /** A list owes for fewer keys once an entry is applied, and for the same data where it still owes. */
  lemma ApplyKeepsOwed(w: World, t: TxnId)
    requires OwedOk(w) && CanApply(w, t)
    ensures OwedOk(Act(w, ApplyEntry(t)))
  {
    var w' := Act(w, ApplyEntry(t));
    SameHistory(w, w');
    forall u, k | u in w'.owed && Names(w'.owed[u], k)
      ensures Names(w.owed[u], k) && FirstLogged(w'.owed[u], k) == FirstLogged(w.owed[u], k)
    {
      if u == t {
        var e := NextEntry(w, t, k);
      }
    }
    hide FirstLogged, CommittedData, HoldsExclusive;
  }

  /** The last entry for a key restores its committed data. */
  lemma ApplyKeepsStore(w: World, t: TxnId)
    requires StoreOk(w) && OwedOk(w) && CanApply(w, t)
    ensures StoreOk(Act(w, ApplyEntry(t)))
  {
    hide FirstLogged, CommittedData;
    var w' := Act(w, ApplyEntry(t));
    SameHistory(w, w');
    forall k | NobodyWrote(w', k) && !Owed(w', k) ensures Lookup(w'.store, k) == Lookup(CommittedData(w'), k) {
      var e := NextEntry(w, t, k);
      assert NobodyWrote(w, k);
      assert !Names(w'.owed[t], k);
      if e.key != k {
        assert !Owed(w, k) by { OwedStaysBut(w, w', t, k); }
      } else {
        assert Names(w.owed[t], k);
      }
    }
  }

  lemma OwedStaysBut(w: World, w': World, t: TxnId, k: Key)
    requires forall u :: u in w.owed && u != t ==> u in w'.owed && w'.owed[u] == w.owed[u]
    requires !Owed(w', k) && (t in w.owed ==> !Names(w.owed[t], k))
    ensures !Owed(w, k)
  {
    forall u | u in w.owed ensures !Names(w.owed[u], k) {
      assert u != t ==> u in w'.owed;
    }
  }

  lemma ApplyKeepsTxns(w: World, t: TxnId, u: TxnId)
    requires DataInv(w) && CanApply(w, t) && IsActive(w.sys, u)
    ensures TxnOk(Act(w, ApplyEntry(t)), u)
  {
    hide DataInv, TxnOk, AllCurrent, LogMatches, Act, UndoIsQuiet;
    var w' := Act(w, ApplyEntry(t));
    assert w'.sys == w.sys && w'.ops == w.ops && w'.dirty == w.dirty && w'.history == w.history && w'.base == w.base by { ApplyFrame(w, t); }
    SameHistory(w, w');
    DataMeans(w);
    TxnOf(w, u);
    ApplyIsQuiet(w, t);
    TxnCarriesOver(w, w', u);
  }

  lemma ApplyFrame(w: World, t: TxnId)
    ensures var w' := Act(w, ApplyEntry(t)); w' == w.(store := w'.store, owed := w'.owed)
  {
  }

  lemma ApplyKeepsData(w: World, t: TxnId)
    requires DataInv(w)
    ensures DataInv(Act(w, ApplyEntry(t)))
  {
    hide TxnOk, StoreOk, OwedOk, UndoIsQuiet, Act, CommittedData, Legal, CanApply;
    var w' := Act(w, ApplyEntry(t));
    if CanApply(w, t) {
      ApplyFrame(w, t);
      forall u | IsActive(w'.sys, u) ensures TxnOk(w', u) {
        ApplyKeepsTxns(w, t, u);
      }
      ApplyKeepsOwed(w, t);
      ApplyKeepsStore(w, t);
      ApplyIsQuiet(w, t);
    } else {
      CannotApply(w, t);
    }
  }

  lemma CannotApply(w: World, t: TxnId)
    requires !CanApply(w, t)
    ensures Act(w, ApplyEntry(t)) == w
  {
  }

  // ---- Every event --------------------------------------------------------------------------

  lemma ActKeepsData(w: World, event: Event)
    requires SysInv(w.sys) && DataInv(w) && Guarded(w, event)
    ensures DataInv(Act(w, event))
  {
    hide DataInv, LocksInv, VersionsInv, Do;
    match event {
      case Manage(step) =>
        if Neutral(step) {
          match step {
            case Begin(t, level) => BeginKeepsData(w, t, level);
            case TakeLock(t) => TakeLockKeepsData(w, t);
            case _ => QuietStepKeepsData(w, step);
          }
        }
      case Stamp(t, key) => QuietStepKeepsData(w, ReadVersion(t, key));
      case ReadData(t, key) => ReadKeepsData(w, t, key);
      case WriteData(t, key, value, version) => WriteKeepsData(w, t, key, value, version);
      case Commit(t) =>
        if CanFinish(w.sys, t) {
          if FailsValidation(w.sys.m, t) {
            FailedCommitKeepsData(w, t);
          } else {
            CommitKeepsData(w, t);
          }
        }
      case Rollback(t) =>
        if CanFinish(w.sys, t) {
          RollbackKeepsData(w, t);
        }
      case ApplyEntry(t) => ApplyKeepsData(w, t);
      case Abort(t) =>
        if CanFinish(w.sys, t) {
          AbortKeepsData(w, t);
        }
    }
  }

  /** Every event moves the manager by one of its own steps, or leaves it alone. */
  lemma ActKeepsSys(w: World, event: Event)
    requires SysInv(w.sys)
    ensures SysInv(Act(w, event).sys) && Act(w, event).base == w.base
  {
    ActIsStep(w, event);
    if step :| Act(w, event).sys == Do(w.sys, step) {
      SysStep(w.sys, step);
    }
  }

  lemma ActIsStep(w: World, event: Event)
    ensures Act(w, event).sys == w.sys || exists step :: Act(w, event).sys == Do(w.sys, step)
    ensures Act(w, event).base == w.base
  {
  }
}
