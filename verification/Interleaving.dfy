/**
 * Every interleaving of the manager's critical sections.
 *
 * Each call is cut where it gives up a lock: a lock request checks the
 * transaction, asks the lock table, then records the lock; a read record takes
 * the version first and stores the stamp later; commit and rollback change the
 * transaction while holding the transactions map and release the locks before
 * giving the map up. One caller drives each transaction.
 */
module Interleaving {
  import opened Wrappers
  import opened WaitForGraph
  import opened LockTables
  import opened LockSafety
  import opened Transactions

  /** How far the caller of a transaction is inside a call. */
  datatype Pending =
    | Idle
    | Checked(key: Key, kind: LockType)
    | Taken(key: Key, kind: LockType)
    | Seen(stamp: ReadStamp, at: nat)

  /** A committed transaction: `at[j]` is how many commits preceded the read of `stamps[j]`. */
  datatype CommitRecord = CommitRecord(
    id: TxnId, level: Isolation, stamps: seq<ReadStamp>, at: seq<nat>, undoLog: seq<UndoEntry>)

  /**
   * The manager with its callers. `guard` is the transaction whose commit or
   * rollback holds the transactions map while its locks are still to be
   * released. `base`, `log` and `at` record the run: the versions it started
   * from, its commits in order, and when each stamp was taken.
   */
  datatype Sys = Sys(
    m: Manager, pending: map<TxnId, Pending>, guard: Option<TxnId>,
    base: Versions, log: seq<CommitRecord>, at: map<TxnId, seq<nat>>)

  datatype Step =
    | Begin(t: TxnId, level: Isolation)
    | CheckForLock(t: TxnId, key: Key, kind: LockType)
    | TakeLock(t: TxnId)
    | NoteLock(t: TxnId)
    | ReadVersion(t: TxnId, key: Key)
    | NoteRead(t: TxnId)
    | NoteUndo(t: TxnId, entry: UndoEntry)
    | Validate(t: TxnId)
    | StartRollback(t: TxnId)
    | Release
    | Purge

  /** A manager without transactions; versions may have been loaded by `set_version`. */
  function Start(base: Versions): Sys {
    Sys(Manager(map[], EMPTY_TABLE, base), map[], None, base, [], map[])
  }

  /** The caller of `t` is between calls. */
  predicate Waiting(s: Sys, t: TxnId) {
    t in s.pending && s.pending[t] == Idle && s.guard != Some(t)
  }

  /** The caller of `t` is between calls and nobody holds the transactions map. */
  predicate Ready(s: Sys, t: TxnId) {
    Waiting(s, t) && s.guard == None
  }

  function Move(s: Sys, t: TxnId, p: Pending): Sys {
    s.(pending := s.pending[t := p])
  }

  /** One critical section; a section that is not enabled changes nothing. */
  ghost function Do(s: Sys, step: Step): Sys {
    match step
    case Begin(t, level) =>
      if s.guard != None || t in s.pending then s
      else Move(s, t, Idle).(m := s.m.(txns := s.m.txns[t := NewTxn(level)]), at := s.at[t := []])
    case CheckForLock(t, key, kind) =>
      if !Ready(s, t) || KeyUnusable(s.m.txns, t, key).Some? then s else Move(s, t, Checked(key, kind))
    case TakeLock(t) =>
      if t !in s.pending || !s.pending[t].Checked? then s else DoTakeLock(s, t, s.pending[t].key, s.pending[t].kind)
    case NoteLock(t) =>
      if s.guard != None || t !in s.pending || !s.pending[t].Taken? then s
      else Move(s, t, Idle).(m := s.m.(txns := WithLockRecorded(s.m.txns, t, s.pending[t].key, s.pending[t].kind)))
    case ReadVersion(t, key) =>
      if !Waiting(s, t) || key.modality !in MODALITIES then s
      else Move(s, t, Seen(ReadStamp(key, VersionOf(s.m.versions, key)), |s.log|))
    case NoteRead(t) =>
      if s.guard != None || t !in s.pending || !s.pending[t].Seen? then s else DoNoteRead(s, t, s.pending[t].stamp, s.pending[t].at)
    case NoteUndo(t, entry) =>
      if !Ready(s, t) then s else s.(m := s.m.(txns := WithUndo(s.m.txns, t, entry)))
    case Validate(t) =>
      if !Ready(s, t) || Unusable(s.m.txns, t).Some? then s else DoValidate(s, t)
    case StartRollback(t) =>
      if !Ready(s, t) || Unusable(s.m.txns, t).Some? then s
      else s.(m := s.m.(txns := WithState(s.m.txns, t, RolledBack)), guard := Some(t))
    case Release =>
      if s.guard == None then s else s.(m := Released(s.m, s.guard.value), guard := None)
    case Purge =>
      if s.guard != None then s else s.(m := s.m.(txns := OnlyActive(s.m.txns)))
  }

  ghost function DoTakeLock(s: Sys, t: TxnId, key: Key, kind: LockType): Sys {
    Move(s, t, if Granted(s.m.table, t, key, kind) then Taken(key, kind) else Idle)
    .(m := s.m.(table := AfterAcquire(s.m.table, t, key, kind)))
  }

  ghost function DoNoteRead(s: Sys, t: TxnId, stamp: ReadStamp, at: nat): Sys {
    if Unusable(s.m.txns, t).Some? then Move(s, t, Idle)
    else Move(s, t, Idle).(
      m := s.m.(txns := WithStamp(s.m.txns, t, stamp)),
      at := s.at[t := (if t in s.at then s.at[t] else []) + [at]])
  }

  ghost function DoValidate(s: Sys, t: TxnId): Sys
    requires Unusable(s.m.txns, t).None?
  {
    var s' := s.(m := AfterValidation(s.m, t), guard := Some(t));
    if FailsValidation(s.m, t) then s'
    else s'.(log := s.log + [Record(s, t)])
  }

  function Record(s: Sys, t: TxnId): CommitRecord
    requires t in s.m.txns
  {
    var txn := s.m.txns[t];
    CommitRecord(t, txn.level, txn.readSet, if t in s.at then s.at[t] else [], txn.undoLog)
  }

  ghost function Exec(s: Sys, steps: seq<Step>): Sys {
    if steps == [] then s else Do(Exec(s, steps[..|steps| - 1]), steps[|steps| - 1])
  }

  // ---- Lock safety ------------------------------------------------------------

  /** Active, or finished but with its locks still to be released under the map. */
  predicate Live(s: Sys, t: TxnId) {
    (t in s.m.txns && s.m.txns[t].state == Active) || s.guard == Some(t)
  }

  ghost predicate Recorded(s: Sys, t: TxnId, key: Key)
    requires t in s.m.txns
  {
    (exists l :: l in s.m.txns[t].locks && l.key == key) || (t in s.pending && s.pending[t].Taken? && s.pending[t].key == key)
  }

  ghost predicate DistinctKeys(locks: seq<LockEntry>) {
    forall i, j :: 0 <= i < j < |locks| ==> locks[i].key != locks[j].key
  }

  ghost predicate CallersInv(s: Sys) {
    && s.m.txns.Keys <= s.pending.Keys
    && s.at.Keys == s.pending.Keys
    && (s.guard.Some? ==> s.guard.value in s.m.txns && s.m.txns[s.guard.value].state != Active && s.pending[s.guard.value] == Idle)
    && (forall t :: t in s.pending && (s.pending[t].Checked? || s.pending[t].Taken?) ==>
          t in s.m.txns && s.m.txns[t].state == Active)
  }

  /**
   * The lock table is well formed and acyclic, only live transactions hold
   * locks or wait, and an active transaction has recorded exactly the keys it
   * holds, up to the one its caller is about to record.
   */
  ghost predicate LocksInv(s: Sys) {
    && TableOk(s.m.table)
    && (forall t, k :: Holds(s.m.table, t, k) ==> Live(s, t))
    && (forall a, b :: Edge(s.m.table.waitFor, a, b) ==> Live(s, a) && Live(s, b))
    && (forall t :: t in s.m.txns && s.m.txns[t].state == Active ==> DistinctKeys(s.m.txns[t].locks))
    && (forall t, k :: t in s.m.txns && s.m.txns[t].state == Active ==> (Holds(s.m.table, t, k) <==> Recorded(s, t, k)))
  }

  lemma {:induction false} DropKeyDistinct(locks: seq<LockEntry>, key: Key)
    requires DistinctKeys(locks)
    ensures DistinctKeys(DropKey(locks, key))
  {
    if locks != [] {
      DropKeyDistinct(locks[1..], key);
    }
  }

  lemma TakeLockKeepsCallers(s: Sys, t: TxnId)
    requires CallersInv(s)
    ensures CallersInv(Do(s, TakeLock(t)))
  {
  }

  lemma TakeLockKeepsLocks(s: Sys, t: TxnId)
    requires CallersInv(s) && LocksInv(s)
    ensures LocksInv(Do(s, TakeLock(t)))
  {
    TakeLockKeepsCallers(s, t);
    if t in s.pending && s.pending[t].Checked? {
      var (key, kind) := (s.pending[t].key, s.pending[t].kind);
      var s' := Do(s, TakeLock(t));
      AcquireKeepsTableOk(s.m.table, t, key, kind);
      AcquireChangesOnlyRequester(s.m.table, t, key, kind);
      HoldsAfterAcquire(s.m.table, t, key, kind);
      forall a, b | Edge(s'.m.table.waitFor, a, b) ensures Live(s', a) && Live(s', b) {
        AcquireAddsOnlyRequesterEdges(s.m.table, t, key, kind, a, b);
      }
      forall u, k | u in s'.m.txns && s'.m.txns[u].state == Active
        ensures Holds(s'.m.table, u, k) <==> Recorded(s', u, k)
      {
        assert Holds(s.m.table, u, k) <==> Recorded(s, u, k);
      }
    }
  }

  lemma HoldsAfterAcquire(tb: Table, t: TxnId, key: Key, kind: LockType)
    requires TableOk(tb)
    ensures forall u, k :: Holds(AfterAcquire(tb, t, key, kind), u, k) <==>
              Holds(tb, u, k) || (u == t && k == key && Granted(tb, t, key, kind))
  {
    AcquireChangesOnlyRequester(tb, t, key, kind);
    var tb' := AfterAcquire(tb, t, key, kind);
    forall u, k
      ensures Holds(tb', u, k) <==> Holds(tb, u, k) || (u == t && k == key && Granted(tb, t, key, kind))
    {
      if u != t && k == key {
        assert Holds(tb', u, k) <==> exists l :: LockInfo(u, l) in HoldersOf(tb', k) by {
          forall info | info in HoldersOf(tb', k) && info.holder == u
            ensures LockInfo(u, info.kind) in HoldersOf(tb', k) {}
        }
        assert Holds(tb, u, k) <==> exists l :: LockInfo(u, l) in HoldersOf(tb, k) by {
          forall info | info in HoldersOf(tb, k) && info.holder == u
            ensures LockInfo(u, info.kind) in HoldersOf(tb, k) {}
        }
      }
    }
  }

  lemma NoteLockKeepsCallers(s: Sys, t: TxnId)
    requires CallersInv(s)
    ensures CallersInv(Do(s, NoteLock(t)))
  {
  }

  /** Recording the taken lock turns the pending key into a recorded one. */
  lemma NoteLockRecords(s: Sys, t: TxnId, k: Key)
    requires s.guard == None && t in s.pending && s.pending[t].Taken? && t in s.m.txns
    ensures Recorded(Do(s, NoteLock(t)), t, k) <==> Recorded(s, t, k)
  {
    var (key, kind) := (s.pending[t].key, s.pending[t].kind);
    var s' := Do(s, NoteLock(t));
    assert LockEntry(key, kind) in s'.m.txns[t].locks;
    if l :| l in s.m.txns[t].locks && l.key == k && k != key {
      assert l in s'.m.txns[t].locks;
    }
  }

  lemma NoteLockKeepsLocks(s: Sys, t: TxnId)
    requires CallersInv(s) && LocksInv(s)
    ensures LocksInv(Do(s, NoteLock(t)))
  {
    NoteLockKeepsCallers(s, t);
    if s.guard == None && t in s.pending && s.pending[t].Taken? {
      var s' := Do(s, NoteLock(t));
      DropKeyDistinct(s.m.txns[t].locks, s.pending[t].key);
      forall u, k | u in s'.m.txns && s'.m.txns[u].state == Active
        ensures Holds(s'.m.table, u, k) <==> Recorded(s', u, k)
      {
        NoteLockRecords(s, t, k);
        assert Holds(s.m.table, u, k) <==> Recorded(s, u, k);
      }
    }
  }

  lemma ReleaseKeepsCallers(s: Sys)
    requires CallersInv(s)
    ensures CallersInv(Do(s, Release))
  {
  }

  lemma ReleaseKeepsLocks(s: Sys)
    requires CallersInv(s) && LocksInv(s)
    ensures LocksInv(Do(s, Release))
  {
    ReleaseKeepsCallers(s);
    if s.guard.Some? {
      var t := s.guard.value;
      ReleaseKeepsTableOk(s.m.table, t);
      ReleaseDropsOnly(s.m.table, t);
      assert forall u, k :: Holds(AfterRelease(s.m.table, t), u, k) <==> Holds(s.m.table, u, k) && u != t;
      var s' := Do(s, Release);
      forall u, k | u in s'.m.txns && s'.m.txns[u].state == Active
        ensures Holds(s'.m.table, u, k) <==> Recorded(s', u, k)
      {
        assert Holds(s.m.table, u, k) <==> Recorded(s, u, k);
      }
    }
  }

  /** What `t` holds and has recorded is the same in both states, or `t` is new and holds nothing. */
  ghost predicate SameLocks(s: Sys, s': Sys, t: TxnId)
    requires t in s'.m.txns
  {
    if t in s.pending then
      && t in s.m.txns && s.m.txns[t].state == Active && s'.m.txns[t].locks == s.m.txns[t].locks
      && t in s'.pending && (s'.pending[t] == s.pending[t] || (!s.pending[t].Taken? && !s'.pending[t].Taken?))
    else
      s'.m.txns[t].locks == [] && t in s'.pending && s'.pending[t] == Idle
  }

  /** Steps that leave the lock table and the recorded locks alone and end no live transaction. */
  lemma QuietStepKeepsLocks(s: Sys, s': Sys)
    requires CallersInv(s) && LocksInv(s) && CallersInv(s')
    requires s'.m.table == s.m.table
    requires forall t :: Live(s, t) ==> Live(s', t)
    requires forall t :: t in s'.m.txns && s'.m.txns[t].state == Active ==> SameLocks(s, s', t)
    ensures LocksInv(s')
  {
    forall t, k | t in s'.m.txns && s'.m.txns[t].state == Active
      ensures Holds(s'.m.table, t, k) <==> Recorded(s', t, k)
    {
      assert SameLocks(s, s', t);
      if t in s.pending {
        assert Holds(s.m.table, t, k) <==> Recorded(s, t, k);
      } else {
        assert Holds(s.m.table, t, k) ==> Live(s, t);
      }
    }
  }

  lemma BeginKeepsLocks(s: Sys, t: TxnId, level: Isolation)
    requires CallersInv(s) && LocksInv(s)
    ensures CallersInv(Do(s, Begin(t, level))) && LocksInv(Do(s, Begin(t, level)))
  {
    QuietStepKeepsLocks(s, Do(s, Begin(t, level)));
  }

  lemma CheckForLockKeepsLocks(s: Sys, t: TxnId, key: Key, kind: LockType)
    requires CallersInv(s) && LocksInv(s)
    ensures CallersInv(Do(s, CheckForLock(t, key, kind))) && LocksInv(Do(s, CheckForLock(t, key, kind)))
  {
    QuietStepKeepsLocks(s, Do(s, CheckForLock(t, key, kind)));
  }

  lemma ReadVersionKeepsLocks(s: Sys, t: TxnId, key: Key)
    requires CallersInv(s) && LocksInv(s)
    ensures CallersInv(Do(s, ReadVersion(t, key))) && LocksInv(Do(s, ReadVersion(t, key)))
  {
    QuietStepKeepsLocks(s, Do(s, ReadVersion(t, key)));
  }

  lemma NoteReadKeepsCallers(s: Sys, t: TxnId)
    requires CallersInv(s)
    ensures CallersInv(Do(s, NoteRead(t)))
  {
  }

  lemma NoteReadKeepsLocks(s: Sys, t: TxnId)
    requires CallersInv(s) && LocksInv(s)
    ensures LocksInv(Do(s, NoteRead(t)))
  {
    NoteReadKeepsCallers(s, t);
    QuietStepKeepsLocks(s, Do(s, NoteRead(t)));
  }

  lemma NoteUndoKeepsLocks(s: Sys, t: TxnId, entry: UndoEntry)
    requires CallersInv(s) && LocksInv(s)
    ensures CallersInv(Do(s, NoteUndo(t, entry))) && LocksInv(Do(s, NoteUndo(t, entry)))
  {
    QuietStepKeepsLocks(s, Do(s, NoteUndo(t, entry)));
  }

  lemma ValidateKeepsCallers(s: Sys, t: TxnId)
    requires CallersInv(s)
    ensures CallersInv(Do(s, Validate(t)))
  {
  }

  lemma ValidateKeepsLocks(s: Sys, t: TxnId)
    requires CallersInv(s) && LocksInv(s)
    ensures LocksInv(Do(s, Validate(t)))
  {
    ValidateKeepsCallers(s, t);
    QuietStepKeepsLocks(s, Do(s, Validate(t)));
  }

  lemma StartRollbackKeepsLocks(s: Sys, t: TxnId)
    requires CallersInv(s) && LocksInv(s)
    ensures CallersInv(Do(s, StartRollback(t))) && LocksInv(Do(s, StartRollback(t)))
  {
    QuietStepKeepsLocks(s, Do(s, StartRollback(t)));
  }

  lemma PurgeKeepsLocks(s: Sys)
    requires CallersInv(s) && LocksInv(s)
    ensures CallersInv(Do(s, Purge)) && LocksInv(Do(s, Purge))
  {
    QuietStepKeepsLocks(s, Do(s, Purge));
  }

  lemma StepKeepsLocks(s: Sys, step: Step)
    requires CallersInv(s) && LocksInv(s)
    ensures CallersInv(Do(s, step)) && LocksInv(Do(s, step))
  {
    match step {
      case Begin(t, level) => BeginKeepsLocks(s, t, level);
      case CheckForLock(t, key, kind) => CheckForLockKeepsLocks(s, t, key, kind);
      case TakeLock(t) => TakeLockKeepsCallers(s, t); TakeLockKeepsLocks(s, t);
      case NoteLock(t) => NoteLockKeepsCallers(s, t); NoteLockKeepsLocks(s, t);
      case ReadVersion(t, key) => ReadVersionKeepsLocks(s, t, key);
      case NoteRead(t) => NoteReadKeepsCallers(s, t); NoteReadKeepsLocks(s, t);
      case NoteUndo(t, entry) => NoteUndoKeepsLocks(s, t, entry);
      case Validate(t) => ValidateKeepsCallers(s, t); ValidateKeepsLocks(s, t);
      case StartRollback(t) => StartRollbackKeepsLocks(s, t);
      case Release => ReleaseKeepsCallers(s); ReleaseKeepsLocks(s);
      case Purge => PurgeKeepsLocks(s);
    }
  }

  lemma {:induction false} RunKeepsLocks(base: Versions, steps: seq<Step>)
    ensures CallersInv(Exec(Start(base), steps)) && LocksInv(Exec(Start(base), steps))
  {
    if steps != [] {
      RunKeepsLocks(base, steps[..|steps| - 1]);
      StepKeepsLocks(Exec(Start(base), steps[..|steps| - 1]), steps[|steps| - 1]);
    } else {
      assert Acyclic(EMPTY_TABLE.waitFor) by {
        forall s, p ensures !CycleAt(EMPTY_TABLE.waitFor, s, p) {
          assert CycleAt(EMPTY_TABLE.waitFor, s, p) ==> Edge(EMPTY_TABLE.waitFor, p[0], p[1]);
        }
      }
    }
  }

  // ---- Calls without interruption ----------------------------------------------

  // Run without interruption, the sections of each call add up to what the manager's methods promise.

  lemma SectionsOfCommit(s: Sys, t: TxnId)
    requires CallersInv(s) && Ready(s, t)
    ensures Do(Do(s, Validate(t)), Release).m == AfterCommit(s.m, t)
  {
  }

  lemma SectionsOfRollback(s: Sys, t: TxnId)
    requires CallersInv(s) && Ready(s, t)
    ensures Do(Do(s, StartRollback(t)), Release).m == AfterRollback(s.m, t)
  {
  }

  lemma SectionsOfLockRequest(s: Sys, t: TxnId, key: Key, kind: LockType)
    requires CallersInv(s) && Ready(s, t)
    ensures Do(Do(Do(s, CheckForLock(t, key, kind)), TakeLock(t)), NoteLock(t)).m == AfterLockRequest(s.m, t, key, kind)
  {
    var s1 := Do(s, CheckForLock(t, key, kind));
    var s2 := Do(s1, TakeLock(t));
    if KeyUnusable(s.m.txns, t, key).None? {
      assert s1 == Move(s, t, Checked(key, kind));
      assert s2 == DoTakeLock(s1, t, key, kind);
    }
  }

  lemma SectionsOfRead(s: Sys, t: TxnId, key: Key)
    requires CallersInv(s) && Ready(s, t) && key.modality in MODALITIES
    ensures Do(Do(s, ReadVersion(t, key)), NoteRead(t)).m ==
              s.m.(txns := WithStamp(s.m.txns, t, ReadStamp(key, VersionOf(s.m.versions, key))))
  {
    var stamp := ReadStamp(key, VersionOf(s.m.versions, key));
    assert Do(s, ReadVersion(t, key)) == Move(s, t, Seen(stamp, |s.log|));
  }

  /**
   * In every run: holders of a key are distinct and all Shared or a single
   * Exclusive, no cycle of waiting transactions exists, and, whenever no commit
   * or rollback is in mid-call, only active transactions hold locks or wait.
   */
  lemma LockSafetyInEveryRun(base: Versions, steps: seq<Step>)
    ensures var s := Exec(Start(base), steps);
      && (forall k :: k in s.m.table.locks ==> WellFormed(s.m.table.locks[k]))
      && Acyclic(s.m.table.waitFor)
      && (forall a, b :: Edge(s.m.table.waitFor, a, b) ==> HoldsSome(s.m.table, b))
      && (s.guard == None ==> forall t, k :: Holds(s.m.table, t, k) ==> t in s.m.txns && s.m.txns[t].state == Active)
      && (s.guard == None ==> forall a, b :: Edge(s.m.table.waitFor, a, b) ==> a in s.m.txns && s.m.txns[a].state == Active)
  {
    RunKeepsLocks(base, steps);
  }

  /**
   * In every run an active transaction has recorded each key once, and exactly
   * the keys it holds in the table, up to one its caller is about to record.
   */
  lemma RecordedKeysAreHeldKeys(base: Versions, steps: seq<Step>, t: TxnId)
    requires var s := Exec(Start(base), steps); t in s.m.txns && s.m.txns[t].state == Active
    ensures var s := Exec(Start(base), steps);
      && DistinctKeys(s.m.txns[t].locks)
      && forall k :: Holds(s.m.table, t, k) <==>
           (exists l :: l in s.m.txns[t].locks && l.key == k) || (t in s.pending && s.pending[t].Taken? && s.pending[t].key == k)
  {
    RunKeepsLocks(base, steps);
    var s := Exec(Start(base), steps);
    forall k ensures Holds(s.m.table, t, k) <==> Recorded(s, t, k) {
    }
  }
}
