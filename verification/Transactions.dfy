/** The transaction manager: lifecycle, undo log, read validation, and versions. */
module Transactions {
  import opened Wrappers
  import opened WaitForGraph
  import opened LockTables

  const MODALITIES: seq<string> :=
    ["graph", "vector", "tensor", "semantic", "document", "temporal", "provenance", "spatial"]

  datatype TxnState = Active | Committed | RolledBack

  datatype Isolation = ReadCommitted | Serializable

  datatype UndoEntry = UndoEntry(key: Key, previousData: Option<Bytes>, previousVersion: nat)

  datatype ReadStamp = ReadStamp(key: Key, version: nat)

  datatype LockEntry = LockEntry(key: Key, kind: LockType)

  datatype Txn = Txn(
    state: TxnState, level: Isolation,
    undoLog: seq<UndoEntry>, locks: seq<LockEntry>, readSet: seq<ReadStamp>)

  datatype TxnError =
    | InvalidState(id: TxnId, current: TxnState)
    | LockRefused(key: Key, heldBy: TxnId)
    | Deadlock(id: TxnId, cycle: seq<TxnId>)
    | TransactionNotFound(id: TxnId)
    | InvalidModality(name: string)
    | VersionConflict(entity: string, expected: nat, actual: nat)

  type Txns = map<TxnId, Txn>
  type Versions = map<Key, nat>

  datatype Manager = Manager(txns: Txns, table: Table, versions: Versions)

  // ---- Versions -----------------------------------------------------------

  function VersionOf(versions: Versions, key: Key): nat {
    if key in versions then versions[key] else 0
  }

  function Increment(versions: Versions, key: Key): Versions {
    versions[key := VersionOf(versions, key) + 1]
  }

  /** One increment for each undo entry, in order. */
  function IncrementAll(versions: Versions, undoLog: seq<UndoEntry>): Versions {
    if undoLog == [] then versions
    else Increment(IncrementAll(versions, undoLog[..|undoLog| - 1]), undoLog[|undoLog| - 1].key)
  }

  // ---- The critical sections of each call ---------------------------------

  /** Why `t` cannot be used, if it cannot. */
  function Unusable(txns: Txns, t: TxnId): Option<TxnError> {
    if t !in txns then Some(TransactionNotFound(t))
    else if txns[t].state != Active then Some(InvalidState(t, txns[t].state))
    else None
  }

  function KeyUnusable(txns: Txns, t: TxnId, key: Key): Option<TxnError> {
    if key.modality !in MODALITIES then Some(InvalidModality(key.modality)) else Unusable(txns, t)
  }

  function NewTxn(level: Isolation): Txn {
    Txn(Active, level, [], [], [])
  }

  function DropKey(locks: seq<LockEntry>, key: Key): (rest: seq<LockEntry>)
    ensures forall l :: l in rest <==> l in locks && l.key != key
  {
    if locks == [] then []
    else if locks[0].key == key then DropKey(locks[1..], key)
    else [locks[0]] + DropKey(locks[1..], key)
  }

  /** The last section of a lock request: a repeated key replaces the earlier record. */
  function WithLockRecorded(txns: Txns, t: TxnId, key: Key, kind: LockType): Txns {
    if t !in txns then txns
    else txns[t := txns[t].(locks := DropKey(txns[t].locks, key) + [LockEntry(key, kind)])]
  }

  function WithUndo(txns: Txns, t: TxnId, entry: UndoEntry): Txns {
    if KeyUnusable(txns, t, entry.key).Some? then txns
    else txns[t := txns[t].(undoLog := txns[t].undoLog + [entry])]
  }

  /** The second section of a read record: the stamp was taken in the first. */
  function WithStamp(txns: Txns, t: TxnId, stamp: ReadStamp): Txns {
    if Unusable(txns, t).Some? then txns
    else txns[t := txns[t].(readSet := txns[t].readSet + [stamp])]
  }

  function FirstStale(readSet: seq<ReadStamp>, versions: Versions): (i: nat)
    ensures i <= |readSet|
    ensures forall j :: 0 <= j < i ==> VersionOf(versions, readSet[j].key) == readSet[j].version
    ensures i < |readSet| ==> VersionOf(versions, readSet[i].key) != readSet[i].version
  {
    if readSet == [] || VersionOf(versions, readSet[0].key) != readSet[0].version then 0
    else 1 + FirstStale(readSet[1..], versions)
  }

  /** Whether commit-time validation turns the commit into a rollback. */
  predicate FailsValidation(m: Manager, t: TxnId)
    requires t in m.txns
  {
    m.txns[t].level == Serializable && FirstStale(m.txns[t].readSet, m.versions) < |m.txns[t].readSet|
  }

  /** Commit up to, and not including, the release of the locks. */
  function AfterValidation(m: Manager, t: TxnId): Manager
    requires Unusable(m.txns, t).None?
  {
    if FailsValidation(m, t) then m.(txns := m.txns[t := m.txns[t].(state := RolledBack)])
    else m.(txns := m.txns[t := m.txns[t].(state := Committed)],
            versions := IncrementAll(m.versions, m.txns[t].undoLog))
  }

  function Released(m: Manager, t: TxnId): Manager {
    m.(table := AfterRelease(m.table, t))
  }

  function AfterCommit(m: Manager, t: TxnId): Manager {
    if Unusable(m.txns, t).Some? then m else Released(AfterValidation(m, t), t)
  }

  function CommitResult(m: Manager, t: TxnId): Result<(), TxnError> {
    if Unusable(m.txns, t).Some? then Err(Unusable(m.txns, t).value)
    else if FailsValidation(m, t) then
      var stamp := m.txns[t].readSet[FirstStale(m.txns[t].readSet, m.versions)];
      Err(VersionConflict(stamp.key.entity, stamp.version, VersionOf(m.versions, stamp.key)))
    else Ok(())
  }

  function WithState(txns: Txns, t: TxnId, state: TxnState): Txns
    requires t in txns
  {
    txns[t := txns[t].(state := state)]
  }

  function AfterRollback(m: Manager, t: TxnId): Manager {
    if Unusable(m.txns, t).Some? then m else Released(m.(txns := WithState(m.txns, t, RolledBack)), t)
  }

  /** The undo entries, newest first. */
  function Newest(undoLog: seq<UndoEntry>): (r: seq<UndoEntry>)
    ensures |r| == |undoLog|
  {
    if undoLog == [] then [] else Newest(undoLog[1..]) + [undoLog[0]]
  }

  function RollbackResult(m: Manager, t: TxnId): Result<seq<UndoEntry>, TxnError> {
    if Unusable(m.txns, t).Some? then Err(Unusable(m.txns, t).value) else Ok(Newest(m.txns[t].undoLog))
  }

  ghost function AfterLockRequest(m: Manager, t: TxnId, key: Key, kind: LockType): Manager {
    if KeyUnusable(m.txns, t, key).Some? then m
    else
      var table := AfterAcquire(m.table, t, key, kind);
      m.(table := table,
         txns := if Granted(m.table, t, key, kind) then WithLockRecorded(m.txns, t, key, kind) else m.txns)
  }

  function LockError(t: TxnId, key: Key, answer: LockResult): TxnError
    requires answer != Acquired
  {
    match answer
    case LockConflict(heldBy) => LockRefused(key, heldBy)
    case DeadlockDetected(cycle) => Deadlock(t, cycle)
  }

  /** The results a lock request may return: granted, or refused with an answer of the lock table. */
  ghost predicate LockResultOk(m: Manager, t: TxnId, key: Key, kind: LockType, r: Result<(), TxnError>) {
    if KeyUnusable(m.txns, t, key).Some? then r == Err(KeyUnusable(m.txns, t, key).value)
    else if Granted(m.table, t, key, kind) then r == Ok(())
    else exists a :: a != Acquired && Answers(m.table, t, key, kind, a) && r == Err(LockError(t, key, a))
  }

  function OnlyActive(txns: Txns): Txns {
    map t | t in txns && txns[t].state == Active :: txns[t]
  }

  /** What a purge counts: the finished transactions. */
  function Completed(txns: Txns): set<TxnId> {
    set t | t in txns && txns[t].state in {Committed, RolledBack}
  }

  /**
   * A purge makes no difference to a transaction that can still be used: it
   * stays as it is, every finished one becomes unknown, and these are counted.
   */
  lemma PurgeExactly(txns: Txns, t: TxnId)
    ensures Unusable(txns, t).None? ==> t in OnlyActive(txns) && OnlyActive(txns)[t] == txns[t]
    ensures Unusable(txns, t).Some? ==> Unusable(OnlyActive(txns), t) == Some(TransactionNotFound(t))
    ensures |txns| - |OnlyActive(txns)| == |Completed(txns)|
  {
    var active := OnlyActive(txns).Keys;
    assert active !! Completed(txns);
    assert active + Completed(txns) == txns.Keys;
    assert |active + Completed(txns)| == |active| + |Completed(txns)|;
  }

  // ---- The manager object ---------------------------------------------------

  class TransactionManager {
    var txns: Txns
    var versions: Versions
    const lockTable: LockTable

    ghost function View(): Manager
      reads this, lockTable
    {
      Manager(txns, lockTable.View(), versions)
    }

    constructor ()
      ensures fresh(lockTable)
      ensures View() == Manager(map[], EMPTY_TABLE, map[])
    {
      txns, versions := map[], map[];
      lockTable := new LockTable();
    }

    /** `t` stands for the fresh UUID. */
    method Begin(t: TxnId, level: Isolation)
      requires t !in txns
      modifies this
      ensures View() == old(View()).(txns := old(txns)[t := NewTxn(level)])
    {
      txns := txns[t := NewTxn(level)];
    }

    method Commit(t: TxnId) returns (r: Result<(), TxnError>)
      modifies this, lockTable
      ensures View() == AfterCommit(old(View()), t)
      ensures r == CommitResult(old(View()), t)
    {
      if Unusable(txns, t).Some? {
        return Err(Unusable(txns, t).value);
      }
      var txn := txns[t];
      if txn.level == Serializable {
        var i := 0;
        while i < |txn.readSet|
          invariant i <= |txn.readSet|
          invariant forall j :: 0 <= j < i ==> VersionOf(versions, txn.readSet[j].key) == txn.readSet[j].version
        {
          var stamp := txn.readSet[i];
          var current := VersionOf(versions, stamp.key);
          if current != stamp.version {
            assert FirstStale(txn.readSet, versions) == i;
            txns := WithState(txns, t, RolledBack);
            lockTable.ReleaseAll(t);
            return Err(VersionConflict(stamp.key.entity, stamp.version, current));
          }
          i := i + 1;
        }
        assert FirstStale(txn.readSet, versions) == |txn.readSet|;
      }
      assert !FailsValidation(old(View()), t);
      for i := 0 to |txn.undoLog|
        invariant versions == IncrementAll(old(versions), txn.undoLog[..i])
        invariant txns == old(txns) && lockTable.View() == old(lockTable.View())
      {
        versions := Increment(versions, txn.undoLog[i].key);
        assert txn.undoLog[..i + 1][..i] == txn.undoLog[..i];
      }
      assert txn.undoLog[..|txn.undoLog|] == txn.undoLog;
      txns := WithState(txns, t, Committed);
      lockTable.ReleaseAll(t);
      return Ok(());
    }

    method Rollback(t: TxnId) returns (r: Result<seq<UndoEntry>, TxnError>)
      modifies this, lockTable
      ensures View() == AfterRollback(old(View()), t)
      ensures r == RollbackResult(old(View()), t)
    {
      if Unusable(txns, t).Some? {
        return Err(Unusable(txns, t).value);
      }
      var entries := Newest(txns[t].undoLog);
      txns := WithState(txns, t, RolledBack);
      lockTable.ReleaseAll(t);
      return Ok(entries);
    }

    method AcquireLock(t: TxnId, key: Key, kind: LockType) returns (r: Result<(), TxnError>)
      modifies this, lockTable
      ensures View() == AfterLockRequest(old(View()), t, key, kind)
      ensures LockResultOk(old(View()), t, key, kind, r)
    {
      if KeyUnusable(txns, t, key).Some? {
        return Err(KeyUnusable(txns, t, key).value);
      }
      var answer := lockTable.Acquire(t, key, kind);
      if answer != Acquired {
        return Err(LockError(t, key, answer));
      }
      txns := WithLockRecorded(txns, t, key, kind);
      return Ok(());
    }

    method RecordUndo(t: TxnId, entry: UndoEntry) returns (r: Result<(), TxnError>)
      modifies this
      ensures View() == old(View()).(txns := WithUndo(old(txns), t, entry))
      ensures r == if KeyUnusable(old(txns), t, entry.key).Some? then Err(KeyUnusable(old(txns), t, entry.key).value) else Ok(())
    {
      if KeyUnusable(txns, t, entry.key).Some? {
        return Err(KeyUnusable(txns, t, entry.key).value);
      }
      txns := WithUndo(txns, t, entry);
      return Ok(());
    }

    method RecordRead(t: TxnId, key: Key) returns (r: Result<(), TxnError>)
      modifies this
      ensures KeyUnusable(old(txns), t, key).Some? ==>
        View() == old(View()) && r == Err(KeyUnusable(old(txns), t, key).value)
      ensures KeyUnusable(old(txns), t, key).None? ==>
        View() == old(View()).(txns := WithStamp(old(txns), t, ReadStamp(key, VersionOf(old(versions), key)))) && r == Ok(())
    {
      if key.modality !in MODALITIES {
        return Err(InvalidModality(key.modality));
      }
      var stamp := ReadStamp(key, VersionOf(versions, key));
      if Unusable(txns, t).Some? {
        return Err(Unusable(txns, t).value);
      }
      txns := WithStamp(txns, t, stamp);
      return Ok(());
    }

    method PurgeCompleted() returns (purged: nat)
      modifies this
      ensures View() == old(View()).(txns := OnlyActive(old(txns)))
      ensures purged == |old(txns)| - |txns|
    {
      var before := txns;
      txns := OnlyActive(txns);
      assert txns.Keys <= before.Keys;
      SubsetIsSmaller(txns.Keys, before.Keys);
      purged := |before| - |txns|;
    }
  }
}
