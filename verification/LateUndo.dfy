/** What applying an undo list late restores, and exactly which grants let it do harm. */
module LateUndo {
  import opened Wrappers
  import opened WaitForGraph
  import opened LockTables
  import opened LockSafety
  import opened Transactions
  import opened Interleaving
  import opened DataRuns
  import opened DataInvariant
  import opened DataSteps
  import opened DataResults

  // ---- Rollbacks restore ---------------------------------------------------------------

  lemma RollbackAt(w: World, t: TxnId)
    requires DataInv(w) && CanFinish(w.sys, t)
    ensures RollbackResult(w.sys.m, t) == Ok(Newest(w.sys.m.txns[t].undoLog))
    ensures Act(w, Rollback(t)).owed == w.owed[t := w.sys.m.txns[t].undoLog] && Act(w, Rollback(t)).store == w.store
    ensures forall k :: Names(w.sys.m.txns[t].undoLog, k) <==> Wrote(OpsOf(w, t), k)
  {
    hide DataInv, Wrote, FirstLogged;
    assert LogMatches(w.sys.m.txns[t].undoLog, OpsOf(w, t), CommittedData(w)) by { LogOf(w, t); }
  }

  /**
   * In every guarded run a rollback hands out the undo log newest first, which
   * names exactly the keys the transaction wrote; the data stays as it is, and
   * the list is owed from then on.
   */
  lemma RollbackOwes(versions: Versions, base: Store, events: seq<Event>, t: TxnId)
    requires GuardedRun(Fresh(versions, base), events)
    ensures var w := Run(Fresh(versions, base), events);
      CanFinish(w.sys, t) ==>
        && RollbackResult(w.sys.m, t) == Ok(Newest(w.sys.m.txns[t].undoLog))
        && Act(w, Rollback(t)).owed == w.owed[t := w.sys.m.txns[t].undoLog] && Act(w, Rollback(t)).store == w.store
        && (forall k :: Names(w.sys.m.txns[t].undoLog, k) <==> Wrote(OpsOf(w, t), k))
  {
    hide SysInv, DataInv, Act, Names, Wrote;
    GuardedRunOk(versions, base, events);
    var w := Run(Fresh(versions, base), events);
    if CanFinish(w.sys, t) {
      RollbackAt(w, t);
    }
  }

  /**
   * One event against a key that a list still owes for: the committed data there
   * stays, only the next entry of that very list changes what is stored, and the
   * last entry for the key restores the committed data.
   */
  ghost predicate OwedKept(w: World, event: Event, t: TxnId, k: Key)
    requires t in w.owed
  {
    var w' := Act(w, event);
    && t in w'.owed && Lookup(CommittedData(w'), k) == Lookup(CommittedData(w), k) && (t in w.lost ==> t in w'.lost)
    && (event != ApplyEntry(t) || t in w.lost ==> w'.owed[t] == w.owed[t] && Lookup(w'.store, k) == Lookup(w.store, k))
    && (if Names(w'.owed[t], k) then FirstLogged(w'.owed[t], k) == FirstLogged(w.owed[t], k)
        else event == ApplyEntry(t) && Lookup(w'.store, k) == Lookup(CommittedData(w'), k))
  }

  /** Nobody active can write what is owed, and no other list names it. */
  lemma OwedMeans(w: World, t: TxnId, k: Key)
    requires DataInv(w) && t in w.owed && Names(w.owed[t], k)
    ensures !IsActive(w.sys, t) && Owed(w, k) && k.modality in MODALITIES
    ensures FirstLogged(w.owed[t], k) == Some(Lookup(CommittedData(w), k))
    ensures forall u :: IsActive(w.sys, u) ==> !HoldsExclusive(w.sys.m.table, u, k) && !Wrote(OpsOf(w, u), k)
    ensures forall u :: u in w.owed && Names(w.owed[u], k) ==> u == t
  {
    assert Owed(w, k);
    forall u | IsActive(w.sys, u) ensures !Wrote(OpsOf(w, u), k) {
      if Wrote(OpsOf(w, u), k) {
        WriterHolds(w, u, k);
      }
    }
  }

  lemma ApplyKeepsOthers(w: World, t: TxnId, k: Key, u: TxnId)
    requires DataInv(w) && t in w.owed && Names(w.owed[t], k) && u != t
    ensures var w' := Act(w, ApplyEntry(u));
      t in w'.owed && w'.owed[t] == w.owed[t] && Lookup(w'.store, k) == Lookup(w.store, k)
  {
    hide DataInv, Names, FirstLogged;
    OwedMeans(w, t, k);
    if CanApply(w, u) {
      var e := w.owed[u][|w.owed[u]| - 1];
      EntryIsOwed(w, u, e);
    }
  }

  lemma ApplyKeepsOwn(w: World, t: TxnId, k: Key)
    requires DataInv(w) && t in w.owed && Names(w.owed[t], k)
    ensures OwedKept(w, ApplyEntry(t), t, k)
  {
    hide DataInv, FirstLogged, CommittedData;
    OwedMeans(w, t, k);
    var w' := Act(w, ApplyEntry(t));
    SameHistory(w, w');
    if CanApply(w, t) {
      var e := NextEntry(w, t, k);
    }
  }

  lemma OwedStep(w: World, event: Event, t: TxnId, k: Key)
    requires SysInv(w.sys) && DataInv(w) && t in w.owed && Names(w.owed[t], k)
    ensures OwedKept(w, event, t, k)
  {
    hide SysInv, DataInv, Do, CanWrite, CanFinish, CanRead, Unsettled, FailsValidation, Names, FirstLogged, Wrote, CommittedData;
    OwedMeans(w, t, k);
    var w' := Act(w, event);
    match event {
      case WriteData(u, key, value, version) =>
        SameHistory(w, w');
        if CanWrite(w.sys, u, key) {
          CanWriteMeans(w.sys, u, key);
        }
      case Commit(u) =>
        if CanFinish(w.sys, u) {
          FinishMeans(w.sys, u);
          if !FailsValidation(w.sys.m, u) {
            CommitLeavesKey(w, u, k);
          } else {
            SameHistory(w, w');
          }
        }
      case Rollback(u) =>
        SameHistory(w, w');
        if CanFinish(w.sys, u) {
          FinishMeans(w.sys, u);
        }
      case ApplyEntry(u) =>
        if u == t {
          ApplyKeepsOwn(w, t, k);
        } else {
          ApplyFrame(w, u);
          SameHistory(w, w');
          ApplyKeepsOthers(w, t, k, u);
        }
      case Abort(u) =>
        SameHistory(w, w');
        if CanFinish(w.sys, u) {
          FinishMeans(w.sys, u);
          AbortRestores(w, u, k);
        }
      case _ => SameHistory(w, w');
    }
  }

  /** Whatever event follows a guarded run, it treats a key that is owed like that. */
  lemma OwedKeyIsFrozen(versions: Versions, base: Store, events: seq<Event>, event: Event, t: TxnId, k: Key)
    requires GuardedRun(Fresh(versions, base), events)
    ensures var w := Run(Fresh(versions, base), events);
      t in w.owed && Names(w.owed[t], k) ==>
        FirstLogged(w.owed[t], k) == Some(Lookup(CommittedData(w), k)) && OwedKept(w, event, t, k)
  {
    hide SysInv, DataInv, Act, OwedKept;
    GuardedRunOk(versions, base, events);
    var w := Run(Fresh(versions, base), events);
    if t in w.owed && Names(w.owed[t], k) {
      OwedMeans(w, t, k);
      OwedStep(w, event, t, k);
    }
  }

  /** At some point of `more` the list of `t` gave `k` the value `data`, the committed one then, and named it no more. */
  ghost predicate RestoredIn(w: World, more: seq<Event>, t: TxnId, k: Key, data: Option<Bytes>) {
    exists n :: 0 < n <= |more| && more[n - 1] == ApplyEntry(t) && RestoredBy(Run(w, more[..n]), t, k, data)
  }

  ghost predicate RestoredBy(w: World, t: TxnId, k: Key, data: Option<Bytes>) {
    t in w.owed && !Names(w.owed[t], k) && Lookup(w.store, k) == data == Lookup(CommittedData(w), k)
  }

  /** The list still owes `k` the value `data`, which is the committed one. */
  ghost predicate StillOwes(w: World, t: TxnId, k: Key, data: Option<Bytes>) {
    t in w.owed && FirstLogged(w.owed[t], k) == Some(data) && Lookup(CommittedData(w), k) == data
  }

  lemma RestoredLater(w: World, more: seq<Event>, event: Event, t: TxnId, k: Key, data: Option<Bytes>)
    requires RestoredIn(w, more, t, k, data)
    ensures RestoredIn(w, more + [event], t, k, data)
  {
    var n :| 0 < n <= |more| && more[n - 1] == ApplyEntry(t) && RestoredBy(Run(w, more[..n]), t, k, data);
    assert (more + [event])[..n] == more[..n];
  }

  lemma {:induction false} OwedUntilRestored(w: World, more: seq<Event>, t: TxnId, k: Key, data: Option<Bytes>)
    requires SysInv(w.sys) && DataInv(w) && StillOwes(w, t, k, data) && GuardedRun(w, more)
    ensures StillOwes(Run(w, more), t, k, data) || RestoredIn(w, more, t, k, data)
  {
    hide SysInv, DataInv, Act, Guarded, RestoredIn, CommittedData, FirstLogged;
    if more != [] {
      var init, last := more[..|more| - 1], more[|more| - 1];
      assert more == init + [last];
      OwedUntilRestored(w, init, t, k, data);
      if RestoredIn(w, init, t, k, data) {
        RestoredLater(w, init, last, t, k, data);
      } else {
        RunKeepsData(w, init);
        OwedStep(Run(w, init), last, t, k);
        if !Names(Run(w, more).owed[t], k) {
          RestoredNow(w, more, t, k, data);
        }
      }
    }
  }

  lemma RestoredNow(w: World, more: seq<Event>, t: TxnId, k: Key, data: Option<Bytes>)
    requires more != [] && more[|more| - 1] == ApplyEntry(t) && RestoredBy(Run(w, more), t, k, data)
    ensures RestoredIn(w, more, t, k, data)
  {
    assert more[..|more|] == more;
  }

  /**
   * In every guarded run, a list applied entry by entry at whatever later times,
   * with any guarded events in between, ends by giving each key it names the
   * value from before its transaction's first write, which is the committed
   * value from the rollback until then.
   */
  lemma LateUndoRestores(versions: Versions, base: Store, events: seq<Event>, more: seq<Event>, t: TxnId, k: Key)
    requires GuardedRun(Fresh(versions, base), events)
    ensures var w := Run(Fresh(versions, base), events);
      t in w.owed && Names(w.owed[t], k) && GuardedRun(w, more) ==>
        var (later, data) := (Run(w, more), FirstLogged(w.owed[t], k).value);
        StillOwes(w, t, k, data) && (StillOwes(later, t, k, data) || RestoredIn(w, more, t, k, data))
  {
    hide SysInv, DataInv, Act, GuardedRun, RestoredIn;
    GuardedRunOk(versions, base, events);
    var w := Run(Fresh(versions, base), events);
    if t in w.owed && Names(w.owed[t], k) && GuardedRun(w, more) {
      OwedMeans(w, t, k);
      OwedUntilRestored(w, more, t, k, FirstLogged(w.owed[t], k).value);
    }
  }

  /**
   * A rollback that applies its list within its step, before the locks go, gives
   * each key written its value from before the first write, and no other key changes.
   */
  lemma RollbackRestores(versions: Versions, base: Store, events: seq<Event>, t: TxnId, k: Key)
    requires GuardedRun(Fresh(versions, base), events)
    ensures var w := Run(Fresh(versions, base), events);
      CanFinish(w.sys, t) ==>
        var after := Act(w, Abort(t)).store;
        if Wrote(OpsOf(w, t), k)
        then Lookup(after, k) == Lookup(CommittedData(w), k) && FirstLogged(w.sys.m.txns[t].undoLog, k) == Some(Lookup(after, k))
        else Lookup(after, k) == Lookup(w.store, k)
  {
    hide SysInv, DataInv, Act, Wrote;
    GuardedRunOk(versions, base, events);
    var w := Run(Fresh(versions, base), events);
    if CanFinish(w.sys, t) {
      AbortRestores(w, t, k);
      LogOf(w, t);
    }
  }

  // ---- A dangerous grant breaks some run ---------------------------------------------------

  /** `t` was granted `key` since `s`, and nothing else of it and no version changed. */
  ghost predicate TookLock(s: Sys, s': Sys, t: TxnId, key: Key, kind: LockType) {
    && IsActive(s, t) && IsActive(s', t) && CallersInv(s') && TableOk(s'.m.table)
    && Holds(s'.m.table, t, key) && (kind == Exclusive ==> HoldsExclusive(s'.m.table, t, key))
    && s'.m.txns[t].level == s.m.txns[t].level && s'.m.txns[t].readSet == s.m.txns[t].readSet
    && s'.m.versions == s.m.versions && s'.log == s.log
    && (forall u :: IsActive(s', u) ==> IsActive(s, u))
  }

  lemma AfterTaking(s: Sys, t: TxnId)
    requires SysInv(s) && AboutToHold(s, t)
    ensures var s' := Do(s, TakeLock(t));
      TookLock(s, s', t, s.pending[t].key, s.pending[t].kind) && t in s'.pending && s'.pending[t].Taken?
  {
    AcquireChangesOnlyRequester(s.m.table, t, s.pending[t].key, s.pending[t].kind);
    TakeLockKeepsLocks(s, t);
    TakeLockKeepsCallers(s, t);
  }

  lemma AfterReleasing(s: Sys, s1: Sys, t: TxnId, key: Key, kind: LockType)
    requires TookLock(s, s1, t, key, kind) && t in s1.pending && s1.pending[t].Taken?
    ensures var s' := Do(s1, Release);
      TookLock(s, s', t, key, kind) && t in s'.pending && s'.pending[t].Taken? && s'.guard == None
  {
    hide Holds, HoldsExclusive, TableOk, AfterRelease;
    ReleaseKeepsCallers(s1);
    ReleaseDisturbsNobody(s1, t);
    if s1.guard.Some? {
      ReleaseKeepsTableOk(s1.m.table, s1.guard.value);
    }
  }

  lemma AfterNoting(s: Sys, s2: Sys, t: TxnId, key: Key, kind: LockType)
    requires TookLock(s, s2, t, key, kind) && t in s2.pending && s2.pending[t].Taken? && s2.guard == None
    ensures var s' := Do(s2, NoteLock(t)); TookLock(s, s', t, key, kind) && CanFinish(s', t)
  {
    hide Holds, HoldsExclusive, TableOk, DropKey;
    NoteLockKeepsCallers(s2, t);
  }

  // ---- Runs from the front -------------------------------------------------------------------

  lemma {:induction false} RunFromFront(w: World, event: Event, rest: seq<Event>)
    ensures Run(w, [event] + rest) == Run(Act(w, event), rest)
    ensures Orderly(w, event) && OrderlyRun(Act(w, event), rest) ==> OrderlyRun(w, [event] + rest)
    decreases |rest|
  {
    hide Act, Orderly;
    var all := [event] + rest;
    if rest == [] {
      assert all[..0] == [] && Run(w, []) == w && Run(Act(w, event), []) == Act(w, event);
      assert OrderlyRun(w, all[..0]);
    } else {
      RunFromFront(w, event, rest[..|rest| - 1]);
      assert all[..|all| - 1] == [event] + rest[..|rest| - 1];
    }
  }

  /** Some orderly run from `w` is not serial. */
  ghost predicate CanGoWrong(w: World) {
    exists more :: OrderlyRun(w, more) && !SerialSoFar(Run(w, more))
  }

  lemma WrongNow(w: World)
    requires !SerialSoFar(w)
    ensures CanGoWrong(w)
  {
    assert Run(w, []) == w && OrderlyRun(w, []);
  }

  lemma WrongLater(w: World, event: Event)
    requires Orderly(w, event) && CanGoWrong(Act(w, event))
    ensures CanGoWrong(w)
  {
    hide Orderly, Act, SerialSoFar;
    var more :| OrderlyRun(Act(w, event), more) && !SerialSoFar(Run(Act(w, event), more));
    RunFromFront(w, event, more);
    assert OrderlyRun(w, [event] + more);
  }

  // ---- Applying several entries ------------------------------------------------------------------

  /** The list of `u` applied down to its oldest `n` entries. */
  function Applied(w: World, u: TxnId, n: nat): World
    requires u in w.owed && n <= |w.owed[u]|
  {
    w.(store := ApplyUndo(w.store, Newest(w.owed[u][n..])), owed := w.owed[u := w.owed[u][..n]])
  }

  lemma {:induction false} NewestAppend(undoLog: seq<UndoEntry>, e: UndoEntry)
    ensures Newest(undoLog + [e]) == [e] + Newest(undoLog)
  {
    if undoLog == [] {
      assert [] + [e] == [e] && [e][1..] == [];
    } else {
      assert (undoLog + [e])[1..] == undoLog[1..] + [e];
      NewestAppend(undoLog[1..], e);
    }
  }

  lemma AppliedOneMore(w: World, u: TxnId, n: nat)
    requires CanApply(w, u) && n < |w.owed[u]|
    ensures Applied(Act(w, ApplyEntry(u)), u, n) == Applied(w, u, n)
  {
    var list := w.owed[u];
    var last := |list| - 1;
    assert list[n..] == list[..last][n..] + [list[last]];
    NewestAppend(list[..last][n..], list[last]);
    assert list[..last][..n] == list[..n];
    assert w.owed[u := list[..last]][u := list[..n]] == w.owed[u := list[..n]];
  }

  /** What can go wrong after some entries are applied can go wrong before. */
  lemma {:induction false} WrongAfterApplying(w: World, u: TxnId, n: nat)
    requires u in w.owed && u !in w.lost && w.sys.guard == None && n <= |w.owed[u]| && CanGoWrong(Applied(w, u, n))
    ensures CanGoWrong(w)
    decreases if u in w.owed then |w.owed[u]| else 0
  {
    hide CanGoWrong;
    if n == |w.owed[u]| {
      assert w.owed[u][n..] == [] && w.owed[u][..n] == w.owed[u];
      assert w.owed[u := w.owed[u]] == w.owed;
    } else {
      var w1 := Act(w, ApplyEntry(u));
      AppliedOneMore(w, u, n);
      WrongAfterApplying(w1, u, n);
      assert Orderly(w, ApplyEntry(u));
      WrongLater(w, ApplyEntry(u));
    }
  }

  // ---- The two ways to go wrong ----------------------------------------------------------------

  /** `t` was granted its lock since `w` and is ready to go on; all else that changed is that entries were applied. */
  ghost predicate HasLock(w: World, w': World, t: TxnId, key: Key, kind: LockType) {
    && OrderlyInv(w) && TookLock(w.sys, w'.sys, t, key, kind) && CanFinish(w'.sys, t)
    && w' == w.(sys := w'.sys, store := w'.store, owed := w'.owed)
  }

  lemma StaysValid(w: World, s': Sys, t: TxnId, key: Key, kind: LockType)
    requires OrderlyInv(w) && TookLock(w.sys, s', t, key, kind)
    ensures !FailsValidation(s'.m, t)
  {
    HeldStampsValidate(w.sys, t);
    CurrentExactly(s', t);
  }

  /** Read under the lock and commit: the read is not that of the serial run. */
  lemma ReadAndCommit(w: World, w': World, t: TxnId, key: Key, kind: LockType)
    requires HasLock(w, w', t, key, kind) && Owed(w, key) && Lookup(w'.store, key) != Lookup(CommittedData(w), key)
    ensures CanGoWrong(w')
  {
    hide OrderlyInv, TookLock, SerialSoFar, CanFinish, HasLock, DataInv, Do, Unsettled;
    HasLockMeans(w, w', t, key, kind);
    if Wrote(OpsOf(w, t), key) {
      WriterHolds(w, t, key);
    }
    var w1 := Act(w', ReadData(t, key));
    var w2 := Act(w1, Commit(t));
    assert !FailsValidation(w'.sys.m, t) by { HasLockValid(w, w', t, key, kind); }
    assert w2.history == w.history + [OpsOf(w, t) + [Read(key, Lookup(w'.store, key))]];
    assert w2.base == w.base;
    IllegalRead(w, w2, OpsOf(w, t), key, Lookup(w'.store, key));
    WrongNow(w2);
    assert Orderly(w1, Commit(t));
    WrongLater(w1, Commit(t));
    assert Orderly(w', ReadData(t, key));
    WrongLater(w', ReadData(t, key));
  }

  lemma HasLockMeans(w: World, w': World, t: TxnId, key: Key, kind: LockType)
    requires HasLock(w, w', t, key, kind)
    ensures DataInv(w) && IsActive(w.sys, t) && CanRead(w'.sys, t, key) && Holds(w'.sys.m.table, t, key)
    ensures IsActive(w'.sys, t) && CanFinish(w'.sys, t) && (kind == Exclusive ==> HoldsExclusive(w'.sys.m.table, t, key))
    ensures w'.sys.log == w.sys.log && w' == w.(sys := w'.sys, store := w'.store, owed := w'.owed)
    ensures forall u :: IsActive(w'.sys, u) ==> IsActive(w.sys, u)
  {
  }

  lemma IllegalRead(w: World, w2: World, ops: seq<Op>, key: Key, value: Option<Bytes>)
    requires w2.base == w.base && w2.history == w.history + [ops + [Read(key, value)]]
    requires !Wrote(ops, key) && value != Lookup(CommittedData(w), key)
    ensures !SerialSoFar(w2)
  {
    var n := |w.history|;
    var ops' := ops + [Read(key, value)];
    assert w2.history[n] == ops' && w2.history[..n] == w.history && ops'[..|ops|] == ops;
    UnwrittenUnchanged(CommittedData(w), ops, key);
    assert !Legal(Serial(w2.base, w2.history[..n]), w2.history[n]);
  }

  /** Some value other than `value`. */
  function Other(value: Option<Bytes>): (r: Option<Bytes>)
    ensures r != value
  {
    if value == None then Some([]) else None
  }

  /** The world after `t` wrote `value`, committed, and let its locks go. */
  ghost function WroteAndCommitted(w': World, t: TxnId, key: Key, value: Option<Bytes>): World {
    Act(Act(Act(w', WriteData(t, key, value, 0)), Commit(t)), Manage(Release))
  }

  lemma WriteStaysReady(w': World, t: TxnId, key: Key, value: Option<Bytes>)
    requires CanWrite(w'.sys, t, key) && CanFinish(w'.sys, t) && !FailsValidation(w'.sys.m, t)
    ensures var w1 := Act(w', WriteData(t, key, value, 0));
      && CanFinish(w1.sys, t) && !FailsValidation(w1.sys.m, t) && OpsOf(w1, t) == OpsOf(w', t) + [Write(key, value)]
      && w1.owed == w'.owed && w1.lost == w'.lost && w1.base == w'.base && w1.history == w'.history
      && (forall u :: IsActive(w1.sys, u) ==> IsActive(w'.sys, u) && (u != t ==> OpsOf(w1, u) == OpsOf(w', u)))
  {
    hide Holds, HoldsExclusive;
    var w1 := Act(w', WriteData(t, key, value, 0));
    assert w1.sys.m.txns[t].readSet == w'.sys.m.txns[t].readSet && w1.sys.m.txns[t].level == w'.sys.m.txns[t].level;
  }

  lemma CommitAndRelease(w1: World, t: TxnId)
    requires CanFinish(w1.sys, t) && !FailsValidation(w1.sys.m, t)
    ensures var w3 := Act(Act(w1, Commit(t)), Manage(Release));
      && w3.owed == w1.owed && w3.lost == w1.lost && w3.base == w1.base && w3.sys.guard == None && w3.ops == w1.ops
      && w3.history == w1.history + [OpsOf(w1, t)]
      && (forall u :: IsActive(w3.sys, u) ==> IsActive(w1.sys, u) && u != t)
  {
    hide AfterRelease, IncrementAll;
    CommitCommits(w1, t);
  }

  lemma AfterWriteAndCommit(w: World, w': World, t: TxnId, key: Key, value: Option<Bytes>)
    requires HasLock(w, w', t, key, Exclusive) && key.modality in MODALITIES && w'.owed == w.owed
    ensures var w3 := WroteAndCommitted(w', t, key, value);
      && w3.owed == w.owed && w3.lost == w.lost && w3.sys.guard == None && w3.base == w.base
      && w3.history == w.history + [OpsOf(w, t) + [Write(key, value)]]
      && (forall u :: IsActive(w3.sys, u) ==> IsActive(w.sys, u) && OpsOf(w3, u) == OpsOf(w, u))
  {
    hide HasLock, OrderlyInv, Holds, HoldsExclusive, Act, FailsValidation;
    HasLockMeans(w, w', t, key, Exclusive);
    assert CanWrite(w'.sys, t, key);
    assert !FailsValidation(w'.sys.m, t) by { HasLockValid(w, w', t, key, Exclusive); }
    WriteStaysReady(w', t, key, value);
    CommitAndRelease(Act(w', WriteData(t, key, value, 0)), t);
  }

  lemma HasLockValid(w: World, w': World, t: TxnId, key: Key, kind: LockType)
    requires HasLock(w, w', t, key, kind)
    ensures !FailsValidation(w'.sys.m, t)
  {
    StaysValid(w, w'.sys, t, key, kind);
  }

  /** Write under the lock, commit, and only then apply the list: the committed value is lost. */
  lemma WriteAndUndo(w: World, w': World, t: TxnId, key: Key, u: TxnId)
    requires HasLock(w, w', t, key, Exclusive) && w'.owed == w.owed && u in w.owed && Names(w.owed[u], key)
    ensures CanGoWrong(w')
  {
    hide OrderlyInv, TookLock, SerialSoFar, CanFinish, Do, Applied, CanGoWrong;
    var value := Other(Lookup(CommittedData(w), key));
    assert key.modality in MODALITIES && w.lost == {} by { OrderlyOwed(w, u, key); }
    AfterWriteAndCommit(w, w', t, key, value);
    var w1 := Act(w', WriteData(t, key, value, 0));
    var w2 := Act(w1, Commit(t));
    var w3 := Act(w2, Manage(Release));
    OverwrittenByUndo(w, w3, t, u, key, value);
    WrongNow(Applied(w3, u, 0));
    WrongAfterApplying(w3, u, 0);
    assert Orderly(w2, Manage(Release));
    WrongLater(w2, Manage(Release));
    assert Orderly(w1, Commit(t));
    WrongLater(w1, Commit(t));
    assert Orderly(w', WriteData(t, key, value, 0));
    WrongLater(w', WriteData(t, key, value, 0));
  }

  lemma OrderlyOwed(w: World, u: TxnId, key: Key)
    requires OrderlyInv(w) && u in w.owed && Names(w.owed[u], key)
    ensures key.modality in MODALITIES && FirstLogged(w.owed[u], key) == Some(Lookup(CommittedData(w), key)) && w.lost == {}
    ensures forall v :: v in w.owed && Names(w.owed[v], key) ==> v == u
    ensures forall v :: IsActive(w.sys, v) ==> !Wrote(OpsOf(w, v), key)
  {
    hide DataInv;
    OwedMeans(w, u, key);
  }

  lemma OverwrittenByUndo(w: World, w3: World, t: TxnId, u: TxnId, key: Key, value: Option<Bytes>)
    requires OrderlyInv(w) && u in w.owed && Names(w.owed[u], key) && value != Lookup(CommittedData(w), key)
    requires w3.owed == w.owed && w3.base == w.base
    requires w3.history == w.history + [OpsOf(w, t) + [Write(key, value)]]
    requires forall v :: IsActive(w3.sys, v) ==> IsActive(w.sys, v) && OpsOf(w3, v) == OpsOf(w, v)
    ensures !SerialSoFar(Applied(w3, u, 0))
  {
    hide OrderlyInv, ApplyUndo;
    OrderlyOwed(w, u, key);
    var w4 := Applied(w3, u, 0);
    assert w.owed[u][0..] == w.owed[u] && w4.owed[u] == [];
    UndoRestoresOldest(w3.store, w.owed[u], key);
    assert Lookup(w4.store, key) == Lookup(CommittedData(w), key);
    assert w4.history[..|w.history|] == w.history;
    WriteAppended(CommittedData(w), OpsOf(w, t), key, value);
    assert Lookup(CommittedData(w4), key) == value;
    assert NobodyWrote(w4, key) && !Owed(w4, key);
  }

  // ---- The guard is exact -----------------------------------------------------------------------

  /** Applied down to an entry, the list has put that entry's data in place. */
  lemma AppliedDownTo(w: World, u: TxnId, n: nat)
    requires u in w.owed && n < |w.owed[u]|
    ensures Lookup(Applied(w, u, n).store, w.owed[u][n].key) == w.owed[u][n].previousData
  {
    UndoRestoresOldest(w.store, w.owed[u][n..], w.owed[u][n].key);
  }

  /** With the lock in hand, an entry that differs from what is stored, or that a write can come before, breaks the order. */
  lemma DangerWithLock(w: World, w3: World, t: TxnId, key: Key, kind: LockType, u: TxnId, n: nat)
    requires HasLock(w, w3, t, key, kind) && w3.store == w.store && w3.owed == w.owed
    requires u in w.owed && n < |w.owed[u]| && w.owed[u][n].key == key && w3.sys.guard == None
    requires kind == Exclusive || w.owed[u][n].previousData != Lookup(w.store, key)
    ensures CanGoWrong(w3)
  {
    hide OrderlyInv, TookLock, CanFinish, OrderlyRun, SerialSoFar, Applied, CanGoWrong, CommittedData, Names;
    EntryIsOwed(w, u, w.owed[u][n]);
    if Lookup(w.store, key) != Lookup(CommittedData(w), key) {
      ReadAndCommit(w, w3, t, key, kind);
    } else if w.owed[u][n].previousData != Lookup(w.store, key) {
      AppliedDownTo(w3, u, n);
      var w4 := Applied(w3, u, n);
      assert HasLock(w, w4, t, key, kind) by { AppliedHasLock(w, w3, t, key, kind, u, n); }
      ReadAndCommit(w, w4, t, key, kind);
      assert w.lost == {} by { OrderlyOwed(w, u, key); }
      WrongAfterApplying(w3, u, n);
    } else {
      WriteAndUndo(w, w3, t, key, u);
    }
  }

  lemma AppliedHasLock(w: World, w3: World, t: TxnId, key: Key, kind: LockType, u: TxnId, n: nat)
    requires HasLock(w, w3, t, key, kind) && u in w3.owed && n < |w3.owed[u]|
    ensures HasLock(w, Applied(w3, u, n), t, key, kind)
  {
    hide OrderlyInv, TookLock, CanFinish, ApplyUndo;
  }

  lemma DangerGoesWrong(w: World, t: TxnId)
    requires OrderlyInv(w) && AboutToHold(w.sys, t) && Dangerous(w, w.sys.pending[t].key, w.sys.pending[t].kind)
    ensures CanGoWrong(Act(w, Manage(TakeLock(t))))
  {
    hide OrderlyInv, TookLock, CanFinish, Do, CanGoWrong, Orderly, SysInv, DataInv;
    var (key, kind) := (w.sys.pending[t].key, w.sys.pending[t].kind);
    OrderlySys(w);
    var u, e :| u in w.owed && e in w.owed[u] && e.key == key
                && (kind == Exclusive || e.previousData != Lookup(w.store, key));
    var n :| 0 <= n < |w.owed[u]| && w.owed[u][n] == e;
    AfterTaking(w.sys, t);
    var w1 := Act(w, Manage(TakeLock(t)));
    var w2 := Act(w1, Manage(Release));
    var w3 := Act(w2, Manage(NoteLock(t)));
    AfterReleasing(w.sys, w1.sys, t, key, kind);
    AfterNoting(w.sys, w2.sys, t, key, kind);
    FinishMeans(w3.sys, t);
    DangerWithLock(w, w3, t, key, kind, u, n);
    QuietIsOrderly(w2, NoteLock(t));
    WrongLater(w2, Manage(NoteLock(t)));
    QuietIsOrderly(w1, Release);
    WrongLater(w1, Manage(Release));
  }

  lemma QuietIsOrderly(w: World, step: Step)
    requires !step.TakeLock?
    ensures Orderly(w, Manage(step))
  {
  }

  lemma OrderlySys(w: World)
    requires OrderlyInv(w)
    ensures SysInv(w.sys) && DataInv(w)
  {
  }

  lemma SafeGoesRight(w: World, t: TxnId)
    requires OrderlyInv(w) && AboutToHold(w.sys, t) && !Dangerous(w, w.sys.pending[t].key, w.sys.pending[t].kind)
    ensures !CanGoWrong(Act(w, Manage(TakeLock(t))))
  {
    hide OrderlyInv, SerialSoFar, Dangerous, Do, DataInv, SysInv;
    var event := Manage(TakeLock(t));
    OrderlySys(w);
    assert Orderly(w, event);
    assert OrderlyInv(Act(w, event)) by { OrderlyStep(w, event); }
    forall more | OrderlyRun(Act(w, event), more) ensures SerialSoFar(Run(Act(w, event), more)) {
      OrderlyRunOk(Act(w, event), more);
      OrderlyIsSerial(Run(Act(w, event), more));
    }
  }

  lemma OrderlyStep(w: World, event: Event)
    requires OrderlyInv(w) && Orderly(w, event)
    ensures OrderlyInv(Act(w, event))
  {
    hide SysInv, DataInv, HeldStamps, Act, Orderly;
    assert Guarded(w, event) by { OrderlyIsGuarded(w, event); }
    ActKeepsData(w, event);
    ActKeepsSys(w, event);
    OrderlyKeepsStamps(w, event);
    OrderlyKeepsClean(w, event);
  }

  lemma OrderlyIsGuarded(w: World, event: Event)
    requires Orderly(w, event)
    ensures Guarded(w, event)
  {
  }

  /**
   * Exactly when late undo does harm: in every orderly run, granting a key
   * leads to some orderly run that is not serial if and only if an undo entry
   * still to be applied names the key, and the key is granted for writing or its
   * data is not what that entry restores.
   */
  lemma GuardIsExact(versions: Versions, base: Store, events: seq<Event>, t: TxnId)
    requires OrderlyRun(Fresh(versions, base), events)
    ensures var w := Run(Fresh(versions, base), events);
      AboutToHold(w.sys, t) ==>
        (CanGoWrong(Act(w, Manage(TakeLock(t)))) <==> Dangerous(w, w.sys.pending[t].key, w.sys.pending[t].kind))
  {
    hide OrderlyInv, CanGoWrong, Dangerous, Act;
    OrderlyFromFresh(versions, base, events);
    var w := Run(Fresh(versions, base), events);
    if AboutToHold(w.sys, t) {
      if Dangerous(w, w.sys.pending[t].key, w.sys.pending[t].kind) {
        DangerGoesWrong(w, t);
      } else {
        SafeGoesRight(w, t);
      }
    }
  }
}
