/** What a commit that fails validation leaves behind. */
module FailedCommits {
  import opened Wrappers
  import opened WaitForGraph
  import opened LockTables
  import opened Transactions
  import opened DataRuns
  import opened DataInvariant
  import opened DataSteps
  import opened DataResults
  import opened LateUndo

  /** The value last written to `key`, if it was written. */
  function LastWritten(ops: seq<Op>, key: Key): Option<Option<Bytes>> {
    if ops == [] then None
    else
      var last := ops[|ops| - 1];
      if last.Write? && last.key == key then Some(last.value) else LastWritten(ops[..|ops| - 1], key)
  }

  lemma {:induction false} FinalIsLastWritten(c: Store, ops: seq<Op>, key: Key)
    ensures LastWritten(ops, key).Some? <==> Wrote(ops, key)
    ensures Lookup(Final(c, ops), key) == if LastWritten(ops, key).Some? then LastWritten(ops, key).value else Lookup(c, key)
  {
    if ops != [] {
      var before, last := ops[..|ops| - 1], ops[|ops| - 1];
      FinalIsLastWritten(c, before, key);
      assert ops == before + [last];
      WroteAppend(before, last, key);
    }
  }

  /** What is lost by a failed commit: the data of a key whose last write is not what was there before the first. */
  lemma FailedCommitAt(w: World, t: TxnId, k: Key)
    requires DataInv(w) && CanFinish(w.sys, t) && FailsValidation(w.sys.m, t)
    ensures var (w', undoLog, ops) := (Act(w, Commit(t)), w.sys.m.txns[t].undoLog, OpsOf(w, t));
      && CommitResult(w.sys.m, t).Err? && RollbackResult(w'.sys.m, t) == Err(InvalidState(t, RolledBack))
      && w'.sys.m.versions == w.sys.m.versions && t in w'.lost && w'.owed == w.owed[t := undoLog]
      && (Wrote(ops, k) ==> Names(undoLog, k))
      && (Wrote(ops, k) ==>
            (Lookup(w'.store, k) != Lookup(CommittedData(w'), k) <==> LastWritten(ops, k) != FirstLogged(undoLog, k)))
  {
    var w' := Act(w, Commit(t));
    FailedCommitRetires(w.sys, t);
    SameHistory(w, w');
    LogOf(w, t);
    FinalIsLastWritten(CommittedData(w), OpsOf(w, t), k);
    if Wrote(OpsOf(w, t), k) {
      WriterHolds(w, t, k);
    }
  }

  /** The list of `t` was lost in a failed commit and names `k`. */
  ghost predicate Stranded(w: World, t: TxnId, k: Key) {
    t in w.lost && t in w.owed && Names(w.owed[t], k)
  }

  /** No event of a guarded run touches the key again. */
  lemma StrandedStep(w: World, event: Event, t: TxnId, k: Key)
    requires SysInv(w.sys) && DataInv(w) && Stranded(w, t, k)
    ensures var w' := Act(w, event);
      Stranded(w', t, k) && Lookup(w'.store, k) == Lookup(w.store, k) && Lookup(CommittedData(w'), k) == Lookup(CommittedData(w), k)
  {
    hide SysInv, DataInv, Act, CommittedData;
    OwedStep(w, event, t, k);
  }

  lemma {:induction false} StrandedForever(w: World, more: seq<Event>, t: TxnId, k: Key)
    requires SysInv(w.sys) && DataInv(w) && Stranded(w, t, k) && GuardedRun(w, more)
    ensures var w' := Run(w, more);
      && Stranded(w', t, k) && RollbackResult(w'.sys.m, t).Err?
      && Lookup(w'.store, k) == Lookup(w.store, k) && Lookup(CommittedData(w'), k) == Lookup(CommittedData(w), k)
  {
    hide SysInv, DataInv, Act, Guarded;
    if more != [] {
      var before := Run(w, more[..|more| - 1]);
      StrandedForever(w, more[..|more| - 1], t, k);
      RunKeepsData(w, more[..|more| - 1]);
      StrandedStep(before, more[|more| - 1], t, k);
    }
    RunKeepsData(w, more);
    OwedMeans(Run(w, more), t, k);
  }

  /**
   * In every guarded run a commit is refused exactly when it fails validation,
   * and no version moves then. It leaves each key the transaction wrote off its
   * committed data exactly when the last value written is not the oldest value
   * logged, and every guarded continuation leaves it so: no later call returns
   * the list, and nothing restores or overwrites the key.
   */
  lemma FailedCommitStrands(versions: Versions, base: Store, events: seq<Event>, t: TxnId, k: Key, more: seq<Event>)
    requires GuardedRun(Fresh(versions, base), events)
    ensures var w := Run(Fresh(versions, base), events);
      CanFinish(w.sys, t) ==>
        && (CommitResult(w.sys.m, t).Err? <==> FailsValidation(w.sys.m, t))
        && (FailsValidation(w.sys.m, t) ==>
              && RollbackResult(Act(w, Commit(t)).sys.m, t) == Err(InvalidState(t, RolledBack))
              && Act(w, Commit(t)).sys.m.versions == w.sys.m.versions)
    ensures var w := Run(Fresh(versions, base), events);
      CanFinish(w.sys, t) && FailsValidation(w.sys.m, t) && Wrote(OpsOf(w, t), k) && GuardedRun(Act(w, Commit(t)), more) ==>
        var later := Run(Act(w, Commit(t)), more);
        && CommitResult(w.sys.m, t).Err? && RollbackResult(later.sys.m, t).Err?
        && (Lookup(later.store, k) != Lookup(CommittedData(later), k) <==>
              LastWritten(OpsOf(w, t), k) != FirstLogged(w.sys.m.txns[t].undoLog, k))
  {
    hide SysInv, DataInv, Act, GuardedRun, Wrote, FailsValidation;
    GuardedRunOk(versions, base, events);
    var w := Run(Fresh(versions, base), events);
    if CanFinish(w.sys, t) && FailsValidation(w.sys.m, t) {
      FailedCommitAt(w, t, k);
    }
    if CanFinish(w.sys, t) && FailsValidation(w.sys.m, t) && Wrote(OpsOf(w, t), k) && GuardedRun(Act(w, Commit(t)), more) {
      FailedCommitKeepsData(w, t);
      ActKeepsSys(w, Commit(t));
      StrandedForever(Act(w, Commit(t)), more, t, k);
    }
  }
}
