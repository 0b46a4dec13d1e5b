/** Serializability over data, and what late undo, unlocked reads, and failed commits do to it. */
module DataResults {
  import opened Wrappers
  import opened WaitForGraph
  import opened LockTables
  import opened LockSafety
  import opened Transactions
  import opened Interleaving
  import opened Serializability
  import opened DataRuns
  import opened DataInvariant
  import opened DataSteps

  // ---- Guarded runs -----------------------------------------------------------------

  ghost predicate GuardedRun(w: World, events: seq<Event>) {
    events == [] ||
    (GuardedRun(w, events[..|events| - 1]) && Guarded(Run(w, events[..|events| - 1]), events[|events| - 1]))
  }

  lemma FreshOk(versions: Versions, base: Store)
    ensures SysInv(Fresh(versions, base).sys) && DataInv(Fresh(versions, base))
  {
    RunKeepsLocks(versions, []);
    RunKeepsVersions(versions, []);
  }

  lemma {:induction false} RunKeepsData(w: World, events: seq<Event>)
    requires SysInv(w.sys) && DataInv(w) && GuardedRun(w, events)
    ensures SysInv(Run(w, events).sys) && DataInv(Run(w, events)) && Run(w, events).base == w.base
  {
    hide SysInv, DataInv, Act, Guarded;
    if events != [] {
      var before, event := Run(w, events[..|events| - 1]), events[|events| - 1];
      RunKeepsData(w, events[..|events| - 1]);
      ActKeepsData(before, event);
      ActKeepsSys(before, event);
    }
  }

  lemma GuardedRunOk(versions: Versions, base: Store, events: seq<Event>)
    requires GuardedRun(Fresh(versions, base), events)
    ensures var w := Run(Fresh(versions, base), events); SysInv(w.sys) && DataInv(w) && w.base == base
  {
    hide SysInv, DataInv;
    FreshOk(versions, base);
    RunKeepsData(Fresh(versions, base), events);
  }

  // ---- Unlocked reads -----------------------------------------------------------------

  /** `event` is a read by `t` of data an undo entry stands out for: one still owed, or logged by another active transaction. */
  ghost predicate ReadsUnsettled(w: World, event: Event, t: TxnId) {
    event.ReadData? && event.t == t && CanRead(w.sys, t, event.key) && Unsettled(w, t, event.key)
  }

  ghost predicate ReadUnsettled(w: World, events: seq<Event>, t: TxnId) {
    exists n :: 0 <= n < |events| && ReadsUnsettled(Run(w, events[..n]), events[n], t)
  }

  lemma {:induction false} DirtyMeans(w: World, events: seq<Event>, t: TxnId)
    ensures t in Run(w, events).dirty <==> t in w.dirty || ReadUnsettled(w, events, t)
  {
    if events != [] {
      var init := events[..|events| - 1];
      DirtyMeans(w, init, t);
      DirtyStep(Run(w, init), events[|events| - 1], t);
      assert forall n :: 0 <= n <= |init| ==> init[..n] == events[..n];
      if ReadUnsettled(w, init, t) {
        var n :| 0 <= n < |init| && ReadsUnsettled(Run(w, init[..n]), init[n], t);
        assert ReadsUnsettled(Run(w, events[..n]), events[n], t);
      }
      if ReadUnsettled(w, events, t) {
        var n :| 0 <= n < |events| && ReadsUnsettled(Run(w, events[..n]), events[n], t);
        assert n < |init| ==> ReadsUnsettled(Run(w, init[..n]), init[n], t);
      }
    }
  }

  lemma DirtyStep(w: World, event: Event, t: TxnId)
    ensures t in Act(w, event).dirty <==> t in w.dirty || ReadsUnsettled(w, event, t)
  {
    hide Do, CanRead, Unsettled, CanWrite, CanFinish, FailsValidation;
  }

  /**
   * Reads stamped instead of locked: in every guarded run a committed
   * transaction read what it would have read at its place in the serial
   * execution exactly when it read nothing an undo entry stood out for, and data
   * that no active transaction wrote and no list is owed for is the outcome of
   * that execution.
   */
  lemma SerialExactlyWhenClean(versions: Versions, base: Store, events: seq<Event>)
    requires GuardedRun(Fresh(versions, base), events)
    ensures var w := Run(Fresh(versions, base), events);
      && |w.history| == |w.sys.log|
      && (forall i :: 0 <= i < |w.history| ==>
            (Legal(Serial(base, w.history[..i]), w.history[i]) <==>
             !ReadUnsettled(Fresh(versions, base), events, w.sys.log[i].id)))
      && (forall k :: NobodyWrote(w, k) && !Owed(w, k) ==> Lookup(w.store, k) == Lookup(Serial(base, w.history), k))
  {
    hide ReadUnsettled;
    GuardedRunOk(versions, base, events);
    var w := Run(Fresh(versions, base), events);
    forall i | 0 <= i < |w.history|
      ensures Legal(Serial(base, w.history[..i]), w.history[i]) <==>
              !ReadUnsettled(Fresh(versions, base), events, w.sys.log[i].id)
    {
      DirtyMeans(Fresh(versions, base), events, w.sys.log[i].id);
    }
  }

  /**
   * In every guarded run what is stored at a key is what a transaction would
   * find there running alone on the committed data exactly when no entry for it
   * stands out in an undo list still owed or in the undo log of another active
   * transaction; and under a lock none ever does.
   */
  lemma UnsettledInEveryRun(versions: Versions, base: Store, events: seq<Event>, t: TxnId, key: Key)
    requires GuardedRun(Fresh(versions, base), events)
    ensures var w := Run(Fresh(versions, base), events);
      IsActive(w.sys, t) ==>
        && (Lookup(w.store, key) == Own(w, t, key) <==> !Unsettled(w, t, key))
        && (Holds(w.sys.m.table, t, key) ==> !Unsettled(w, t, key))
  {
    hide DataInv, Unsettled, Own, Act;
    GuardedRunOk(versions, base, events);
    var w := Run(Fresh(versions, base), events);
    if IsActive(w.sys, t) {
      SysTableOk(w.sys);
      UnsettledExactly(w, t, key);
      if Holds(w.sys.m.table, t, key) {
        LockedIsSettled(w, t, key);
      }
    }
  }

  // ---- Locked reads -----------------------------------------------------------------

  /** Guarded, and every read and every stamp is made under a lock. */
  ghost predicate Orderly(w: World, event: Event) {
    && Guarded(w, event)
    && ((event.Stamp? || event.ReadData?) ==> Holds(w.sys.m.table, event.t, event.key))
  }

  ghost predicate OrderlyRun(w: World, events: seq<Event>) {
    events == [] ||
    (OrderlyRun(w, events[..|events| - 1]) && Orderly(Run(w, events[..|events| - 1]), events[|events| - 1]))
  }

  ghost predicate Current(s: Sys, t: TxnId, r: ReadStamp) {
    Holds(s.m.table, t, r.key) && VersionOf(s.m.versions, r.key) == r.version
  }

  /** Every stamp an active transaction took or is taking is of a key it holds, and current. */
  ghost predicate HeldStamps(s: Sys) {
    forall t :: IsActive(s, t) ==>
      && (forall r :: r in s.m.txns[t].readSet ==> Current(s, t, r))
      && (t in s.pending && s.pending[t].Seen? ==> Current(s, t, s.pending[t].stamp))
  }

  /** No stamp came from nowhere. */
  ghost predicate StampsKept(s: Sys, s': Sys, t: TxnId)
    requires IsActive(s, t) && IsActive(s', t)
  {
    && (forall r :: r in s'.m.txns[t].readSet ==>
          r in s.m.txns[t].readSet || (t in s.pending && s.pending[t].Seen? && s.pending[t].stamp == r))
    && (t in s'.pending && s'.pending[t].Seen? ==>
          (t in s.pending && s.pending[t] == s'.pending[t]) || Current(s, t, s'.pending[t].stamp))
  }

  /** What `t` holds it still holds, at the same version. */
  ghost predicate LocksKept(s: Sys, s': Sys, t: TxnId) {
    forall k :: Holds(s.m.table, t, k) ==> Holds(s'.m.table, t, k) && VersionOf(s'.m.versions, k) == VersionOf(s.m.versions, k)
  }

  lemma UndisturbedKeepsLocks(s: Sys, s': Sys, t: TxnId)
    requires Undisturbed(s, s', t)
    ensures LocksKept(s, s', t)
  {
  }

  lemma HeldStampsCarryOver(s: Sys, s': Sys)
    requires HeldStamps(s)
    requires forall t :: IsActive(s', t) ==>
      || (IsActive(s, t) && LocksKept(s, s', t) && StampsKept(s, s', t))
      || (s'.m.txns[t].readSet == [] && t in s'.pending && s'.pending[t] == Idle)
    ensures HeldStamps(s')
  {
  }

  lemma QuietStepKeepsStamps(s: Sys, step: Step, t: TxnId)
    requires CallersInv(s) && TableOk(s.m.table) && Quiet(step) && IsActive(Do(s, step), t)
    requires step.ReadVersion? ==> Holds(s.m.table, step.t, step.key)
    ensures IsActive(s, t) && StampsKept(s, Do(s, step), t)
  {
    hide TableOk, Holds, AfterRelease;
    QuietStepFacts(s, step);
  }

  lemma OtherStepKeepsStamps(s: Sys, step: Step, t: TxnId)
    requires step.TakeLock? || step.NoteUndo? || step.Validate? || step.StartRollback?
    requires IsActive(Do(s, step), t)
    ensures IsActive(s, t) && StampsKept(s, Do(s, step), t)
  {
    hide Holds, AfterAcquire, IncrementAll;
  }

  lemma BeginStamps(s: Sys, t: TxnId, level: Isolation, u: TxnId)
    requires CallersInv(s) && IsActive(Do(s, Begin(t, level)), u)
    ensures var s' := Do(s, Begin(t, level));
      (IsActive(s, u) && StampsKept(s, s', u)) || (s'.m.txns[u].readSet == [] && u in s'.pending && s'.pending[u] == Idle)
  {
  }

  lemma ManageKeepsStamps(s: Sys, step: Step)
    requires SysInv(s) && HeldStamps(s) && (Neutral(step) || (step.ReadVersion? && Holds(s.m.table, step.t, step.key)))
    ensures HeldStamps(Do(s, step))
  {
    hide Do, HeldStamps, Undisturbed, StampsKept, LocksInv, VersionsInv, LocksKept;
    var s' := Do(s, step);
    assert TableOk(s.m.table) by { SysTableOk(s); }
    forall u | IsActive(s', u)
      ensures || (IsActive(s, u) && LocksKept(s, s', u) && StampsKept(s, s', u))
              || (s'.m.txns[u].readSet == [] && u in s'.pending && s'.pending[u] == Idle)
    {
      match step {
        case Begin(t, level) =>
          BeginStamps(s, t, level, u);
          if IsActive(s, u) {
            BeginDisturbsNobody(s, t, level, u);
            UndisturbedKeepsLocks(s, s', u);
          }
        case TakeLock(t) =>
          OtherStepKeepsStamps(s, step, u);
          TakeLockDisturbsNobody(s, t, u);
          UndisturbedKeepsLocks(s, s', u);
        case _ =>
          QuietStepKeepsStamps(s, step, u);
          QuietStepDisturbsNobody(s, step, u);
          UndisturbedKeepsLocks(s, s', u);
      }
    }
    HeldStampsCarryOver(s, s');
  }

  /** Steps that change neither locks nor versions. */
  lemma OtherStepKeepsHeld(s: Sys, step: Step)
    requires HeldStamps(s) && (step.NoteUndo? || step.Validate? || step.StartRollback?)
    requires Do(s, step).m.table == s.m.table && Do(s, step).m.versions == s.m.versions
    ensures HeldStamps(Do(s, step))
  {
    hide Do, HeldStamps, StampsKept, Holds;
    forall u | IsActive(Do(s, step), u) ensures IsActive(s, u) && LocksKept(s, Do(s, step), u) && StampsKept(s, Do(s, step), u) {
      OtherStepKeepsStamps(s, step, u);
    }
    HeldStampsCarryOver(s, Do(s, step));
  }

  /** A commit moves no version of a key another transaction holds. */
  lemma CommitKeepsHeld(w: World, t: TxnId)
    requires CanCommit(w, t) && HeldStamps(w.sys)
    ensures HeldStamps(Act(w, Commit(t)).sys)
  {
    hide CanCommit, HeldStamps, StampsKept, Undisturbed, SameData, LocksKept, Do, FailsValidation;
    CanCommitMeans(w, t);
    var s' := Do(w.sys, Validate(t));
    assert Act(w, Commit(t)).sys == s';
    CommitCommits(w, t);
    forall u | IsActive(s', u) ensures IsActive(w.sys, u) && LocksKept(w.sys, s', u) && StampsKept(w.sys, s', u) {
      OtherStepKeepsStamps(w.sys, Validate(t), u);
      CommitKeepsOthers(w.sys, s', t, u);
      CommitDisturbsNobody(w, t, u);
      UndisturbedKeepsLocks(w.sys, s', u);
    }
    HeldStampsCarryOver(w.sys, s');
  }

  /** Stamps taken under locks stay current, so validation cannot fail. */
  lemma HeldStampsValidate(s: Sys, t: TxnId)
    requires HeldStamps(s) && IsActive(s, t)
    ensures AllCurrent(s, t) && !FailsValidation(s.m, t)
  {
    CurrentExactly(s, t);
  }

  lemma TableUntouched(s: Sys, step: Step)
    requires step.NoteUndo? || step.StartRollback?
    ensures Do(s, step).m.table == s.m.table && Do(s, step).m.versions == s.m.versions
  {
  }

  lemma FinishMeans(s: Sys, t: TxnId)
    requires CanFinish(s, t)
    ensures IsActive(s, t) && s.guard == None
  {
  }

  lemma OrderlyKeepsStamps(w: World, event: Event)
    requires SysInv(w.sys) && DataInv(w) && HeldStamps(w.sys) && Orderly(w, event)
    ensures HeldStamps(Act(w, event).sys)
  {
    hide SysInv, DataInv, HeldStamps, Do, CanFinish, CanWrite, CanRead, Guarded, FailsValidation;
    match event {
      case Manage(step) =>
        if Neutral(step) {
          ManageKeepsStamps(w.sys, step);
        }
      case Stamp(t, key) => ManageKeepsStamps(w.sys, ReadVersion(t, key));
      case WriteData(t, key, value, version) =>
        if CanWrite(w.sys, t, key) {
          var step := NoteUndo(t, UndoEntry(key, Lookup(w.store, key), version));
          TableUntouched(w.sys, step);
          OtherStepKeepsHeld(w.sys, step);
        }
      case Commit(t) =>
        if CanFinish(w.sys, t) {
          FinishMeans(w.sys, t);
          HeldStampsValidate(w.sys, t);
          CommitKeepsHeld(w, t);
        }
      case Rollback(t) =>
        TableUntouched(w.sys, StartRollback(t));
        OtherStepKeepsHeld(w.sys, StartRollback(t));
      case Abort(t) =>
        TableUntouched(w.sys, StartRollback(t));
        OtherStepKeepsHeld(w.sys, StartRollback(t));
      case _ =>
    }
  }

  /** A read under a lock is never dirty, and a commit never fails. */
  lemma OrderlyKeepsClean(w: World, event: Event)
    requires SysInv(w.sys) && DataInv(w) && HeldStamps(w.sys) && Orderly(w, event)
    ensures Act(w, event).dirty == w.dirty && Act(w, event).lost == w.lost
  {
    hide Do, Guarded, CanFinish, CanWrite, HeldStamps, FailsValidation, DataInv, SysInv, Unsettled;
    if event.ReadData? && CanRead(w.sys, event.t, event.key) {
      SysTableOk(w.sys);
      LockedIsSettled(w, event.t, event.key);
    } else if event.Commit? && CanFinish(w.sys, event.t) {
      FinishMeans(w.sys, event.t);
      HeldStampsValidate(w.sys, event.t);
    }
  }

  ghost predicate OrderlyInv(w: World) {
    SysInv(w.sys) && DataInv(w) && HeldStamps(w.sys) && w.dirty == {} && w.lost == {}
  }

  lemma {:induction false} OrderlyRunOk(w: World, events: seq<Event>)
    requires OrderlyInv(w) && OrderlyRun(w, events)
    ensures OrderlyInv(Run(w, events)) && Run(w, events).base == w.base
  {
    hide SysInv, DataInv, HeldStamps, Act, Guarded;
    if events != [] {
      var before, event := Run(w, events[..|events| - 1]), events[|events| - 1];
      OrderlyRunOk(w, events[..|events| - 1]);
      ActKeepsData(before, event);
      ActKeepsSys(before, event);
      OrderlyKeepsStamps(before, event);
      OrderlyKeepsClean(before, event);
    }
  }

  lemma OrderlyFromFresh(versions: Versions, base: Store, events: seq<Event>)
    requires OrderlyRun(Fresh(versions, base), events)
    ensures OrderlyInv(Run(Fresh(versions, base), events)) && Run(Fresh(versions, base), events).base == base
  {
    hide SysInv, DataInv;
    FreshOk(versions, base);
    OrderlyRunOk(Fresh(versions, base), events);
  }

  /**
   * The committed transactions read what they would have read alone, one after
   * the other in commit order, and the stored data is the outcome of that
   * execution except where an active transaction has written or an undo list is
   * still to be applied.
   */
  ghost predicate SerialSoFar(w: World) {
    && |w.history| == |w.sys.log|
    && (forall i :: 0 <= i < |w.history| ==> Legal(Serial(w.base, w.history[..i]), w.history[i]))
    && (forall k :: NobodyWrote(w, k) && !Owed(w, k) ==> Lookup(w.store, k) == Lookup(CommittedData(w), k))
  }

  lemma OrderlyIsSerial(w: World)
    requires OrderlyInv(w)
    ensures SerialSoFar(w)
  {
  }

  /**
   * With reads and stamps under locks and every grant guarded, every run, its
   * rollbacks as the manager performs them, is equivalent to the serial
   * execution of its commits.
   */
  lemma RunsAreSerializable(versions: Versions, base: Store, events: seq<Event>)
    requires OrderlyRun(Fresh(versions, base), events)
    ensures SerialSoFar(Run(Fresh(versions, base), events)) && Run(Fresh(versions, base), events).base == base
  {
    hide OrderlyInv, SerialSoFar;
    OrderlyFromFresh(versions, base, events);
    OrderlyIsSerial(Run(Fresh(versions, base), events));
  }

  /** In such a run commit-time validation never fails. */
  lemma CommitNeverFailsUnderDiscipline(versions: Versions, base: Store, events: seq<Event>, t: TxnId)
    requires OrderlyRun(Fresh(versions, base), events)
    ensures var w := Run(Fresh(versions, base), events);
      IsActive(w.sys, t) ==> !FailsValidation(w.sys.m, t) && CommitResult(w.sys.m, t) == Ok(())
  {
    OrderlyFromFresh(versions, base, events);
    var w := Run(Fresh(versions, base), events);
    if IsActive(w.sys, t) {
      HeldStampsValidate(w.sys, t);
    }
  }
}
