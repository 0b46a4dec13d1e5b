/** Commit-time validation makes every run serializable in commit order, at the level of versions. */
module Serializability {
  import opened Wrappers
  import opened WaitForGraph
  import opened LockTables
  import opened Transactions
  import opened Interleaving

  /** How often an undo log names `key`: each entry is one version increment at commit. */
  function Writes(undoLog: seq<UndoEntry>, key: Key): nat {
    if undoLog == [] then 0
    else Writes(undoLog[..|undoLog| - 1], key) + if undoLog[|undoLog| - 1].key == key then 1 else 0
  }

  function CommittedWrites(log: seq<CommitRecord>, key: Key): nat {
    if log == [] then 0
    else CommittedWrites(log[..|log| - 1], key) + Writes(log[|log| - 1].undoLog, key)
  }

  function VersionAfter(base: Versions, log: seq<CommitRecord>, key: Key): nat {
    VersionOf(base, key) + CommittedWrites(log, key)
  }

  lemma {:induction false} IncrementAllCounts(versions: Versions, undoLog: seq<UndoEntry>, key: Key)
    ensures VersionOf(IncrementAll(versions, undoLog), key) == VersionOf(versions, key) + Writes(undoLog, key)
  {
    if undoLog != [] {
      IncrementAllCounts(versions, undoLog[..|undoLog| - 1], key);
    }
  }

  lemma {:induction false} WritesPositive(undoLog: seq<UndoEntry>, key: Key)
    ensures Writes(undoLog, key) > 0 <==> exists e :: e in undoLog && e.key == key
  {
    if undoLog != [] {
      var prefix, last := undoLog[..|undoLog| - 1], undoLog[|undoLog| - 1];
      WritesPositive(prefix, key);
      assert undoLog == prefix + [last];
    }
  }

  /** The count of committed writes between two points, and what it means to be zero. */
  lemma {:induction false} CountsBetween(log: seq<CommitRecord>, i: nat, j: nat, key: Key)
    requires i <= j <= |log|
    ensures CommittedWrites(log[..i], key) <= CommittedWrites(log[..j], key)
    ensures CommittedWrites(log[..i], key) == CommittedWrites(log[..j], key) <==>
              forall l :: i <= l < j ==> Writes(log[l].undoLog, key) == 0
    decreases j
  {
    if i < j {
      CountsBetween(log, i, j - 1, key);
      assert log[..j][..j - 1] == log[..j - 1];
    }
  }

  // ---- Invariant over runs ------------------------------------------------------

  /** A stamp holds the version its key had when it was taken. */
  ghost predicate StampOk(base: Versions, log: seq<CommitRecord>, stamp: ReadStamp, at: nat) {
    at <= |log| && stamp.version == VersionAfter(base, log[..at], stamp.key)
  }

  ghost predicate StampsOk(base: Versions, log: seq<CommitRecord>, stamps: seq<ReadStamp>, at: seq<nat>) {
    |at| == |stamps| && forall j :: 0 <= j < |stamps| ==> StampOk(base, log, stamps[j], at[j])
  }

  /** A committed transaction stamped true versions; a Serializable one stamped those current at its commit. */
  ghost predicate RecordOk(base: Versions, before: seq<CommitRecord>, c: CommitRecord) {
    && StampsOk(base, before, c.stamps, c.at)
    && (c.level == Serializable ==>
          forall j :: 0 <= j < |c.stamps| ==> c.stamps[j].version == VersionAfter(base, before, c.stamps[j].key))
  }

  ghost predicate VersionsInv(s: Sys) {
    && (forall key :: VersionOf(s.m.versions, key) == VersionAfter(s.base, s.log, key))
    && (forall t :: t in s.m.txns && s.m.txns[t].state == Active ==>
          t in s.at && StampsOk(s.base, s.log, s.m.txns[t].readSet, s.at[t]))
    && (forall t :: t in s.pending && s.pending[t].Seen? ==>
          StampOk(s.base, s.log, s.pending[t].stamp, s.pending[t].at))
    && (forall i :: 0 <= i < |s.log| ==> RecordOk(s.base, s.log[..i], s.log[i]))
    && (forall i :: 0 <= i < |s.log| ==>
          s.log[i].id in s.pending && (s.log[i].id in s.m.txns ==> s.m.txns[s.log[i].id].state != Active))
    && (forall i, j :: 0 <= i < j < |s.log| ==> s.log[i].id != s.log[j].id)
  }

  lemma StampSurvivesCommit(base: Versions, log: seq<CommitRecord>, c: CommitRecord, stamp: ReadStamp, at: nat)
    requires StampOk(base, log, stamp, at)
    ensures StampOk(base, log + [c], stamp, at)
  {
    assert (log + [c])[..at] == log[..at];
  }

  lemma CommitKeepsVersions(s: Sys, t: TxnId)
    requires CallersInv(s) && VersionsInv(s) && Ready(s, t) && Unusable(s.m.txns, t).None? && !FailsValidation(s.m, t)
    ensures VersionsInv(DoValidate(s, t))
  {
    hide StampOk, IncrementAll, VersionAfter, FirstStale, RecordOk, CallersInv;
    var c := Record(s, t);
    var s' := DoValidate(s, t);
    assert s'.log == s.log + [c];
    CommitCounts(s, t);
    CommitRecordsRight(s, t);
    assert t in s.pending by { ReadyIsPending(s, t); }
    forall u | u in s'.m.txns && s'.m.txns[u].state == Active
      ensures u in s'.at && StampsOk(s.base, s'.log, s'.m.txns[u].readSet, s'.at[u])
    {
      forall j | 0 <= j < |s.m.txns[u].readSet| ensures StampOk(s.base, s'.log, s.m.txns[u].readSet[j], s.at[u][j]) {
        StampSurvivesCommit(s.base, s.log, c, s.m.txns[u].readSet[j], s.at[u][j]);
      }
    }
    forall u | u in s'.pending && s'.pending[u].Seen?
      ensures StampOk(s.base, s'.log, s'.pending[u].stamp, s'.pending[u].at)
    {
      StampSurvivesCommit(s.base, s.log, c, s.pending[u].stamp, s.pending[u].at);
    }
  }

  lemma ReadyIsPending(s: Sys, t: TxnId)
    requires Ready(s, t)
    ensures t in s.pending
  {
  }

  lemma CommitCounts(s: Sys, t: TxnId)
    requires VersionsInv(s) && Unusable(s.m.txns, t).None? && !FailsValidation(s.m, t)
    ensures var s' := DoValidate(s, t); forall key :: VersionOf(s'.m.versions, key) == VersionAfter(s.base, s'.log, key)
  {
    hide IncrementAll, VersionOf, StampsOk, RecordOk, StampOk;
    var s' := DoValidate(s, t);
    forall key ensures VersionOf(s'.m.versions, key) == VersionAfter(s.base, s'.log, key) {
      IncrementAllCounts(s.m.versions, s.m.txns[t].undoLog, key);
      assert s'.log[..|s'.log| - 1] == s.log;
    }
  }

  lemma CommitRecordsRight(s: Sys, t: TxnId)
    requires VersionsInv(s) && Unusable(s.m.txns, t).None? && !FailsValidation(s.m, t)
    ensures var s' := DoValidate(s, t); forall i :: 0 <= i < |s'.log| ==> RecordOk(s.base, s'.log[..i], s'.log[i])
  {
    hide IncrementAll, StampOk;
    var s' := DoValidate(s, t);
    assert s'.log == s.log + [Record(s, t)] && s.log[..|s.log|] == s.log;
    forall i | 0 <= i < |s'.log| ensures RecordOk(s.base, s'.log[..i], s'.log[i]) {
      assert s'.log[..i] == s.log[..i];
    }
  }

  lemma ReadVersionKeepsVersions(s: Sys, t: TxnId, key: Key)
    requires CallersInv(s) && VersionsInv(s)
    ensures VersionsInv(Do(s, ReadVersion(t, key)))
  {
    assert s.log[..|s.log|] == s.log;
  }

  lemma StampsOkAppend(base: Versions, log: seq<CommitRecord>, stamps: seq<ReadStamp>, at: seq<nat>, stamp: ReadStamp, n: nat)
    requires StampsOk(base, log, stamps, at) && StampOk(base, log, stamp, n)
    ensures StampsOk(base, log, stamps + [stamp], at + [n])
  {
    hide StampOk;
  }

  lemma NoteReadKeepsVersions(s: Sys, t: TxnId)
    requires CallersInv(s) && VersionsInv(s)
    ensures VersionsInv(Do(s, NoteRead(t)))
  {
    hide StampsOk, StampOk, RecordOk, VersionAfter, VersionOf;
    var s' := Do(s, NoteRead(t));
    if s' != s && Unusable(s.m.txns, t).None? {
      StampsOkAppend(s.base, s.log, s.m.txns[t].readSet, s.at[t], s.pending[t].stamp, s.pending[t].at);
      assert s'.m.txns[t].readSet == s.m.txns[t].readSet + [s.pending[t].stamp] && s'.at[t] == s.at[t] + [s.pending[t].at];
    }
    assert forall u :: u in s'.m.txns && u != t ==> s'.m.txns[u] == s.m.txns[u];
  }

  /** The stamps of `t` are the same in both states, or `t` is new and has none. */
  ghost predicate SameStamps(s: Sys, s': Sys, t: TxnId)
    requires t in s'.m.txns
  {
    t in s'.at &&
    if t in s.pending then
      && t in s.m.txns && s.m.txns[t].state == Active && s.m.txns[t].readSet == s'.m.txns[t].readSet
      && t in s.at && s'.at[t] == s.at[t]
    else s'.m.txns[t].readSet == [] && s'.at[t] == []
  }

  /** Steps that commit nothing and take no stamp. */
  lemma QuietStepKeepsVersions(s: Sys, s': Sys)
    requires VersionsInv(s)
    requires s'.base == s.base && s'.log == s.log && s'.m.versions == s.m.versions
    requires s.pending.Keys <= s'.pending.Keys
    requires forall t :: t in s'.pending && s'.pending[t].Seen? ==> t in s.pending && s.pending[t] == s'.pending[t]
    requires forall t :: t in s'.m.txns && s'.m.txns[t].state == Active ==> SameStamps(s, s', t)
    ensures VersionsInv(s')
  {
    forall i | 0 <= i < |s'.log|
      ensures s'.log[i].id in s'.m.txns ==> s'.m.txns[s'.log[i].id].state != Active
    {
      assert s.log[i].id in s.pending;
      assert s'.log[i].id in s'.m.txns && s'.m.txns[s'.log[i].id].state == Active ==> SameStamps(s, s', s'.log[i].id);
    }
    forall t | t in s'.m.txns && s'.m.txns[t].state == Active
      ensures t in s'.at && StampsOk(s.base, s.log, s'.m.txns[t].readSet, s'.at[t])
    {
      assert SameStamps(s, s', t);
    }
  }

  lemma BeginKeepsVersions(s: Sys, t: TxnId, level: Isolation)
    requires CallersInv(s) && VersionsInv(s)
    ensures VersionsInv(Do(s, Begin(t, level)))
  {
    QuietStepKeepsVersions(s, Do(s, Begin(t, level)));
  }

  lemma CheckForLockKeepsVersions(s: Sys, t: TxnId, key: Key, kind: LockType)
    requires CallersInv(s) && VersionsInv(s)
    ensures VersionsInv(Do(s, CheckForLock(t, key, kind)))
  {
    QuietStepKeepsVersions(s, Do(s, CheckForLock(t, key, kind)));
  }

  lemma TakeLockKeepsVersions(s: Sys, t: TxnId)
    requires CallersInv(s) && VersionsInv(s)
    ensures VersionsInv(Do(s, TakeLock(t)))
  {
    QuietStepKeepsVersions(s, Do(s, TakeLock(t)));
  }

  lemma NoteLockKeepsVersions(s: Sys, t: TxnId)
    requires CallersInv(s) && VersionsInv(s)
    ensures VersionsInv(Do(s, NoteLock(t)))
  {
    QuietStepKeepsVersions(s, Do(s, NoteLock(t)));
  }

  lemma NoteUndoKeepsVersions(s: Sys, t: TxnId, entry: UndoEntry)
    requires CallersInv(s) && VersionsInv(s)
    ensures VersionsInv(Do(s, NoteUndo(t, entry)))
  {
    QuietStepKeepsVersions(s, Do(s, NoteUndo(t, entry)));
  }

  lemma StartRollbackKeepsVersions(s: Sys, t: TxnId)
    requires CallersInv(s) && VersionsInv(s)
    ensures VersionsInv(Do(s, StartRollback(t)))
  {
    QuietStepKeepsVersions(s, Do(s, StartRollback(t)));
  }

  lemma ReleaseKeepsVersions(s: Sys)
    requires CallersInv(s) && VersionsInv(s)
    ensures VersionsInv(Do(s, Release))
  {
    QuietStepKeepsVersions(s, Do(s, Release));
  }

  lemma PurgeKeepsVersions(s: Sys)
    requires CallersInv(s) && VersionsInv(s)
    ensures VersionsInv(Do(s, Purge))
  {
    QuietStepKeepsVersions(s, Do(s, Purge));
  }

  lemma ValidateKeepsVersions(s: Sys, t: TxnId)
    requires CallersInv(s) && VersionsInv(s)
    ensures VersionsInv(Do(s, Validate(t)))
  {
    if Ready(s, t) && Unusable(s.m.txns, t).None? && !FailsValidation(s.m, t) {
      CommitKeepsVersions(s, t);
    } else {
      QuietStepKeepsVersions(s, Do(s, Validate(t)));
    }
  }

  lemma StepKeepsVersions(s: Sys, step: Step)
    requires CallersInv(s) && VersionsInv(s)
    ensures VersionsInv(Do(s, step))
  {
    match step {
      case Begin(t, level) => BeginKeepsVersions(s, t, level);
      case CheckForLock(t, key, kind) => CheckForLockKeepsVersions(s, t, key, kind);
      case TakeLock(t) => TakeLockKeepsVersions(s, t);
      case NoteLock(t) => NoteLockKeepsVersions(s, t);
      case ReadVersion(t, key) => ReadVersionKeepsVersions(s, t, key);
      case NoteRead(t) => NoteReadKeepsVersions(s, t);
      case NoteUndo(t, entry) => NoteUndoKeepsVersions(s, t, entry);
      case Validate(t) => ValidateKeepsVersions(s, t);
      case StartRollback(t) => StartRollbackKeepsVersions(s, t);
      case Release => ReleaseKeepsVersions(s);
      case Purge => PurgeKeepsVersions(s);
    }
  }

  lemma StepKeepsBase(s: Sys, step: Step)
    ensures Do(s, step).base == s.base
  {
  }

  lemma {:induction false} RunKeepsVersions(base: Versions, steps: seq<Step>)
    ensures VersionsInv(Exec(Start(base), steps)) && Exec(Start(base), steps).base == base
  {
    if steps != [] {
      var before := steps[..|steps| - 1];
      RunKeepsVersions(base, before);
      RunKeepsLocks(base, before);
      StepKeepsVersions(Exec(Start(base), before), steps[|steps| - 1]);
      StepKeepsBase(Exec(Start(base), before), steps[|steps| - 1]);
    }
  }

  // ---- Serializability in commit order -------------------------------------------

  /**
   * Run the committed transactions one after the other on a version map: each
   * Serializable one must find exactly the versions it stamped.
   */
  predicate SerialReplay(versions: Versions, log: seq<CommitRecord>)
    decreases |log|
  {
    log == [] ||
    (&& (log[0].level == Serializable ==>
           forall j :: 0 <= j < |log[0].stamps| ==> VersionOf(versions, log[0].stamps[j].key) == log[0].stamps[j].version)
     && SerialReplay(IncrementAll(versions, log[0].undoLog), log[1..]))
  }

  lemma {:induction false} ReplayFrom(base: Versions, versions: Versions, log: seq<CommitRecord>, i: nat)
    requires i <= |log|
    requires forall j :: 0 <= j < |log| ==> RecordOk(base, log[..j], log[j])
    requires forall key :: VersionOf(versions, key) == VersionAfter(base, log[..i], key)
    ensures SerialReplay(versions, log[i..])
    decreases |log| - i
  {
    if i < |log| {
      var next := IncrementAll(versions, log[i].undoLog);
      forall key ensures VersionOf(next, key) == VersionAfter(base, log[..i + 1], key) {
        IncrementAllCounts(versions, log[i].undoLog, key);
        assert log[..i + 1][..i] == log[..i];
      }
      ReplayFrom(base, next, log, i + 1);
      assert log[i..][1..] == log[i + 1..];
      assert RecordOk(base, log[..i], log[i]);
    }
  }

  /**
   * In every run, the committed transactions executed serially in commit order
   * give each Serializable one the versions it stamped, and end in the versions
   * the manager holds.
   */
  lemma SerializableInCommitOrder(base: Versions, steps: seq<Step>)
    ensures var s := Exec(Start(base), steps);
      && SerialReplay(base, s.log)
      && (forall key :: VersionOf(s.m.versions, key) == VersionAfter(base, s.log, key))
      && (forall i, j :: 0 <= i < j < |s.log| ==> s.log[i].id != s.log[j].id)
  {
    var s := Exec(Start(base), steps);
    RunKeepsVersions(base, steps);
    ReplayFrom(base, base, s.log, 0);
    assert s.log[0..] == s.log;
  }

  /**
   * In every run, between the read behind a stamp of a committed Serializable
   * transaction and its commit, no transaction committed a write to that key.
   */
  lemma NoWriteBetweenReadAndCommit(base: Versions, steps: seq<Step>, i: nat, j: nat)
    requires i < |Exec(Start(base), steps).log|
    requires Exec(Start(base), steps).log[i].level == Serializable
    requires j < |Exec(Start(base), steps).log[i].stamps|
    ensures var log := Exec(Start(base), steps).log;
      && j < |log[i].at| && log[i].at[j] <= i
      && forall l, e :: log[i].at[j] <= l < i && e in log[l].undoLog ==> e.key != log[i].stamps[j].key
  {
    var log := Exec(Start(base), steps).log;
    RunKeepsVersions(base, steps);
    var at, key := log[i].at[j], log[i].stamps[j].key;
    assert RecordOk(base, log[..i], log[i]);
    assert log[..i][..at] == log[..at];
    CountsBetween(log, at, i, key);
    forall l, e | at <= l < i && e in log[l].undoLog ensures e.key != key {
      WritesPositive(log[l].undoLog, key);
    }
  }

  /**
   * In every run, validation turns a commit into a rollback exactly when the
   * transaction is Serializable and another commit wrote one of its stamped
   * keys after the read.
   */
  lemma ValidationFailsExactly(base: Versions, steps: seq<Step>, t: TxnId)
    requires Unusable(Exec(Start(base), steps).m.txns, t).None?
    ensures var s := Exec(Start(base), steps);
      && t in s.at && |s.at[t]| == |s.m.txns[t].readSet|
      && (FailsValidation(s.m, t) <==>
            && s.m.txns[t].level == Serializable
            && exists j, l :: && 0 <= j < |s.m.txns[t].readSet| && s.at[t][j] <= l < |s.log|
                              && exists e :: e in s.log[l].undoLog && e.key == s.m.txns[t].readSet[j].key)
  {
    hide Exec, RecordOk, CallersInv;
    var s := Exec(Start(base), steps);
    RunKeepsVersions(base, steps);
    var readSet := s.m.txns[t].readSet;
    assert s.log[..|s.log|] == s.log;
    forall j | 0 <= j < |readSet|
      ensures VersionOf(s.m.versions, readSet[j].key) != readSet[j].version <==>
                exists l :: s.at[t][j] <= l < |s.log| && exists e :: e in s.log[l].undoLog && e.key == readSet[j].key
    {
      CountsBetween(s.log, s.at[t][j], |s.log|, readSet[j].key);
      forall l | 0 <= l < |s.log|
        ensures Writes(s.log[l].undoLog, readSet[j].key) > 0 <==> exists e :: e in s.log[l].undoLog && e.key == readSet[j].key
      {
        WritesPositive(s.log[l].undoLog, readSet[j].key);
      }
    }
  }

  /** Some commit wrote the key of stamp `j` after it was read. */
  ghost predicate Overwritten(s: Sys, t: TxnId, j: nat)
    requires t in s.m.txns && t in s.at && j < |s.m.txns[t].readSet| && |s.at[t]| == |s.m.txns[t].readSet|
  {
    exists l, e :: s.at[t][j] <= l < |s.log| && e in s.log[l].undoLog && e.key == s.m.txns[t].readSet[j].key
  }

  /** One later version for each entry committed since: never less, and more exactly when there is one. */
  lemma OverwrittenExactly(s: Sys, t: TxnId, j: nat)
    requires VersionsInv(s) && t in s.m.txns && s.m.txns[t].state == Active && j < |s.m.txns[t].readSet|
    ensures var stamp := s.m.txns[t].readSet[j];
      && stamp.version == VersionAfter(s.base, s.log[..s.at[t][j]], stamp.key)
      && stamp.version <= VersionOf(s.m.versions, stamp.key)
      && (stamp.version < VersionOf(s.m.versions, stamp.key) <==> Overwritten(s, t, j))
  {
    var stamp, at := s.m.txns[t].readSet[j], s.at[t][j];
    assert StampOk(s.base, s.log, stamp, at);
    assert s.log[..|s.log|] == s.log;
    CountsBetween(s.log, at, |s.log|, stamp.key);
    forall l | 0 <= l < |s.log|
      ensures Writes(s.log[l].undoLog, stamp.key) > 0 <==> exists e :: e in s.log[l].undoLog && e.key == stamp.key
    {
      WritesPositive(s.log[l].undoLog, stamp.key);
    }
  }

  /**
   * In every run a refused commit names the entity of the first stamp whose key
   * was written since, the version it had when it was read as expected, and the
   * later one it has now as actual.
   */
  lemma ConflictNamesVersions(base: Versions, steps: seq<Step>, t: TxnId)
    requires Unusable(Exec(Start(base), steps).m.txns, t).None?
    requires FailsValidation(Exec(Start(base), steps).m, t)
    ensures var s := Exec(Start(base), steps);
      var readSet := s.m.txns[t].readSet;
      && t in s.at && |s.at[t]| == |readSet|
      && exists j :: && 0 <= j < |readSet| && Overwritten(s, t, j) && (forall k :: 0 <= k < j ==> !Overwritten(s, t, k))
                     && var (read, now) := (VersionAfter(base, s.log[..s.at[t][j]], readSet[j].key), VersionAfter(base, s.log, readSet[j].key));
                        read < now && CommitResult(s.m, t) == Err(VersionConflict(readSet[j].key.entity, read, now))
  {
    hide Exec, RecordOk, CallersInv, Overwritten, VersionAfter, StampOk;
    var s := Exec(Start(base), steps);
    RunKeepsVersions(base, steps);
    var readSet := s.m.txns[t].readSet;
    var j := FirstStale(readSet, s.m.versions);
    forall k | 0 <= k <= j ensures Overwritten(s, t, k) <==> VersionOf(s.m.versions, readSet[k].key) != readSet[k].version {
      OverwrittenExactly(s, t, k);
    }
    OverwrittenExactly(s, t, j);
  }

  ghost predicate InLog(s: Sys, t: TxnId) {
    exists i :: 0 <= i < |s.log| && s.log[i].id == t
  }

  /** Steps other than a validation commit nothing: a transaction keeps its state, is rolled back, or is new. */
  lemma OtherStepsCommitNothing(s: Sys, step: Step, t: TxnId)
    requires CallersInv(s) && !step.Validate? && t in Do(s, step).m.txns
    ensures var s' := Do(s, step);
      && s'.log == s.log
      && if t in s.m.txns then s'.m.txns[t].state == s.m.txns[t].state || (s.m.txns[t].state == Active && s'.m.txns[t].state == RolledBack)
         else t !in s.pending && s'.m.txns[t].state == Active
  {
    hide AfterAcquire;
  }

  lemma ValidateKeepsOutcome(s: Sys, u: TxnId, t: TxnId)
    requires CallersInv(s)
    requires t in s.m.txns && (s.m.txns[t].state == Committed <==> InLog(s, t))
    ensures var s' := Do(s, Validate(u)); t in s'.m.txns && (s'.m.txns[t].state == Committed <==> InLog(s', t))
  {
    hide InLog, FirstStale, IncrementAll, CallersInv;
    var s' := Do(s, Validate(u));
    if s'.log != s.log {
      LogGrows(s, s', Record(s, u), t);
    } else {
      SameLog(s, s', t);
    }
  }

  lemma LogGrows(s: Sys, s': Sys, c: CommitRecord, t: TxnId)
    requires s'.log == s.log + [c]
    ensures InLog(s', t) <==> InLog(s, t) || c.id == t
  {
    assert s'.log[|s.log|] == c;
    if i :| 0 <= i < |s.log| && s.log[i].id == t {
      assert s'.log[i].id == t;
    }
  }

  lemma SameLog(s: Sys, s': Sys, t: TxnId)
    requires s'.log == s.log
    ensures InLog(s', t) <==> InLog(s, t)
  {
  }

  lemma StepKeepsOutcome(s: Sys, step: Step, t: TxnId)
    requires CallersInv(s) && VersionsInv(s)
    requires t in s.m.txns ==> (s.m.txns[t].state == Committed <==> InLog(s, t))
    requires t in Do(s, step).m.txns
    ensures Do(s, step).m.txns[t].state == Committed <==> InLog(Do(s, step), t)
  {
    hide StampsOk, RecordOk, VersionAfter, StampOk;
    if step.Validate? {
      if t in s.m.txns {
        ValidateKeepsOutcome(s, step.t, t);
      }
    } else {
      OtherStepsCommitNothing(s, step, t);
      SameLog(s, Do(s, step), t);
      hide Do;
      assert t !in s.pending ==> !InLog(s, t);
    }
  }

  /** In every run the committed transactions are those whose validation went through, and no rolled-back one is among them. */
  lemma {:induction false} CommittedExactly(base: Versions, steps: seq<Step>, t: TxnId)
    requires t in Exec(Start(base), steps).m.txns
    ensures var s := Exec(Start(base), steps); s.m.txns[t].state == Committed <==> InLog(s, t)
  {
    var before := steps[..|steps| - 1];
    RunKeepsVersions(base, before);
    RunKeepsLocks(base, before);
    if t in Exec(Start(base), before).m.txns {
      CommittedExactly(base, before, t);
    }
    StepKeepsOutcome(Exec(Start(base), before), steps[|steps| - 1], t);
  }
}
