/** Every exit of a hexad operation leaves its transaction finished and the lock table as it was. */
module HexadTransactions {
  import opened Wrappers
  import opened WaitForGraph
  import opened LockTables
  import opened LockSafety
  import opened Transactions
  import opened Hexads

  // ---- Releasing undoes acquiring ---------------------------------------------------------

  lemma {:induction false} WithoutAgain(holders: seq<LockInfo>, t: TxnId, info: LockInfo)
    requires info.holder == t
    ensures Without(Without(holders, t) + [info], t) == Without(holders, t)
  {
    if holders == [] {
      assert [info][1..] == [];
    } else {
      WithoutAgain(holders[1..], t, info);
      if holders[0].holder != t {
        assert ([holders[0]] + Without(holders[1..], t) + [info])[1..] == Without(holders[1..], t) + [info];
      }
    }
  }

  lemma {:induction false} WithoutStranger(holders: seq<LockInfo>, t: TxnId)
    requires forall info :: info in holders ==> info.holder != t
    ensures Without(holders, t) == holders
  {
    if holders != [] {
      WithoutStranger(holders[1..], t);
    }
  }

  lemma RequestKeepsOtherHolders(tb: Table, t: TxnId, key: Key, kind: LockType, k: Key)
    ensures Without(HoldersOf(AfterAcquire(tb, t, key, kind), k), t) == Without(HoldersOf(tb, k), t)
  {
    WithoutAgain(HoldersOf(tb, key), t, LockInfo(t, kind));
  }

  lemma ReleaseByHolders(a: Table, b: Table, t: TxnId)
    requires forall k :: Without(HoldersOf(a, k), t) == Without(HoldersOf(b, k), t)
    ensures AfterRelease(a, t).locks == AfterRelease(b, t).locks
  {
    var ra, rb := AfterRelease(a, t).locks, AfterRelease(b, t).locks;
    forall k ensures (k in ra <==> k in rb) && (k in ra ==> ra[k] == rb[k]) {
      assert k in ra <==> Without(HoldersOf(a, k), t) != [];
      assert k in rb <==> Without(HoldersOf(b, k), t) != [];
    }
  }

  /** What a request adds, the release of its transaction takes away. */
  lemma ReleaseUndoesAcquire(tb: Table, t: TxnId, key: Key, kind: LockType)
    ensures AfterRelease(AfterAcquire(tb, t, key, kind), t) == AfterRelease(tb, t)
  {
    var tb' := AfterAcquire(tb, t, key, kind);
    forall k ensures Without(HoldersOf(tb', k), t) == Without(HoldersOf(tb, k), t) {
      RequestKeepsOtherHolders(tb, t, key, kind, k);
    }
    ReleaseByHolders(tb', tb, t);
    ReleaseDropsRequestEdges(tb, t, key, kind);
  }

  lemma ReleaseDropsRequestEdges(tb: Table, t: TxnId, key: Key, kind: LockType)
    ensures AfterRelease(AfterAcquire(tb, t, key, kind), t).waitFor == AfterRelease(tb, t).waitFor
  {
    hide Decide, OnCycle;
  }

  /** `t` is new to the manager: it has no record, no lock, and no edge. */
  ghost predicate Unknown(m: Manager, t: TxnId) {
    TableOk(m.table) && t !in m.txns && !HoldsSome(m.table, t) && t !in m.table.waitFor
  }

  lemma ReleaseOfUnknown(m: Manager, t: TxnId)
    requires Unknown(m, t)
    ensures AfterRelease(m.table, t) == m.table
  {
    var tb := m.table;
    forall k | k in tb.locks ensures Without(tb.locks[k], t) == tb.locks[k] {
      assert !Holds(tb, t, k);
      WithoutStranger(tb.locks[k], t);
    }
    forall a | a in tb.waitFor ensures a != t && tb.waitFor[a] - {t} == tb.waitFor[a] {
      assert !Edge(tb.waitFor, a, t);
    }
    assert AfterRelease(tb, t).locks == tb.locks;
  }

  // ---- From begin to end ---------------------------------------------------------------------

  /** Between begin and end: only `t` has moved, and its release would restore the table. */
  ghost predicate Underway(m0: Manager, m: Manager, t: TxnId) {
    && t in m.txns && m.txns[t].state == Active && m.txns[t].level == ReadCommitted
    && m.txns == m0.txns[t := m.txns[t]] && m.versions == m0.versions
    && AfterRelease(m.table, t) == m0.table
  }

  /** `t` ended in `state`; every other transaction, every lock, and every edge is as before. */
  ghost predicate Finished(m0: Manager, m: Manager, t: TxnId, state: TxnState) {
    && t in m.txns && m.txns[t].state == state && m.txns == m0.txns[t := m.txns[t]]
    && m.table == m0.table && (state == RolledBack ==> m.versions == m0.versions)
  }

  lemma BeginIsUnderway(m0: Manager, t: TxnId)
    requires Unknown(m0, t)
    ensures Underway(m0, Began(m0, t), t)
  {
    ReleaseOfUnknown(m0, t);
  }

  lemma NamesAreKnown(m: Mod)
    ensures Name(m) in MODALITIES
  {
    assert MODALITIES[0] == "graph" && MODALITIES[1] == "vector" && MODALITIES[2] == "tensor" && MODALITIES[3] == "semantic";
    assert MODALITIES[4] == "document" && MODALITIES[5] == "temporal" && MODALITIES[6] == "provenance" && MODALITIES[7] == "spatial";
  }

  lemma RequestIsUnderway(m0: Manager, m: Manager, t: TxnId, key: Key)
    requires Underway(m0, m, t) && key.modality in MODALITIES
    ensures Underway(m0, AfterLockRequest(m, t, key, Exclusive), t)
  {
    hide AfterRelease, AfterAcquire, Decide, DropKey;
    ReleaseUndoesAcquire(m.table, t, key, Exclusive);
  }

  lemma RollbackFinishes(m0: Manager, m: Manager, t: TxnId)
    requires Underway(m0, m, t)
    ensures Finished(m0, AfterRollback(m, t), t, RolledBack)
  {
    hide AfterRelease;
  }

  lemma CommitFinishes(m0: Manager, m: Manager, t: TxnId)
    requires Underway(m0, m, t)
    ensures CommitResult(m, t) == Ok(()) && Finished(m0, AfterCommit(m, t), t, Committed)
    ensures AfterCommit(m, t).versions == IncrementAll(m0.versions, m.txns[t].undoLog)
  {
    hide AfterRelease, IncrementAll, FirstStale;
  }

  lemma {:induction false} LockingIsUnderway(m0: Manager, m: Manager, t: TxnId, id: Id, ms: seq<Mod>)
    requires Underway(m0, m, t)
    ensures var l := Locked(m, t, id, ms);
      if l.refused.Some? then Finished(m0, l.manager, t, RolledBack)
      else Underway(m0, l.manager, t) && l.manager.txns[t].undoLog == m.txns[t].undoLog
    decreases |ms|
  {
    hide Underway, Finished, AfterRollback, AfterAcquire, Granted, DropKey, Name;
    UnderwayHas(m0, m, t);
    if ms != [] {
      var key := Key(id, Name(ms[0]));
      NamesAreKnown(ms[0]);
      var m1 := AfterLockRequest(m, t, key, Exclusive);
      RequestIsUnderway(m0, m, t, key);
      RequestKeepsUndo(m, t, key);
      RollbackFinishes(m0, m1, t);
      if KeyUnusable(m.txns, t, key).None? && Granted(m.table, t, key, Exclusive) {
        assert t in m1.txns by { UnderwayHas(m0, m1, t); }
        LockingIsUnderway(m0, m1, t, id, ms[1..]);
      }
    }
  }

  lemma UnderwayHas(m0: Manager, m: Manager, t: TxnId)
    requires Underway(m0, m, t)
    ensures t in m.txns
  {
  }

  lemma RequestKeepsUndo(m: Manager, t: TxnId, key: Key)
    requires t in m.txns
    ensures var m' := AfterLockRequest(m, t, key, Exclusive);
      t in m'.txns && m'.txns[t].undoLog == m.txns[t].undoLog
  {
    hide AfterAcquire, Granted, DropKey;
  }

  function UndoFor(id: Id, ms: seq<Mod>, version: nat): seq<UndoEntry> {
    if ms == [] then [] else UndoFor(id, ms[..|ms| - 1], version) + [UndoEntry(Key(id, Name(ms[|ms| - 1])), None, version)]
  }

  lemma {:induction false} NotingIsUnderway(m0: Manager, m: Manager, t: TxnId, id: Id, ms: seq<Mod>, version: nat)
    requires Underway(m0, m, t)
    ensures var m' := Noted(m, t, id, ms, version);
      && Underway(m0, m', t)
      && m'.txns[t].undoLog == m.txns[t].undoLog + UndoFor(id, ms, version)
  {
    hide AfterRelease, Name;
    if ms != [] {
      var n := |ms| - 1;
      NotingIsUnderway(m0, m, t, id, ms[..n], version);
      NamesAreKnown(ms[n]);
    }
  }

  // ---- Versions after a commit -----------------------------------------------------------------

  lemma NamesDiffer(a: Mod, b: Mod)
    requires Name(a) == Name(b)
    ensures a == b
  {
    assert Name(Graph)[0] == 'g' && Name(Vector)[0] == 'v' && Name(Document)[0] == 'd';
    assert Name(Tensor)[2] == 'n' && Name(Temporal)[2] == 'm';
    assert Name(Semantic)[1] == 'e' && Name(Spatial)[1] == 'p' && Name(Provenance)[0] == 'p';
  }

  predicate Distinct(ms: seq<Mod>) {
    forall i, j :: 0 <= i < j < |ms| ==> ms[i] != ms[j]
  }

  /** Each noted modality's version rises by one, and no other version moves. */
  lemma {:induction false} CommitRaisesNoted(v: Versions, id: Id, ms: seq<Mod>, version: nat, key: Key)
    requires Distinct(ms)
    ensures VersionOf(IncrementAll(v, UndoFor(id, ms, version)), key) ==
              VersionOf(v, key) + if exists m :: m in ms && key == Key(id, Name(m)) then 1 else 0
  {
    hide Name;
    if ms != [] {
      var n := |ms| - 1;
      CommitRaisesNoted(v, id, ms[..n], version, key);
      assert ms == ms[..n] + [ms[n]];
      var undo := UndoFor(id, ms, version);
      assert undo[..n] == UndoFor(id, ms[..n], version) by {
        UndoForLength(id, ms[..n], version);
      }
      forall m | m in ms[..n] && Name(m) == Name(ms[n]) ensures false {
        NamesDiffer(m, ms[n]);
      }
    }
  }

  lemma {:induction false} UndoForLength(id: Id, ms: seq<Mod>, version: nat)
    ensures |UndoFor(id, ms, version)| == |ms|
  {
    if ms != [] {
      UndoForLength(id, ms[..|ms| - 1], version);
    }
  }

  /** The place of each modality in the order of locks and writes. */
  function Place(m: Mod): nat {
    match m
    case Graph => 0
    case Vector => 1
    case Document => 2
    case Tensor => 3
    case Semantic => 4
    case Provenance => 5
    case Spatial => 6
    case Temporal => 7
  }

  predicate Ascending(ms: seq<Mod>, below: nat) {
    && (forall i, j :: 0 <= i < j < |ms| ==> Place(ms[i]) < Place(ms[j]))
    && (forall i :: 0 <= i < |ms| ==> Place(ms[i]) < below)
  }

  lemma AppendOne(ms: seq<Mod>, more: seq<Mod>, m: Mod)
    requires Ascending(ms, Place(m)) && (more == [] || more == [m])
    ensures Ascending(ms + more, Place(m) + 1)
  {
  }

  lemma {:induction false} SelectedAscends(ms: set<Mod>, n: nat)
    requires n <= 7
    ensures Ascending(Selected(ms, n), n)
  {
    if n > 0 {
      SelectedAscends(ms, n - 1);
      AppendOne(Selected(ms, n - 1), if ORDER[n - 1] in ms then [ORDER[n - 1]] else [], ORDER[n - 1]);
      assert Place(ORDER[n - 1]) == n - 1;
    }
  }

  lemma {:induction false} SelectedHas(ms: set<Mod>, n: nat, m: Mod)
    requires n <= 7
    ensures m in Selected(ms, n) <==> m in ms && Place(m) < n
  {
    if n > 0 {
      SelectedHas(ms, n - 1, m);
      assert Place(ORDER[n - 1]) == n - 1 && (Place(m) == n - 1 ==> m == ORDER[n - 1]);
    }
  }

  lemma SelectedRange(ms: set<Mod>, n: nat)
    requires n <= 7
    ensures Range(Selected(ms, n)) == set m | m in ms && Place(m) < n
  {
    hide Place, Selected;
    forall m ensures m in Selected(ms, n) <==> m in ms && Place(m) < n {
      SelectedHas(ms, n, m);
    }
  }

  lemma ListedAscends(flags: set<Mod>)
    ensures Ascending(Listed(flags), 8)
  {
    SelectedAscends(flags, 7);
    AppendOne(Selected(flags, 7), [Temporal], Temporal);
  }

  lemma ShareIsOwn(input: Input, m: Mod)
    ensures Share(input, m).Some? ==> ModOf(Share(input, m).value) == m
  {
  }

  /** The modalities an input has a share for. */
  function Given(input: Input): set<Mod> {
    set m: Mod | Share(input, m).Some?
  }

  lemma {:induction false} PartsAreGiven(input: Input, n: nat)
    requires n <= 7
    ensures ModsOf(PartsUpTo(input, n)) == Selected(Given(input), n)
  {
    hide Share, ModOf;
    if n > 0 {
      PartsAreGiven(input, n - 1);
      var front, m := PartsUpTo(input, n - 1), ORDER[n - 1];
      if Share(input, m).Some? {
        ShareIsOwn(input, m);
        assert (front + [Share(input, m).value])[..|front|] == front;
      }
    }
  }

  lemma PartsDiffer(input: Input)
    ensures Distinct(ModsOf(Parts(input)))
  {
    PartsAreGiven(input, 7);
    SelectedAscends(Given(input), 7);
  }

  lemma ListedDiffer(flags: set<Mod>)
    ensures Distinct(Listed(flags))
  {
    ListedAscends(flags);
  }

  /** A delete concerns what the status lists, and the history. */
  lemma ListedRange(flags: set<Mod>)
    ensures Range(Listed(flags)) == flags + {Temporal}
  {
    SelectedRange(flags, 7);
    assert Range(Listed(flags)) == Range(Selected(flags, 7)) + {Temporal} by { hide Selected; }
    assert forall m: Mod :: Place(m) < 7 <==> m != Temporal;
  }

  lemma PartsRange(input: Input)
    ensures Range(ModsOf(Parts(input))) == Given(input)
  {
    PartsAreGiven(input, 7);
    SelectedRange(Given(input), 7);
    assert forall m: Mod :: Place(m) < 7 <==> m != Temporal;
  }

  // ---- Each operation ------------------------------------------------------------------------

  /** The versions of `id`'s modalities in `ms` rose by one, and no other version moved. */
  ghost predicate RaisedOnce(m0: Manager, m: Manager, id: Id, ms: set<Mod>) {
    forall key :: VersionOf(m.versions, key) ==
      VersionOf(m0.versions, key) + if exists mod :: mod in ms && key == Key(id, Name(mod)) then 1 else 0
  }

  lemma CommitRaises(m0: Manager, m: Manager, t: TxnId, id: Id, ms: seq<Mod>, version: nat)
    requires Underway(m0, m, t) && m.txns[t].undoLog == UndoFor(id, ms, version) && Distinct(ms)
    ensures RaisedOnce(m0, AfterCommit(m, t), id, Range(ms))
  {
    hide Underway, IncrementAll, AfterCommit;
    CommitFinishes(m0, m, t);
    forall key ensures VersionOf(AfterCommit(m, t).versions, key) ==
        VersionOf(m0.versions, key) + if exists mod :: mod in Range(ms) && key == Key(id, Name(mod)) then 1 else 0
    {
      CommitRaisesNoted(m0.versions, id, ms, version, key);
    }
  }

  /** An attempt ends its transaction: committed exactly when it succeeds, which is when the versions rise. */
  lemma AttemptFinishes(h: State, id: Id, input: Input, t: TxnId, version: nat, base: set<Mod>, env: Env)
    requires Unknown(h.manager, t)
    ensures var a := Attempted(h, id, input, t, version, base, env);
      && Finished(h.manager, a.manager, t, if a.error.None? then Committed else RolledBack)
      && a.error != Some(CommitFailed)
      && (a.error.None? ==> RaisedOnce(h.manager, a.manager, id, Given(input)))
  {
    hide Underway, Finished, Unknown, AfterRollback, AfterCommit, CommitResult, Parts, Locked, Noted, Populated, Snapped, Name, RaisedOnce, Range, ModsOf, Distinct, UndoFor;
    var m0, parts := h.manager, Parts(input);
    var locking := Locked(Began(m0, t), t, id, ModsOf(parts) + [Temporal]);
    BeginIsUnderway(m0, t);
    LockingIsUnderway(m0, Began(m0, t), t, id, ModsOf(parts) + [Temporal]);
    if locking.refused.None? {
      var p := Populated(h.stores, id, parts, env);
      if p.count < |parts| {
        var ms := ModsOf(parts[..p.count]);
        NotingIsUnderway(m0, locking.manager, t, id, ms, version);
        RollbackFinishes(m0, Noted(locking.manager, t, id, ms, version), t);
      } else {
        var ms := ModsOf(parts);
        var m := Noted(locking.manager, t, id, ms, version);
        NotingIsUnderway(m0, locking.manager, t, id, ms, version);
        RollbackFinishes(m0, m, t);
        CommitFinishes(m0, m, t);
        PartsDiffer(input);
        PartsRange(input);
        UndoStartsEmpty(m0, t);
        CommitRaises(m0, m, t, id, ms, version);
      }
    }
  }

  lemma UndoStartsEmpty(m0: Manager, t: TxnId)
    ensures Began(m0, t).txns[t].undoLog == []
  {
  }

  /** How an operation leaves the manager: untouched, or with one more finished transaction. */
  ghost predicate LeftClean(m0: Manager, m: Manager, t: TxnId, succeeded: bool) {
    if succeeded then Finished(m0, m, t, Committed) else m == m0 || Finished(m0, m, t, RolledBack)
  }

  /** On every exit of a create the transaction is over, and only success commits. */
  lemma CreateLeavesClean(h: State, id: Id, input: Input, t: TxnId, now: int, env: Env)
    requires Unknown(h.manager, t)
    ensures var (h', r) := Created(h, id, input, t, now, env);
      && LeftClean(h.manager, h'.manager, t, r.Ok?) && r != Err(CommitFailed)
      && (r.Ok? ==> RaisedOnce(h.manager, h'.manager, id, Given(input)))
  {
    hide Attempted, Finished, RaisedOnce, Unknown;
    AttemptFinishes(h, id, input, t, 0, {}, env);
  }

  lemma UpdateLeavesClean(h: State, id: Id, input: Input, t: TxnId, now: int, env: Env)
    requires Unknown(h.manager, t)
    ensures var (h', r) := Updated(h, id, input, t, now, env);
      && LeftClean(h.manager, h'.manager, t, r.Ok?) && r != Err(CommitFailed)
      && (r.Ok? ==> RaisedOnce(h.manager, h'.manager, id, Given(input)))
  {
    hide Attempted, Finished, RaisedOnce, Unknown;
    if id in h.registry {
      AttemptFinishes(h, id, input, t, h.registry[id].version, h.registry[id].flags, env);
    }
  }

  lemma DeleteLeavesClean(h: State, id: Id, t: TxnId, env: Env)
    requires Unknown(h.manager, t)
    ensures var (h', r) := Deleted(h, id, t, env);
      && LeftClean(h.manager, h'.manager, t, r.Ok?) && r != Err(CommitFailed)
      && (r.Ok? ==> id in h.registry && RaisedOnce(h.manager, h'.manager, id, h.registry[id].flags + {Temporal}))
  {
    hide Underway, Finished, Unknown, AfterRollback, AfterCommit, CommitResult, Listed, Locked, Noted, Erased, RaisedOnce, Distinct, UndoFor;
    if id in h.registry && env.walOk {
      var m0, ms := h.manager, Listed(h.registry[id].flags);
      var locking := Locked(Began(m0, t), t, id, ms);
      BeginIsUnderway(m0, t);
      LockingIsUnderway(m0, Began(m0, t), t, id, ms);
      if locking.refused.None? {
        var m := Noted(locking.manager, t, id, ms, h.registry[id].version);
        NotingIsUnderway(m0, locking.manager, t, id, ms, h.registry[id].version);
        UndoStartsEmpty(m0, t);
        CommitFinishes(m0, m, t);
        ListedDiffer(h.registry[id].flags);
        ListedRange(h.registry[id].flags);
        CommitRaises(m0, m, t, id, ms, h.registry[id].version);
      }
    }
  }

  // ---- When a lock is refused ------------------------------------------------------------------

  predicate Free(m: Manager, id: Id, mod: Mod) {
    HoldersOf(m.table, Key(id, Name(mod))) == []
  }

  lemma GrantedExactlyWhenFree(m: Manager, t: TxnId, key: Key)
    requires WellFormed(HoldersOf(m.table, key)) && forall info :: info in HoldersOf(m.table, key) ==> info.holder != t
    ensures Granted(m.table, t, key, Exclusive) <==> HoldersOf(m.table, key) == []
  {
    DecisionMeaning(HoldersOf(m.table, key), t, Exclusive);
  }

  ghost predicate Strangers(m: Manager, t: TxnId, id: Id, ms: seq<Mod>) {
    forall mod :: mod in ms ==>
      var holders := HoldersOf(m.table, Key(id, Name(mod)));
      WellFormed(holders) && forall info :: info in holders ==> info.holder != t
  }

  lemma RequestKeepsOtherKeys(m: Manager, t: TxnId, key: Key, other: Key)
    requires key != other
    ensures HoldersOf(AfterLockRequest(m, t, key, Exclusive).table, other) == HoldersOf(m.table, other)
  {
    hide Decide, OnCycle;
  }

  /** `refused` is the first modality of `ms` that is not free, if there is one. */
  ghost predicate FirstHeld(m: Manager, id: Id, ms: seq<Mod>, refused: Option<Mod>) {
    if refused.None? then forall mod :: mod in ms ==> Free(m, id, mod)
    else exists i :: 0 <= i < |ms| && ms[i] == refused.value && !Free(m, id, ms[i])
                     && forall j :: 0 <= j < i ==> Free(m, id, ms[j])
  }

  lemma FreeBefore(m: Manager, m1: Manager, id: Id, ms: seq<Mod>, refused: Option<Mod>)
    requires ms != [] && Free(m, id, ms[0]) && FirstHeld(m1, id, ms[1..], refused)
    requires forall mod :: mod in ms[1..] ==> (Free(m1, id, mod) <==> Free(m, id, mod))
    ensures FirstHeld(m, id, ms, refused)
  {
    hide Free;
    assert ms == [ms[0]] + ms[1..];
    if refused.Some? {
      var i :| 0 <= i < |ms[1..]| && ms[1..][i] == refused.value && !Free(m1, id, ms[1..][i])
               && forall j :: 0 <= j < i ==> Free(m1, id, ms[1..][j]);
      assert ms[i + 1] == refused.value && ms[i + 1] in ms[1..];
      forall j | 0 <= j < i + 1 ensures Free(m, id, ms[j]) {
        if j > 0 {
          assert Free(m1, id, ms[1..][j - 1]) && ms[j] in ms[1..];
        }
      }
    }
  }

  lemma {:induction false} RefusedAtFirstHeld(m: Manager, t: TxnId, id: Id, ms: seq<Mod>)
    requires t in m.txns && m.txns[t].state == Active && Distinct(ms) && Strangers(m, t, id, ms)
    ensures FirstHeld(m, id, ms, Locked(m, t, id, ms).refused)
    decreases |ms|
  {
    hide Name, AfterAcquire, Granted, WellFormed, AfterRollback, DropKey, FirstHeld;
    if ms == [] {
      assert FirstHeld(m, id, ms, None) by { NoneHeld(m, id); }
    } else {
      var key := Key(id, Name(ms[0]));
      NamesAreKnown(ms[0]);
      GrantedExactlyWhenFree(m, t, key);
      if Free(m, id, ms[0]) {
        var m1 := AfterLockRequest(m, t, key, Exclusive);
        forall mod | mod in ms[1..] ensures HoldersOf(m1.table, Key(id, Name(mod))) == HoldersOf(m.table, Key(id, Name(mod))) {
          OtherName(ms, mod);
          RequestKeepsOtherKeys(m, t, key, Key(id, Name(mod)));
        }
        RefusedAtFirstHeld(m1, t, id, ms[1..]);
        FreeBefore(m, m1, id, ms, Locked(m1, t, id, ms[1..]).refused);
      } else {
        HeldFirst(m, id, ms);
      }
    }
  }

  lemma NoneHeld(m: Manager, id: Id)
    ensures FirstHeld(m, id, [], None)
  {
  }

  lemma HeldFirst(m: Manager, id: Id, ms: seq<Mod>)
    requires ms != [] && !Free(m, id, ms[0])
    ensures FirstHeld(m, id, ms, Some(ms[0]))
  {
  }

  lemma OtherName(ms: seq<Mod>, mod: Mod)
    requires ms != [] && Distinct(ms) && mod in ms[1..]
    ensures Name(mod) != Name(ms[0])
  {
    if Name(mod) == Name(ms[0]) {
      NamesDiffer(mod, ms[0]);
    }
  }

  /** Which modality of `wanted`, if any, a request for all of them is refused on: the first by place that is held. */
  ghost predicate RefusedOn(m: Manager, id: Id, wanted: set<Mod>, refused: Option<Mod>) {
    match refused
    case None => forall mod :: mod in wanted ==> Free(m, id, mod)
    case Some(first) =>
      && first in wanted && !Free(m, id, first)
      && forall mod :: mod in wanted && Place(mod) < Place(first) ==> Free(m, id, mod)
  }

  lemma FirstHeldByPlace(m: Manager, id: Id, ms: seq<Mod>, refused: Option<Mod>)
    requires FirstHeld(m, id, ms, refused) && Ascending(ms, 8)
    ensures RefusedOn(m, id, Range(ms), refused)
  {
    hide Free, Place;
    if refused.Some? {
      var i :| 0 <= i < |ms| && ms[i] == refused.value && !Free(m, id, ms[i]) && forall j :: 0 <= j < i ==> Free(m, id, ms[j]);
      forall mod | mod in Range(ms) && Place(mod) < Place(refused.value) ensures Free(m, id, mod) {
        var j :| 0 <= j < |ms| && ms[j] == mod;
        assert j < i;
      }
    }
  }

  /** The locks of a fresh transaction are refused exactly where another transaction stands, first place first. */
  lemma FreshRefusedExactly(m0: Manager, t: TxnId, id: Id, ms: seq<Mod>)
    requires Unknown(m0, t) && Ascending(ms, 8)
    ensures RefusedOn(m0, id, Range(ms), Locked(Began(m0, t), t, id, ms).refused)
  {
    hide Locked, Name, FirstHeld, WellFormed, Unknown;
    var m := Began(m0, t);
    forall mod | mod in ms ensures
        var holders := HoldersOf(m.table, Key(id, Name(mod)));
        WellFormed(holders) && forall info :: info in holders ==> info.holder != t
    {
      NotAHolder(m0, t, Key(id, Name(mod)));
    }
    RefusedAtFirstHeld(m, t, id, ms);
    SameTableSameHeld(m, m0, id, ms, Locked(m, t, id, ms).refused);
    FirstHeldByPlace(m0, id, ms, Locked(m, t, id, ms).refused);
  }

  function RefusedLock<T>(r: Result<T, HexadError>): Option<Mod> {
    if r.Err? && r.error.LockRefusedOn? then Some(r.error.m) else None
  }

  /**
   * A create is refused a lock exactly when another transaction holds one on a
   * modality it has a share for or on the history, and it names the first.
   */
  lemma CreateRefusedExactly(h: State, id: Id, input: Input, t: TxnId, now: int, env: Env)
    requires Unknown(h.manager, t) && env.walOk
    ensures RefusedOn(h.manager, id, Given(input) + {Temporal}, RefusedLock(Created(h, id, input, t, now, env).1))
  {
    hide Locked, Parts, ModsOf, Populated, Noted, AfterCommit, AfterRollback, CommitResult, Snapped, Given, RefusedOn, Unknown, Range;
    NeededAscends(input);
    FreshRefusedExactly(h.manager, t, id, ModsOf(Parts(input)) + [Temporal]);
  }

  /** The same for an update of a registered entity. */
  lemma UpdateRefusedExactly(h: State, id: Id, input: Input, t: TxnId, now: int, env: Env)
    requires Unknown(h.manager, t) && id in h.registry && env.walOk
    ensures RefusedOn(h.manager, id, Given(input) + {Temporal}, RefusedLock(Updated(h, id, input, t, now, env).1))
  {
    hide Locked, Parts, ModsOf, Populated, Noted, AfterCommit, AfterRollback, CommitResult, Snapped, Given, RefusedOn, Unknown, Range;
    NeededAscends(input);
    FreshRefusedExactly(h.manager, t, id, ModsOf(Parts(input)) + [Temporal]);
  }

  /**
   * A delete is refused a lock exactly when another transaction holds one on a
   * modality the entity is registered with or on the history, and it names the first.
   */
  lemma DeleteRefusedExactly(h: State, id: Id, t: TxnId, env: Env)
    requires Unknown(h.manager, t) && id in h.registry && env.walOk
    ensures RefusedOn(h.manager, id, h.registry[id].flags + {Temporal}, RefusedLock(Deleted(h, id, t, env).1))
  {
    hide Locked, Noted, AfterCommit, AfterRollback, CommitResult, Erased, Listed, RefusedOn, Unknown, Range;
    ListedAscends(h.registry[id].flags);
    ListedRange(h.registry[id].flags);
    FreshRefusedExactly(h.manager, t, id, Listed(h.registry[id].flags));
  }

  /** The names under which the eight modalities are locked, in the order of the locks. */
  const LOCK_NAMES: seq<string> :=
    ["graph", "vector", "document", "tensor", "semantic", "provenance", "spatial", "temporal"]

  lemma PlacesAreNamed(mod: Mod)
    ensures Name(mod) == LOCK_NAMES[Place(mod)] && Name(mod) in MODALITIES
  {
    NamesAreKnown(mod);
  }

  /** The manager knows these modalities and no other. */
  lemma KnownExactly(name: string)
    ensures name in MODALITIES <==> exists mod: Mod :: Name(mod) == name
  {
    forall mod: Mod ensures Name(mod) in MODALITIES {
      NamesAreKnown(mod);
    }
    if name in MODALITIES {
      var names := {Name(Graph), Name(Vector), Name(Tensor), Name(Semantic), Name(Document), Name(Temporal), Name(Provenance), Name(Spatial)};
      assert name in names;
    }
  }

  lemma SameTableSameHeld(m: Manager, m0: Manager, id: Id, ms: seq<Mod>, refused: Option<Mod>)
    requires FirstHeld(m, id, ms, refused) && m.table == m0.table
    ensures FirstHeld(m0, id, ms, refused)
  {
    assert forall mod :: Free(m, id, mod) <==> Free(m0, id, mod);
  }

  lemma NotAHolder(m: Manager, t: TxnId, key: Key)
    requires Unknown(m, t)
    ensures WellFormed(HoldersOf(m.table, key)) && forall info :: info in HoldersOf(m.table, key) ==> info.holder != t
  {
    assert !Holds(m.table, t, key);
  }

  lemma NeededAscends(input: Input)
    ensures Ascending(ModsOf(Parts(input)) + [Temporal], 8)
    ensures Range(ModsOf(Parts(input)) + [Temporal]) == Given(input) + {Temporal}
  {
    hide Share;
    PartsAreGiven(input, 7);
    SelectedAscends(Given(input), 7);
    AppendOne(Selected(Given(input), 7), [Temporal], Temporal);
    PartsRange(input);
  }
}
