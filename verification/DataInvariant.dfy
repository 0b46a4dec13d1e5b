/** What every guarded run over data keeps: data, undo lists, and reads against the committed data. */
module DataInvariant {
  import opened Wrappers
  import opened WaitForGraph
  import opened LockTables
  import opened LockSafety
  import opened Transactions
  import opened Interleaving
  import opened Serializability
  import opened DataRuns

  // ---- The guard --------------------------------------------------------------------

  ghost predicate Owed(w: World, k: Key) {
    exists t :: t in w.owed && Names(w.owed[t], k)
  }

  /**
   * Granting `key` lets an undo entry that is still to be applied do harm: the
   * key is granted for writing, or its data is not what the entry restores.
   */
  ghost predicate Dangerous(w: World, key: Key, kind: LockType) {
    exists t, e :: t in w.owed && e in w.owed[t] && e.key == key
                   && (kind == Exclusive || e.previousData != Lookup(w.store, key))
  }

  /** The request of `t` in mid-call is about to be granted. */
  predicate AboutToHold(s: Sys, t: TxnId) {
    t in s.pending && s.pending[t].Checked? && Granted(s.m.table, t, s.pending[t].key, s.pending[t].kind)
  }

  /** No event grants a key dangerously. */
  ghost predicate Guarded(w: World, event: Event) {
    event.Manage? && event.step.TakeLock? && AboutToHold(w.sys, event.step.t) ==>
      !Dangerous(w, w.sys.pending[event.step.t].key, w.sys.pending[event.step.t].kind)
  }

  // ---- The invariant ------------------------------------------------------------------

  /** The stamps of `t` do not stand in the way of its commit. */
  ghost predicate AllCurrent(s: Sys, t: TxnId)
    requires IsActive(s, t)
  {
    s.m.txns[t].level == Serializable ==>
      forall r :: r in s.m.txns[t].readSet ==> VersionOf(s.m.versions, r.key) == r.version
  }

  lemma CurrentExactly(s: Sys, t: TxnId)
    requires IsActive(s, t)
    ensures AllCurrent(s, t) <==> !FailsValidation(s.m, t)
  {
    var readSet := s.m.txns[t].readSet;
    if !FailsValidation(s.m, t) && s.m.txns[t].level == Serializable {
      assert FirstStale(readSet, s.m.versions) == |readSet|;
    }
  }

  /**
   * One active transaction against the committed data: what it holds, writes
   * and logs, and that its reads are those of a serial run exactly when none
   * was dirty, as long as its stamps are current.
   */
  ghost predicate TxnOk(w: World, t: TxnId)
    requires IsActive(w.sys, t)
  {
    var (table, ops, txn, c) := (w.sys.m.table, OpsOf(w, t), w.sys.m.txns[t], CommittedData(w));
    && (forall op :: op in ops && op.Write? ==> HoldsExclusive(table, t, op.key) && op.key.modality in MODALITIES)
    && (forall op :: op in ops ==> Holds(table, t, op.key) || StampedIn(txn, op.key))
    && (AllCurrent(w.sys, t) ==> (Legal(c, ops) <==> t !in w.dirty))
    && (forall k :: Holds(table, t, k) ==> Lookup(w.store, k) == Lookup(Final(c, ops), k))
    && LogMatches(txn.undoLog, ops, c)
  }

  /** The undo log names exactly the keys written, and its oldest entry for each holds the committed data. */
  ghost predicate LogMatches(undoLog: seq<UndoEntry>, ops: seq<Op>, committed: Store) {
    forall k :: FirstLogged(undoLog, k) == if Wrote(ops, k) then Some(Lookup(committed, k)) else None
  }

  ghost predicate NobodyWrote(w: World, k: Key) {
    forall t :: IsActive(w.sys, t) ==> !Wrote(OpsOf(w, t), k)
  }

  /** A list that is owed names a key no other such list names and nobody holds for writing, and restores committed data. */
  ghost predicate OwedOk(w: World) {
    && (forall t, k :: t in w.owed && Names(w.owed[t], k) ==>
          FirstLogged(w.owed[t], k) == Some(Lookup(CommittedData(w), k)) && k.modality in MODALITIES)
    && (forall t, u, k :: t in w.owed && Names(w.owed[t], k) && IsActive(w.sys, u) ==> !HoldsExclusive(w.sys.m.table, u, k))
    && (forall t, u, k :: t in w.owed && u in w.owed && Names(w.owed[t], k) && Names(w.owed[u], k) ==> t == u)
    && w.owed.Keys <= w.sys.pending.Keys && w.lost <= w.owed.Keys
    && (forall t :: t in w.owed ==> !IsActive(w.sys, t))
  }

  /** A committed transaction's reads are those of the serial run exactly when none was dirty. */
  ghost predicate HistoryOk(w: World) {
    && |w.history| == |w.sys.log|
    && forall i :: 0 <= i < |w.history| ==>
         (Legal(Serial(w.base, w.history[..i]), w.history[i]) <==> w.sys.log[i].id !in w.dirty)
  }

  /** Data that no active transaction wrote and no list is owed for is committed data. */
  ghost predicate StoreOk(w: World) {
    forall k :: NobodyWrote(w, k) && !Owed(w, k) ==> Lookup(w.store, k) == Lookup(CommittedData(w), k)
  }

  /** Applying an entry that is owed changes nothing under the lock of an active transaction. */
  ghost predicate UndoIsQuiet(w: World) {
    forall t, e, u :: t in w.owed && e in w.owed[t] && IsActive(w.sys, u) && Holds(w.sys.m.table, u, e.key) ==>
      e.previousData == Lookup(w.store, e.key)
  }

  ghost predicate DataInv(w: World) {
    && HistoryOk(w) && StoreOk(w) && OwedOk(w) && UndoIsQuiet(w)
    && (forall t :: IsActive(w.sys, t) ==> TxnOk(w, t))
    && w.ops.Keys <= w.sys.pending.Keys && w.dirty <= w.sys.pending.Keys
  }

  ghost predicate SysInv(s: Sys) {
    CallersInv(s) && LocksInv(s) && VersionsInv(s)
  }

  lemma SysStep(s: Sys, step: Step)
    requires SysInv(s)
    ensures SysInv(Do(s, step))
  {
    StepKeepsLocks(s, step);
    StepKeepsVersions(s, step);
  }

  // ---- What the invariant says of one active transaction --------------------------------

  lemma LogOf(w: World, t: TxnId)
    requires DataInv(w) && IsActive(w.sys, t)
    ensures LogMatches(w.sys.m.txns[t].undoLog, OpsOf(w, t), CommittedData(w))
  {
    assert TxnOk(w, t);
  }

  lemma WriterHolds(w: World, t: TxnId, k: Key)
    requires DataInv(w) && IsActive(w.sys, t) && Wrote(OpsOf(w, t), k)
    ensures HoldsExclusive(w.sys.m.table, t, k) && Holds(w.sys.m.table, t, k) && k.modality in MODALITIES
    ensures Lookup(w.store, k) == Own(w, t, k) && !Owed(w, k)
  {
    assert TxnOk(w, t);
    assert HoldsExclusive(w.sys.m.table, t, k);
    assert Holds(w.sys.m.table, t, k) by {
      assert LockInfo(t, Exclusive) in HoldersOf(w.sys.m.table, k);
    }
  }

  /** A key held exclusively by one transaction is held by no other. */
  lemma ExclusiveExcludes(tb: Table, t: TxnId, u: TxnId, k: Key)
    requires TableOk(tb) && HoldsExclusive(tb, t, k) && Holds(tb, u, k)
    ensures u == t
  {
  }

  lemma OthersDidNotWrite(w: World, t: TxnId, u: TxnId, k: Key)
    requires DataInv(w) && TableOk(w.sys.m.table) && IsActive(w.sys, t) && u != t && Holds(w.sys.m.table, u, k)
    ensures !Wrote(OpsOf(w, t), k)
  {
    if Wrote(OpsOf(w, t), k) {
      WriterHolds(w, t, k);
      ExclusiveExcludes(w.sys.m.table, t, u, k);
    }
  }

  /** What a transaction holds and did not write is committed data. */
  lemma HeldUnwritten(w: World, t: TxnId, k: Key)
    requires DataInv(w) && IsActive(w.sys, t) && Holds(w.sys.m.table, t, k) && !Wrote(OpsOf(w, t), k)
    ensures Lookup(w.store, k) == Lookup(CommittedData(w), k)
  {
    assert TxnOk(w, t);
    UnwrittenUnchanged(CommittedData(w), OpsOf(w, t), k);
  }

  // ---- What stands out -------------------------------------------------------------------

  /** Under a lock nothing stands out: what is owed for the key is what is stored, and no other transaction wrote it. */
  lemma LockedIsSettled(w: World, t: TxnId, key: Key)
    requires DataInv(w) && TableOk(w.sys.m.table) && IsActive(w.sys, t) && Holds(w.sys.m.table, t, key)
    ensures !Unsettled(w, t, key)
  {
    hide TxnOk, HistoryOk, StoreOk, OwedOk;
    forall u | u in w.owed && Names(w.owed[u], key) ensures FirstLogged(w.owed[u], key) == Some(Lookup(w.store, key)) {
      var e := FirstEntry(w.owed[u], key);
      assert Holds(w.sys.m.table, t, e.key);
    }
    forall u | u != t && IsActive(w.sys, u) ensures !Names(w.sys.m.txns[u].undoLog, key) {
      LogOf(w, u);
      OthersDidNotWrite(w, u, t, key);
    }
  }

  /** Without a lock, whatever log names the key tells the committed data, and if none does it is stored. */
  lemma UnlockedIsUnsettled(w: World, t: TxnId, key: Key)
    requires DataInv(w) && IsActive(w.sys, t) && !Holds(w.sys.m.table, t, key)
    ensures Unsettled(w, t, key) <==> Lookup(w.store, key) != Lookup(CommittedData(w), key)
    ensures !Wrote(OpsOf(w, t), key)
  {
    hide TxnOk, HistoryOk, UndoIsQuiet;
    if Wrote(OpsOf(w, t), key) {
      WriterHolds(w, t, key);
    }
    forall u | IsActive(w.sys, u)
      ensures FirstLogged(w.sys.m.txns[u].undoLog, key) ==
                if Wrote(OpsOf(w, u), key) then Some(Lookup(CommittedData(w), key)) else None
    {
      LogOf(w, u);
    }
    if Lookup(w.store, key) != Lookup(CommittedData(w), key) && !Owed(w, key) {
      var u :| IsActive(w.sys, u) && Wrote(OpsOf(w, u), key);
      assert Differs(w.sys.m.txns[u].undoLog, w.store, key);
    }
  }

  /** What a transaction reads is its own view of the committed data exactly when nothing stands out. */
  lemma UnsettledExactly(w: World, t: TxnId, key: Key)
    requires DataInv(w) && TableOk(w.sys.m.table) && IsActive(w.sys, t)
    ensures Lookup(w.store, key) != Own(w, t, key) <==> Unsettled(w, t, key)
  {
    hide HistoryOk, StoreOk, OwedOk, UndoIsQuiet, Unsettled, LogMatches;
    if Holds(w.sys.m.table, t, key) {
      LockedIsSettled(w, t, key);
      assert TxnOk(w, t);
    } else {
      UnlockedIsUnsettled(w, t, key);
      UnwrittenUnchanged(CommittedData(w), OpsOf(w, t), key);
    }
  }

  // ---- Carrying a transaction over ------------------------------------------------------

  /** What an active transaction relies on in the manager has only been added to. */
  ghost predicate Undisturbed(s: Sys, s': Sys, t: TxnId) {
    && IsActive(s, t) && IsActive(s', t)
    && s'.m.txns[t].undoLog == s.m.txns[t].undoLog && s'.m.txns[t].level == s.m.txns[t].level
    && (forall r :: r in s.m.txns[t].readSet ==> r in s'.m.txns[t].readSet)
    && (forall k :: Holds(s.m.table, t, k) ==>
          Holds(s'.m.table, t, k) && VersionOf(s'.m.versions, k) == VersionOf(s.m.versions, k))
    && (forall k :: HoldsExclusive(s.m.table, t, k) ==> HoldsExclusive(s'.m.table, t, k))
  }

  /** The data at the keys `t` holds is the same in both worlds, and so is the committed data, also where `t` has current stamps. */
  ghost predicate SameData(w: World, w': World, t: TxnId)
    requires IsActive(w.sys, t) && IsActive(w'.sys, t)
  {
    && OpsOf(w', t) == OpsOf(w, t) && (t in w'.dirty <==> t in w.dirty)
    && (forall k :: Holds(w.sys.m.table, t, k) ==>
          Lookup(w'.store, k) == Lookup(w.store, k) && Lookup(CommittedData(w'), k) == Lookup(CommittedData(w), k))
    && (AllCurrent(w'.sys, t) ==>
          && AllCurrent(w.sys, t)
          && forall k :: StampedIn(w.sys.m.txns[t], k) ==> Lookup(CommittedData(w'), k) == Lookup(CommittedData(w), k))
  }

  lemma StampsStay(s: Sys, s': Sys, t: TxnId, k: Key)
    requires Undisturbed(s, s', t) && StampedIn(s.m.txns[t], k)
    ensures StampedIn(s'.m.txns[t], k)
  {
    var r :| r in s.m.txns[t].readSet && r.key == k;
    assert r in s'.m.txns[t].readSet;
  }

  /** Reads stay what they were, serial or dirty, while stamps stay current. */
  lemma ReadsCarryOver(w: World, w': World, t: TxnId)
    requires IsActive(w.sys, t) && TxnOk(w, t) && Undisturbed(w.sys, w'.sys, t) && SameData(w, w', t)
    ensures AllCurrent(w'.sys, t) ==> (Legal(CommittedData(w'), OpsOf(w, t)) <==> t !in w.dirty)
  {
    if AllCurrent(w'.sys, t) {
      var ops := OpsOf(w, t);
      forall op | op in ops ensures Lookup(CommittedData(w), op.key) == Lookup(CommittedData(w'), op.key) {
        assert Holds(w.sys.m.table, t, op.key) || StampedIn(w.sys.m.txns[t], op.key);
      }
      if Legal(CommittedData(w), ops) {
        LegalAgrees(CommittedData(w), CommittedData(w'), ops);
      }
      if Legal(CommittedData(w'), ops) {
        LegalAgrees(CommittedData(w'), CommittedData(w), ops);
      }
    }
  }

  /** A transaction is untouched by what happens to keys it neither holds nor has stamped. */
  lemma TxnCarriesOver(w: World, w': World, t: TxnId)
    requires IsActive(w.sys, t) && TxnOk(w, t) && Undisturbed(w.sys, w'.sys, t) && SameData(w, w', t)
    requires forall k :: Holds(w'.sys.m.table, t, k) && !Holds(w.sys.m.table, t, k) && !Wrote(OpsOf(w, t), k) ==>
               Lookup(w'.store, k) == Lookup(CommittedData(w'), k)
    ensures TxnOk(w', t)
  {
    var ops := OpsOf(w, t);
    ReadsCarryOver(w, w', t);
    forall op | op in ops ensures Holds(w'.sys.m.table, t, op.key) || StampedIn(w'.sys.m.txns[t], op.key) {
      if !Holds(w.sys.m.table, t, op.key) {
        StampsStay(w.sys, w'.sys, t, op.key);
      }
    }
    forall k | Holds(w'.sys.m.table, t, k) ensures Lookup(w'.store, k) == Lookup(Final(CommittedData(w'), ops), k) {
      if Holds(w.sys.m.table, t, k) {
        FinalAgrees(CommittedData(w), CommittedData(w'), ops, k);
      } else {
        WroteHolds(w, t, k);
        UnwrittenUnchanged(CommittedData(w'), ops, k);
      }
    }
    forall k ensures FirstLogged(w'.sys.m.txns[t].undoLog, k) == if Wrote(ops, k) then Some(Lookup(CommittedData(w'), k)) else None {
      WroteHolds(w, t, k);
    }
  }

  lemma WroteHolds(w: World, t: TxnId, k: Key)
    requires IsActive(w.sys, t) && TxnOk(w, t)
    ensures Wrote(OpsOf(w, t), k) ==> HoldsExclusive(w.sys.m.table, t, k) && Holds(w.sys.m.table, t, k)
  {
    if op :| op in OpsOf(w, t) && op.Write? && op.key == k {
      assert LockInfo(t, Exclusive) in HoldersOf(w.sys.m.table, k);
    }
  }

  /** The store and the lists stay in order when only the manager changes and nobody gets a key that is owed. */
  lemma ManagerChangeKeepsStore(w: World, s': Sys)
    requires StoreOk(w) && OwedOk(w) && s'.log == w.sys.log && w.sys.pending.Keys <= s'.pending.Keys
    requires forall t :: IsActive(w.sys, t) ==> IsActive(s', t)
    requires forall t :: IsActive(s', t) && !IsActive(w.sys, t) ==> t !in w.sys.pending
    requires forall t, k :: IsActive(s', t) && HoldsExclusive(s'.m.table, t, k) ==>
               !Owed(w, k) || (IsActive(w.sys, t) && HoldsExclusive(w.sys.m.table, t, k))
    ensures StoreOk(w.(sys := s')) && OwedOk(w.(sys := s'))
  {
    hide HoldsExclusive, Wrote;
    var w' := w.(sys := s');
    assert CommittedData(w') == CommittedData(w);
    forall k | NobodyWrote(w', k) && !Owed(w', k) ensures Lookup(w.store, k) == Lookup(CommittedData(w), k) {
      assert NobodyWrote(w, k) by {
        forall t | IsActive(w.sys, t) ensures !Wrote(OpsOf(w, t), k) {
          assert OpsOf(w', t) == OpsOf(w, t);
        }
      }
      assert !Owed(w, k);
    }
    forall t, u, k | t in w'.owed && Names(w'.owed[t], k) && IsActive(s', u) ensures !HoldsExclusive(s'.m.table, u, k) {
      assert Owed(w, k);
    }
  }

  lemma UndisturbedStaysActive(s: Sys, s': Sys, t: TxnId)
    requires Undisturbed(s, s', t)
    ensures IsActive(s, t) && IsActive(s', t)
  {
  }

  lemma ManagerOnly(w: World, s': Sys, t: TxnId)
    requires Undisturbed(w.sys, s', t) && s'.m.versions == w.sys.m.versions
    ensures SameData(w, w.(sys := s'), t)
  {
    assert CommittedData(w.(sys := s')) == CommittedData(w);
  }

  /** Changing only the manager, without committing anything or starting a transaction with a past. */
  lemma ManagerChangeKeepsData(w: World, s': Sys)
    requires DataInv(w) && s'.log == w.sys.log && s'.m.versions == w.sys.m.versions && w.sys.pending.Keys <= s'.pending.Keys
    requires forall t :: IsActive(w.sys, t) ==> Undisturbed(w.sys, s', t)
    requires forall t :: IsActive(s', t) && !IsActive(w.sys, t) ==>
               t !in w.sys.pending && TxnOk(w.(sys := s'), t)
    requires forall t, k :: IsActive(w.sys, t) && Holds(s'.m.table, t, k) && !Holds(w.sys.m.table, t, k) ==>
               Lookup(w.store, k) == Lookup(CommittedData(w), k)
    requires forall t, k :: IsActive(s', t) && HoldsExclusive(s'.m.table, t, k) ==>
               !Owed(w, k) || (IsActive(w.sys, t) && HoldsExclusive(w.sys.m.table, t, k))
    requires UndoIsQuiet(w.(sys := s'))
    ensures DataInv(w.(sys := s'))
  {
    hide StoreOk, OwedOk, TxnOk, Undisturbed, HoldsExclusive, Holds, UndoIsQuiet, SameData;
    var w' := w.(sys := s');
    forall t | IsActive(w.sys, t) ensures IsActive(s', t) && SameData(w, w', t) {
      UndisturbedStaysActive(w.sys, s', t);
      ManagerOnly(w, s', t);
    }
    assert CommittedData(w') == CommittedData(w);
    forall t | IsActive(s', t) ensures TxnOk(w', t) {
      if IsActive(w.sys, t) {
        TxnCarriesOver(w, w', t);
      }
    }
    ManagerChangeKeepsStore(w, s');
  }
}
