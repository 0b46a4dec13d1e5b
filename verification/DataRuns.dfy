/**
 * Transactions over data. A caller writes a key only while holding it
 * exclusively and after logging its true previous value, and reads a key while
 * holding it or, being Serializable, after stamping it. A rollback hands its undo
 * list out after the locks are gone; the caller applies it later, entry by entry
 * in the order given, and others act in between.
 */
module DataRuns {
  import opened Wrappers
  import opened WaitForGraph
  import opened LockTables
  import opened LockSafety
  import opened Transactions
  import opened Interleaving

  type Store = map<Key, Bytes>

  datatype Op =
    | Read(key: Key, value: Option<Bytes>)
    | Write(key: Key, value: Option<Bytes>)

  /**
   * The manager's system together with the stored data and what each
   * transaction did; `history[i]` belongs to `sys.log[i]`. `owed` are the undo
   * logs of finished transactions less the entries that have been applied, newest
   * first; `lost` those of them that no call hands out; and `dirty` the
   * transactions that read data while an undo entry for it stood out.
   */
  datatype World = World(
    sys: Sys, base: Store, store: Store, ops: map<TxnId, seq<Op>>, history: seq<seq<Op>>,
    owed: map<TxnId, seq<UndoEntry>>, lost: set<TxnId>, dirty: set<TxnId>)

  /**
   * `Rollback` is the manager's own, and `ApplyEntry` applies the next entry of
   * the list it handed out; `Abort` applies the whole list before the locks go.
   */
  datatype Event =
    | Manage(step: Step)
    | Stamp(t: TxnId, key: Key)
    | ReadData(t: TxnId, key: Key)
    | WriteData(t: TxnId, key: Key, value: Option<Bytes>, version: nat)
    | Commit(t: TxnId)
    | Rollback(t: TxnId)
    | ApplyEntry(t: TxnId)
    | Abort(t: TxnId)

  function Put(store: Store, key: Key, value: Option<Bytes>): Store {
    match value
    case None => store - {key}
    case Some(v) => store[key := v]
  }

  /** Apply undo entries in the order given. */
  function ApplyUndo(store: Store, entries: seq<UndoEntry>): Store
    decreases |entries|
  {
    if entries == [] then store
    else ApplyUndo(Put(store, entries[0].key, entries[0].previousData), entries[1..])
  }

  function OpsOf(w: World, t: TxnId): seq<Op> {
    if t in w.ops then w.ops[t] else []
  }

  predicate IsActive(s: Sys, t: TxnId) {
    t in s.m.txns && s.m.txns[t].state == Active
  }

  ghost predicate CanWrite(s: Sys, t: TxnId, key: Key) {
    Ready(s, t) && KeyUnusable(s.m.txns, t, key).None? && HoldsExclusive(s.m.table, t, key)
  }

  ghost predicate CanFinish(s: Sys, t: TxnId) {
    Ready(s, t) && Unusable(s.m.txns, t).None?
  }

  ghost predicate StampedIn(txn: Txn, key: Key) {
    txn.level == Serializable && exists r :: r in txn.readSet && r.key == key
  }

  ghost predicate CanRead(s: Sys, t: TxnId, key: Key) {
    IsActive(s, t) && (Holds(s.m.table, t, key) || StampedIn(s.m.txns[t], key))
  }

  /** Sections that neither touch data nor decide a transaction's fate. */
  predicate Neutral(step: Step) {
    !step.NoteUndo? && !step.Validate? && !step.StartRollback? && !step.ReadVersion?
  }

  /** The committed data: the serial execution of the commits so far. */
  function CommittedData(w: World): Store {
    Serial(w.base, w.history)
  }

  /** The value `t` would find at `key` running alone on the committed data. */
  function Own(w: World, t: TxnId, key: Key): Option<Bytes> {
    Lookup(Final(CommittedData(w), OpsOf(w, t)), key)
  }

  /** The list of `t` was handed out and has an entry left. */
  predicate CanApply(w: World, t: TxnId) {
    t in w.owed && t !in w.lost && w.sys.guard != Some(t) && w.owed[t] != []
  }

  /** The oldest entry for `key` is not what is stored there. */
  predicate Differs(undoLog: seq<UndoEntry>, store: Store, key: Key) {
    FirstLogged(undoLog, key).Some? && FirstLogged(undoLog, key) != Some(Lookup(store, key))
  }

  /** What is stored at `key` is to be undone, or may be, on behalf of a transaction other than `t`. */
  ghost predicate Unsettled(w: World, t: TxnId, key: Key) {
    || (exists u :: u in w.owed && Differs(w.owed[u], w.store, key))
    || (exists u :: u != t && IsActive(w.sys, u) && Differs(w.sys.m.txns[u].undoLog, w.store, key))
  }

  function WithOp(w: World, t: TxnId, op: Op): map<TxnId, seq<Op>> {
    w.ops[t := OpsOf(w, t) + [op]]
  }

  ghost function Act(w: World, event: Event): World {
    var s := w.sys;
    match event
    case Manage(step) =>
      if !Neutral(step) then w else w.(sys := Do(s, step))
    case Stamp(t, key) => w.(sys := Do(s, ReadVersion(t, key)))
    case ReadData(t, key) =>
      if !CanRead(s, t, key) then w
      else w.(ops := WithOp(w, t, Read(key, Lookup(w.store, key))),
              dirty := if Unsettled(w, t, key) then w.dirty + {t} else w.dirty)
    case WriteData(t, key, value, version) =>
      if !CanWrite(s, t, key) then w
      else w.(sys := Do(s, NoteUndo(t, UndoEntry(key, Lookup(w.store, key), version))),
              store := Put(w.store, key, value), ops := WithOp(w, t, Write(key, value)))
    case Commit(t) =>
      if !CanFinish(s, t) then w
      else if FailsValidation(s.m, t) then
        w.(sys := Do(s, Validate(t)), owed := w.owed[t := s.m.txns[t].undoLog], lost := w.lost + {t})
      else w.(sys := Do(s, Validate(t)), history := w.history + [OpsOf(w, t)])
    case Rollback(t) =>
      if !CanFinish(s, t) then w
      else w.(sys := Do(s, StartRollback(t)), owed := w.owed[t := s.m.txns[t].undoLog])
    case ApplyEntry(t) =>
      if !CanApply(w, t) then w
      else
        var (rest, e) := (w.owed[t][..|w.owed[t]| - 1], w.owed[t][|w.owed[t]| - 1]);
        w.(store := Put(w.store, e.key, e.previousData), owed := w.owed[t := rest])
    case Abort(t) =>
      if !CanFinish(s, t) then w
      else w.(sys := Do(s, StartRollback(t)), store := ApplyUndo(w.store, Newest(s.m.txns[t].undoLog)))
  }

  function Fresh(versions: Versions, base: Store): World {
    World(Start(versions), base, base, map[], [], map[], {}, {})
  }

  ghost function Run(w: World, events: seq<Event>): World {
    if events == [] then w else Act(Run(w, events[..|events| - 1]), events[|events| - 1])
  }

  // ---- Serial execution -----------------------------------------------------------

  /** The store after a transaction's operations ran alone. */
  function Final(store: Store, ops: seq<Op>): Store {
    if ops == [] then store
    else
      var before := Final(store, ops[..|ops| - 1]);
      match ops[|ops| - 1]
      case Read(_, _) => before
      case Write(key, value) => Put(before, key, value)
  }

  /** Run alone from `store`, every read returns the value that was read. */
  predicate Legal(store: Store, ops: seq<Op>) {
    ops == [] ||
    (var before, last := ops[..|ops| - 1], ops[|ops| - 1];
     && Legal(store, before)
     && (last.Read? ==> last.value == Lookup(Final(store, before), last.key)))
  }

  /** The store after the transactions of `history` ran one after the other. */
  function Serial(base: Store, history: seq<seq<Op>>): Store {
    if history == [] then base else Final(Serial(base, history[..|history| - 1]), history[|history| - 1])
  }

  ghost predicate Wrote(ops: seq<Op>, key: Key) {
    exists op :: op in ops && op.Write? && op.key == key
  }

  lemma {:induction false} UnwrittenUnchanged(store: Store, ops: seq<Op>, key: Key)
    requires !Wrote(ops, key)
    ensures Lookup(Final(store, ops), key) == Lookup(store, key)
  {
    if ops != [] {
      var before, last := ops[..|ops| - 1], ops[|ops| - 1];
      assert !Wrote(before, key);
      assert last in ops;
      UnwrittenUnchanged(store, before, key);
    }
  }

  lemma {:induction false} FinalAgrees(a: Store, b: Store, ops: seq<Op>, key: Key)
    requires Lookup(a, key) == Lookup(b, key)
    ensures Lookup(Final(a, ops), key) == Lookup(Final(b, ops), key)
  {
    if ops != [] {
      FinalAgrees(a, b, ops[..|ops| - 1], key);
    }
  }

  /** What a transaction reads depends only on the keys it touches. */
  lemma {:induction false} LegalAgrees(a: Store, b: Store, ops: seq<Op>)
    requires Legal(a, ops)
    requires forall op :: op in ops ==> Lookup(a, op.key) == Lookup(b, op.key)
    ensures Legal(b, ops)
  {
    if ops != [] {
      var before, last := ops[..|ops| - 1], ops[|ops| - 1];
      assert last in ops;
      LegalAgrees(a, b, before);
      FinalAgrees(a, b, before, last.key);
    }
  }

  // ---- Undo -----------------------------------------------------------------------

  /** The previous data in the oldest entry for `key`. */
  function FirstLogged(undoLog: seq<UndoEntry>, key: Key): Option<Option<Bytes>> {
    if undoLog == [] then None
    else if undoLog[0].key == key then Some(undoLog[0].previousData)
    else FirstLogged(undoLog[1..], key)
  }

  lemma {:induction false} ApplyUndoLast(store: Store, entries: seq<UndoEntry>, e: UndoEntry)
    ensures ApplyUndo(store, entries + [e]) == Put(ApplyUndo(store, entries), e.key, e.previousData)
    decreases |entries|
  {
    if entries == [] {
      assert [e][1..] == [];
      assert entries + [e] == [e];
    } else {
      assert (entries + [e])[1..] == entries[1..] + [e];
      ApplyUndoLast(Put(store, entries[0].key, entries[0].previousData), entries[1..], e);
    }
  }

  /**
   * Undo restores: applied newest first, an undo log sets each key it names to
   * the data of its oldest entry for that key, and changes no other key.
   */
  lemma {:induction false} UndoRestoresOldest(store: Store, undoLog: seq<UndoEntry>, key: Key)
    ensures Lookup(ApplyUndo(store, Newest(undoLog)), key) ==
              match FirstLogged(undoLog, key) case None => Lookup(store, key) case Some(data) => data
  {
    if undoLog != [] {
      UndoRestoresOldest(store, undoLog[1..], key);
      ApplyUndoLast(store, Newest(undoLog[1..]), undoLog[0]);
    }
  }

  /** The undo log has an entry for `key`. */
  predicate Names(undoLog: seq<UndoEntry>, key: Key) {
    FirstLogged(undoLog, key).Some?
  }

  lemma {:induction false} FirstLoggedAppend(undoLog: seq<UndoEntry>, e: UndoEntry, key: Key)
    ensures FirstLogged(undoLog + [e], key) ==
              if FirstLogged(undoLog, key).Some? then FirstLogged(undoLog, key)
              else if e.key == key then Some(e.previousData) else None
  {
    if undoLog == [] {
      assert undoLog + [e] == [e];
    } else {
      assert (undoLog + [e])[1..] == undoLog[1..] + [e];
      FirstLoggedAppend(undoLog[1..], e, key);
    }
  }

  /** The oldest entry for `key`. */
  lemma {:induction false} FirstEntry(undoLog: seq<UndoEntry>, key: Key) returns (e: UndoEntry)
    requires Names(undoLog, key)
    ensures e in undoLog && e.key == key && FirstLogged(undoLog, key) == Some(e.previousData)
  {
    if undoLog[0].key == key {
      e := undoLog[0];
    } else {
      e := FirstEntry(undoLog[1..], key);
    }
  }

  lemma {:induction false} LoggedKeys(undoLog: seq<UndoEntry>, key: Key)
    ensures FirstLogged(undoLog, key).Some? <==> exists e :: e in undoLog && e.key == key
  {
    if undoLog != [] {
      LoggedKeys(undoLog[1..], key);
      assert undoLog == [undoLog[0]] + undoLog[1..];
    }
  }
}
