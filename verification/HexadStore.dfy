/**
 * The hexad store: a registry of entities over eight modality stores, with every
 * create, update, and delete run as a transaction of the transaction manager.
 */
module Hexads {
  import opened Wrappers
  import opened WaitForGraph
  import opened LockTables
  import opened Transactions

  type Id = string
  type Data = string
  type Relation = (string, string)

  datatype Mod = Graph | Vector | Document | Tensor | Semantic | Provenance | Spatial | Temporal

  function Name(m: Mod): string {
    match m
    case Graph => "graph"
    case Vector => "vector"
    case Document => "document"
    case Tensor => "tensor"
    case Semantic => "semantic"
    case Provenance => "provenance"
    case Spatial => "spatial"
    case Temporal => "temporal"
  }

  datatype Input = Input(
    graph: Option<seq<Relation>>, vector: Option<Data>, document: Option<Data>, tensor: Option<Data>,
    semantic: Option<Data>, provenance: Option<Data>, spatial: Option<Data>)

  /** One modality's share of an input. */
  datatype Part = Links(relations: seq<Relation>) | Event(event: Data) | Blob(kind: Mod, data: Data)

  function ModOf(p: Part): Mod {
    match p
    case Links(_) => Graph
    case Event(_) => Provenance
    case Blob(m, _) => m
  }

  /** The order in which modalities are locked and written. */
  const ORDER: seq<Mod> := [Graph, Vector, Document, Tensor, Semantic, Provenance, Spatial]

  /** The modalities of `ms` among the first `n`, in order. */
  function Selected(ms: set<Mod>, n: nat): seq<Mod>
    requires n <= 7
  {
    if n == 0 then [] else Selected(ms, n - 1) + if ORDER[n - 1] in ms then [ORDER[n - 1]] else []
  }

  function Share(input: Input, m: Mod): Option<Part> {
    match m
    case Graph => if input.graph.Some? then Some(Links(input.graph.value)) else None
    case Vector => if input.vector.Some? then Some(Blob(Vector, input.vector.value)) else None
    case Document => if input.document.Some? then Some(Blob(Document, input.document.value)) else None
    case Tensor => if input.tensor.Some? then Some(Blob(Tensor, input.tensor.value)) else None
    case Semantic => if input.semantic.Some? then Some(Blob(Semantic, input.semantic.value)) else None
    case Provenance => if input.provenance.Some? then Some(Event(input.provenance.value)) else None
    case Spatial => if input.spatial.Some? then Some(Blob(Spatial, input.spatial.value)) else None
    case Temporal => None
  }

  /** The parts given among the first `n` modalities, in order. */
  function PartsUpTo(input: Input, n: nat): seq<Part>
    requires n <= 7
  {
    if n == 0 then []
    else PartsUpTo(input, n - 1) + if Share(input, ORDER[n - 1]).Some? then [Share(input, ORDER[n - 1]).value] else []
  }

  function Parts(input: Input): seq<Part> {
    PartsUpTo(input, 7)
  }

  function ModsOf(parts: seq<Part>): (ms: seq<Mod>)
    ensures |ms| == |parts| && forall i :: 0 <= i < |parts| ==> ms[i] == ModOf(parts[i])
  {
    if parts == [] then [] else ModsOf(parts[..|parts| - 1]) + [ModOf(parts[|parts| - 1])]
  }

  function Range(ms: seq<Mod>): set<Mod> {
    set m | m in ms
  }

  datatype Snapshot = Snapshot(input: Input, flags: set<Mod>)

  datatype Stores = Stores(
    links: set<(Id, Relation)>, data: map<(Mod, Id), Data>, chains: map<Id, seq<Data>>, history: map<Id, seq<Snapshot>>)

  /** `flags` are the modalities the entity is said to have. */
  datatype Status = Status(id: Id, createdAt: int, modifiedAt: int, version: nat, flags: set<Mod>)

  datatype State = State(registry: map<Id, Status>, stores: Stores, manager: Manager)

  datatype HexadError = NotFound(id: Id) | WalFailed | LockRefusedOn(m: Mod) | WriteFailed(m: Mod) | CommitFailed | ReadFailed(m: Mod)

  /**
   * A write succeeds, or fails after `landed` of it took effect: none when the
   * input is rejected, some edges of a graph, or all of a write whose last
   * acknowledgement failed.
   */
  datatype Outcome = Done | Failed(landed: nat)

  /** How the log and the modality stores behave during one operation. */
  datatype Env = Env(walOk: bool, writes: Mod -> Outcome, deletes: Mod -> bool)

  // ---- The modality stores ---------------------------------------------------------------

  function Entries<T>(m: map<Id, seq<T>>, id: Id): seq<T> {
    if id in m then m[id] else []
  }

  /** The stores after the first `n` pieces of a part landed. */
  function Landed(s: Stores, id: Id, p: Part, n: nat): Stores {
    match p
    case Links(rs) => s.(links := s.links + set r | r in (if n < |rs| then rs[..n] else rs) :: (id, r))
    case Event(e) => if n == 0 then s else s.(chains := s.chains[id := Entries(s.chains, id) + [e]])
    case Blob(m, d) => if n == 0 then s else s.(data := s.data[(m, id) := d])
  }

  function Whole(p: Part): nat {
    if p.Links? then |p.relations| else 1
  }

  function Write(s: Stores, id: Id, p: Part, o: Outcome): Stores {
    Landed(s, id, p, if o.Done? then Whole(p) else o.landed)
  }

  function Snapped(s: Stores, id: Id, snap: Snapshot, o: Outcome): Stores {
    if o.Done? || o.landed > 0 then s.(history := s.history[id := Entries(s.history, id) + [snap]]) else s
  }

  datatype Progress = Progress(stores: Stores, count: nat)

  /** The parts written one after the other, up to the first that fails. */
  function Populated(s: Stores, id: Id, parts: seq<Part>, env: Env): Progress
    decreases |parts|
  {
    if parts == [] then Progress(s, 0)
    else
      var o := env.writes(ModOf(parts[0]));
      var s1 := Write(s, id, parts[0], o);
      if o.Failed? then Progress(s1, 0)
      else
        var rest := Populated(s1, id, parts[1..], env);
        Progress(rest.stores, rest.count + 1)
  }

  /** The stores that can delete by id. */
  const ERASABLE: set<Mod> := {Vector, Document, Tensor}

  /** Each erasable modality of `ms` deleted, where the deletion works. */
  function Erased(s: Stores, id: Id, ms: set<Mod>, env: Env): Stores {
    s.(data := s.data - set m | m in ms * ERASABLE && env.deletes(m) :: (m, id))
  }

  // ---- The transaction around an operation -------------------------------------------------

  function Began(m: Manager, t: TxnId): Manager {
    m.(txns := m.txns[t := NewTxn(ReadCommitted)])
  }

  datatype Locking = Locking(manager: Manager, refused: Option<Mod>)

  /** The locks requested in order; the first refusal rolls the transaction back. */
  ghost function Locked(m: Manager, t: TxnId, id: Id, ms: seq<Mod>): Locking
    decreases |ms|
  {
    if ms == [] then Locking(m, None)
    else
      var key := Key(id, Name(ms[0]));
      var m1 := AfterLockRequest(m, t, key, Exclusive);
      if KeyUnusable(m.txns, t, key).None? && Granted(m.table, t, key, Exclusive) then Locked(m1, t, id, ms[1..])
      else Locking(AfterRollback(m1, t), Some(ms[0]))
  }

  /** An undo entry without data recorded for each modality. */
  function Noted(m: Manager, t: TxnId, id: Id, ms: seq<Mod>, version: nat): Manager {
    if ms == [] then m
    else
      var n := |ms| - 1;
      var before := Noted(m, t, id, ms[..n], version);
      before.(txns := WithUndo(before.txns, t, UndoEntry(Key(id, Name(ms[n])), None, version)))
  }

  /** What an attempt to write an input led to; `written` are the modalities that reported success. */
  datatype Attempt = Attempt(stores: Stores, manager: Manager, written: set<Mod>, error: Option<HexadError>)

  ghost function Attempted(h: State, id: Id, input: Input, t: TxnId, version: nat, base: set<Mod>, env: Env): Attempt {
    var parts := Parts(input);
    var locking := Locked(Began(h.manager, t), t, id, ModsOf(parts) + [Temporal]);
    if locking.refused.Some? then Attempt(h.stores, locking.manager, {}, Some(LockRefusedOn(locking.refused.value)))
    else
      var p := Populated(h.stores, id, parts, env);
      if p.count < |parts| then
        var ms := ModsOf(parts[..p.count]);
        Attempt(p.stores, AfterRollback(Noted(locking.manager, t, id, ms, version), t), Range(ms), Some(WriteFailed(ModOf(parts[p.count]))))
      else
        var ms := ModsOf(parts);
        var m := Noted(locking.manager, t, id, ms, version);
        var stores := Snapped(p.stores, id, Snapshot(input, base + Range(ms)), env.writes(Temporal));
        if env.writes(Temporal).Failed? then Attempt(stores, AfterRollback(m, t), Range(ms), Some(WriteFailed(Temporal)))
        else
          Attempt(stores, AfterCommit(m, t), Range(ms) + {Temporal}, if CommitResult(m, t).Err? then Some(CommitFailed) else None)
  }

  // ---- The operations ------------------------------------------------------------------------

  /** What a caller is given of an entity. */
  datatype Hexad = Hexad(
    status: Status, node: bool, vector: Option<Data>, document: Option<Data>, tensor: Option<Data>,
    semantic: Option<Data>, versionCount: nat, chainLength: nat, spatial: Option<Data>)

  /** A write answers with the parts it was given, not with those the entity had before. */
  function Answer(status: Status, input: Input, s: Stores, versions: nat): Hexad {
    Hexad(status, input.graph.Some?, input.vector, input.document, input.tensor, input.semantic, versions,
          if input.provenance.Some? then |Entries(s.chains, status.id)| else 0, input.spatial)
  }

  /** A new entity: a failed attempt is rolled back in the stores that can delete. */
  ghost function Created(h: State, id: Id, input: Input, t: TxnId, now: int, env: Env): (State, Result<Hexad, HexadError>) {
    if !env.walOk then (h, Err(WalFailed))
    else
      var a := Attempted(h, id, input, t, 0, {}, env);
      if a.error.Some? then (State(h.registry, Erased(a.stores, id, a.written, env), a.manager), Err(a.error.value))
      else
        var status := Status(id, now, now, |Entries(a.stores.history, id)|, a.written);
        (State(h.registry[id := status], a.stores, a.manager), Ok(Answer(status, input, a.stores, 1)))
  }

  /** A failed update leaves in the stores whatever was written. */
  ghost function Updated(h: State, id: Id, input: Input, t: TxnId, now: int, env: Env): (State, Result<Hexad, HexadError>) {
    if id !in h.registry then (h, Err(NotFound(id)))
    else if !env.walOk then (h, Err(WalFailed))
    else
      var existing := h.registry[id];
      var a := Attempted(h, id, input, t, existing.version, existing.flags, env);
      if a.error.Some? then (State(h.registry, a.stores, a.manager), Err(a.error.value))
      else
        var status := Status(id, existing.createdAt, now, |Entries(a.stores.history, id)|, existing.flags + a.written);
        (State(h.registry[id := status], a.stores, a.manager), Ok(Answer(status, input, a.stores, status.version)))
  }

  /** The modalities a status lists, in order, and the history. */
  function Listed(flags: set<Mod>): seq<Mod> {
    Selected(flags, 7) + [Temporal]
  }

  ghost function Deleted(h: State, id: Id, t: TxnId, env: Env): (State, Result<(), HexadError>) {
    if id !in h.registry then (h, Err(NotFound(id)))
    else if !env.walOk then (h, Err(WalFailed))
    else
      var ms := Listed(h.registry[id].flags);
      var locking := Locked(Began(h.manager, t), t, id, ms);
      if locking.refused.Some? then (h.(manager := locking.manager), Err(LockRefusedOn(locking.refused.value)))
      else
        var m := Noted(locking.manager, t, id, ms, h.registry[id].version);
        var stores := Erased(h.stores, id, ERASABLE, env);
        if CommitResult(m, t).Err? then (State(h.registry, stores, AfterCommit(m, t)), Err(CommitFailed))
        else (State(h.registry - {id}, stores, AfterCommit(m, t)), Ok(()))
  }

  function Blobbed(s: Stores, id: Id, m: Mod, flags: set<Mod>): Option<Data> {
    if m in flags then Lookup(s.data, (m, id)) else None
  }

  const HISTORY_LIMIT: nat := 1000

  function Capped(versions: nat): nat {
    if versions <= HISTORY_LIMIT then versions else HISTORY_LIMIT
  }

  /** The stores whose failure to read fails the whole reading, in the order they are read. */
  const READ_ORDER: seq<Mod> := [Vector, Document, Tensor, Semantic, Spatial]

  /** The first of those stores, from the `n`-th on, that is to be read and cannot be. */
  function Unreadable(flags: set<Mod>, readable: Mod -> bool, n: nat): (r: Option<Mod>)
    requires n <= 5
    ensures r.None? <==> forall k :: n <= k < 5 && READ_ORDER[k] in flags ==> readable(READ_ORDER[k])
    decreases 5 - n
  {
    if n == 5 then None
    else if READ_ORDER[n] in flags && !readable(READ_ORDER[n]) then Some(READ_ORDER[n])
    else Unreadable(flags, readable, n + 1)
  }

  /** An entity as read; the history and the lineage count as empty when they cannot be read. */
  function Loaded(h: State, id: Id, readable: Mod -> bool): Result<Option<Hexad>, HexadError> {
    if id !in h.registry then Ok(None)
    else
      var (status, s, f) := (h.registry[id], h.stores, h.registry[id].flags);
      if Unreadable(f, readable, 0).Some? then Err(ReadFailed(Unreadable(f, readable, 0).value))
      else Ok(Some(Hexad(
        status, Graph in f, Blobbed(s, id, Vector, f), Blobbed(s, id, Document, f), Blobbed(s, id, Tensor, f),
        Blobbed(s, id, Semantic, f), if readable(Temporal) then Capped(|Entries(s.history, id)|) else 0,
        if Provenance in f && readable(Provenance) then |Entries(s.chains, id)| else 0, Blobbed(s, id, Spatial, f))))
  }

  class HexadStore {
    const txns: TransactionManager
    var registry: map<Id, Status>
    var stores: Stores

    ghost function View(): State
      reads this, txns, txns.lockTable
    {
      State(registry, stores, txns.View())
    }

    constructor ()
      ensures fresh(txns) && fresh(txns.lockTable)
      ensures View() == State(map[], Stores({}, map[], map[], map[]), Manager(map[], EMPTY_TABLE, map[]))
    {
      txns := new TransactionManager();
      registry, stores := map[], Stores({}, map[], map[], map[]);
    }

    method AcquireAll(t: TxnId, id: Id, ms: seq<Mod>) returns (refused: Option<Mod>)
      modifies txns, txns.lockTable
      ensures Locking(txns.View(), refused) == Locked(old(txns.View()), t, id, ms)
    {
      for i := 0 to |ms|
        invariant Locked(old(txns.View()), t, id, ms) == Locked(txns.View(), t, id, ms[i..])
      {
        var r := txns.AcquireLock(t, Key(id, Name(ms[i])), Exclusive);
        assert ms[i..][1..] == ms[i + 1..];
        if r.Err? {
          var _ := txns.Rollback(t);
          return Some(ms[i]);
        }
      }
      return None;
    }

    /** Writes the parts up to the first failure, noting each success for the transaction. */
    method Populate(t: TxnId, id: Id, parts: seq<Part>, version: nat, env: Env) returns (count: nat)
      modifies this`stores, txns
      ensures Progress(stores, count) == Populated(old(stores), id, parts, env) && count <= |parts|
      ensures txns.View() == Noted(old(txns.View()), t, id, ModsOf(parts[..count]), version)
    {
      hide Write, WithUndo, KeyUnusable, Name;
      for i := 0 to |parts|
        invariant var rest := Populated(stores, id, parts[i..], env);
          Populated(old(stores), id, parts, env) == Progress(rest.stores, i + rest.count)
        invariant txns.View() == Noted(old(txns.View()), t, id, ModsOf(parts[..i]), version)
      {
        assert parts[i..][1..] == parts[i + 1..];
        var o := env.writes(ModOf(parts[i]));
        stores := Write(stores, id, parts[i], o);
        if o.Failed? {
          return i;
        }
        var _ := txns.RecordUndo(t, UndoEntry(Key(id, Name(ModOf(parts[i]))), None, version));
        assert ModsOf(parts[..i + 1])[..i] == ModsOf(parts[..i]) by {
          assert parts[..i + 1][..i] == parts[..i];
        }
      }
      assert parts[..|parts|] == parts;
      return |parts|;
    }

    /** The locks, the writes, the snapshot, and the end of the transaction. */
    method TryWrite(id: Id, input: Input, t: TxnId, version: nat, base: set<Mod>, env: Env)
      returns (written: set<Mod>, error: Option<HexadError>)
      requires t !in txns.txns
      modifies this`stores, txns, txns.lockTable
      ensures Attempt(stores, txns.View(), written, error) == Attempted(old(View()), id, input, t, version, base, env)
    {
      txns.Begin(t, ReadCommitted);
      var parts := Parts(input);
      var refused := AcquireAll(t, id, ModsOf(parts) + [Temporal]);
      if refused.Some? {
        return {}, Some(LockRefusedOn(refused.value));
      }
      var count := Populate(t, id, parts, version, env);
      if count < |parts| {
        var _ := txns.Rollback(t);
        return Range(ModsOf(parts[..count])), Some(WriteFailed(ModOf(parts[count])));
      }
      assert parts[..count] == parts;
      written := Range(ModsOf(parts));
      var outcome := env.writes(Temporal);
      stores := Snapped(stores, id, Snapshot(input, base + written), outcome);
      if outcome.Failed? {
        var _ := txns.Rollback(t);
        return written, Some(WriteFailed(Temporal));
      }
      written := written + {Temporal};
      var r := txns.Commit(t);
      error := if r.Err? then Some(CommitFailed) else None;
    }

    method RollbackCreate(id: Id, written: set<Mod>, env: Env)
      modifies this`stores
      ensures stores == Erased(old(stores), id, written, env)
    {
      ghost var gone := set m | m in written * ERASABLE && env.deletes(m) :: (m, id);
      assert gone == (if Vector in written && env.deletes(Vector) then {(Vector, id)} else {})
                     + (if Document in written && env.deletes(Document) then {(Document, id)} else {})
                     + (if Tensor in written && env.deletes(Tensor) then {(Tensor, id)} else {});
      if Vector in written && env.deletes(Vector) {
        stores := stores.(data := stores.data - {(Vector, id)});
      }
      if Document in written && env.deletes(Document) {
        stores := stores.(data := stores.data - {(Document, id)});
      }
      if Tensor in written && env.deletes(Tensor) {
        stores := stores.(data := stores.data - {(Tensor, id)});
      }
    }

    /** `id` and `t` stand for fresh identifiers. */
    method Create(id: Id, input: Input, t: TxnId, now: int, env: Env) returns (r: Result<Hexad, HexadError>)
      requires t !in txns.txns
      modifies this, txns, txns.lockTable
      ensures (View(), r) == Created(old(View()), id, input, t, now, env)
    {
      if !env.walOk {
        return Err(WalFailed);
      }
      var written, error := TryWrite(id, input, t, 0, {}, env);
      if error.Some? {
        RollbackCreate(id, written, env);
        return Err(error.value);
      }
      var status := Status(id, now, now, |Entries(stores.history, id)|, written);
      registry := registry[id := status];
      return Ok(Answer(status, input, stores, 1));
    }

    method Update(id: Id, input: Input, t: TxnId, now: int, env: Env) returns (r: Result<Hexad, HexadError>)
      requires t !in txns.txns
      modifies this, txns, txns.lockTable
      ensures (View(), r) == Updated(old(View()), id, input, t, now, env)
    {
      if id !in registry {
        return Err(NotFound(id));
      }
      var existing := registry[id];
      if !env.walOk {
        return Err(WalFailed);
      }
      var written, error := TryWrite(id, input, t, existing.version, existing.flags, env);
      if error.Some? {
        return Err(error.value);
      }
      var status := Status(id, existing.createdAt, now, |Entries(stores.history, id)|, existing.flags + written);
      registry := registry[id := status];
      return Ok(Answer(status, input, stores, status.version));
    }

    method Delete(id: Id, t: TxnId, env: Env) returns (r: Result<(), HexadError>)
      requires t !in txns.txns
      modifies this, txns, txns.lockTable
      ensures (View(), r) == Deleted(old(View()), id, t, env)
    {
      hide Locked, CommitResult, AfterCommit, Erased, WithUndo, KeyUnusable, Listed, Name, AfterRelease;
      if id !in registry {
        return Err(NotFound(id));
      }
      var existing := registry[id];
      if !env.walOk {
        return Err(WalFailed);
      }
      txns.Begin(t, ReadCommitted);
      var ms := Listed(existing.flags);
      var refused := AcquireAll(t, id, ms);
      if refused.Some? {
        return Err(LockRefusedOn(refused.value));
      }
      for i := 0 to |ms|
        invariant registry == old(registry) && stores == old(stores)
        invariant txns.View() == Noted(Locked(Began(old(txns.View()), t), t, id, ms).manager, t, id, ms[..i], existing.version)
      {
        var _ := txns.RecordUndo(t, UndoEntry(Key(id, Name(ms[i])), None, existing.version));
        assert ms[..i + 1][..i] == ms[..i];
      }
      assert ms[..|ms|] == ms;
      RollbackCreate(id, ERASABLE, env);
      var committed := txns.Commit(t);
      if committed.Err? {
        return Err(CommitFailed);
      }
      registry := registry - {id};
      return Ok(());
    }

    method Get(id: Id, readable: Mod -> bool) returns (r: Result<Option<Hexad>, HexadError>)
      ensures r == Loaded(View(), id, readable)
    {
      if id !in registry {
        return Ok(None);
      }
      var status := registry[id];
      var f := status.flags;
      for k := 0 to 5
        invariant Unreadable(f, readable, 0) == Unreadable(f, readable, k)
      {
        if READ_ORDER[k] in f && !readable(READ_ORDER[k]) {
          return Err(ReadFailed(READ_ORDER[k]));
        }
      }
      var versions := if readable(Temporal) then Capped(|Entries(stores.history, id)|) else 0;
      var chain := if Provenance in f && readable(Provenance) then |Entries(stores.chains, id)| else 0;
      return Ok(Some(Hexad(
        status, Graph in f, Blobbed(stores, id, Vector, f), Blobbed(stores, id, Document, f), Blobbed(stores, id, Tensor, f),
        Blobbed(stores, id, Semantic, f), versions, chain, Blobbed(stores, id, Spatial, f))));
    }
  }
}
