/**
 * Hexad operations cut at the registry: an update or a delete looks its entity
 * up, does its work under its transaction, and changes the registry only after
 * the locks are gone, so that others act in between.
 */
module HexadSections {
  import opened Wrappers
  import opened WaitForGraph
  import opened LockTables
  import opened LockSafety
  import opened Transactions
  import opened Hexads
  import opened HexadTransactions
  import opened HexadRuns

  type Caller = nat

  /** How far the call of a caller is: it has seen its entity, or has only the registry left to change. */
  datatype Call =
    | UpdateSeen(id: Id, existing: Status)
    | DeleteSeen(id: Id, existing: Status)
    | ToEnter(status: Status)
    | ToRemove(id: Id)

  datatype World = World(h: State, used: set<Id>, calls: map<Caller, Call>)

  datatype Section =
    | SeeForUpdate(c: Caller, id: Id)
    | SeeForDelete(c: Caller, id: Id)
    | WriteNew(c: Caller, id: Id, input: Input, t: TxnId, now: int, env: Env)
    | WriteSeen(c: Caller, input: Input, t: TxnId, now: int, env: Env)
    | EraseSeen(c: Caller, t: TxnId, env: Env)
    | Finish(c: Caller)
    | Others(m: Manager)

  const FRESH := World(State(map[], Stores({}, map[], map[], map[]), Manager(map[], EMPTY_TABLE, map[])), {}, map[])

  /** The store as a call that has seen `existing` takes it to be. */
  function AsSeen(h: State, id: Id, existing: Status): State {
    h.(registry := map[id := existing])
  }

  /** Stores and manager after a section's work; the registry is not touched. */
  function Worked(h: State, h': State): State {
    h'.(registry := h.registry)
  }

  /** No version falls. */
  ghost predicate Follows(m: Manager, m': Manager) {
    forall key :: VersionOf(m.versions, key) <= VersionOf(m'.versions, key)
  }

  /** One section; a section that is not enabled changes nothing. `Others` is what other users of the manager did. */
  ghost function Step(w: World, section: Section): World {
    match section
    case SeeForUpdate(c, id) =>
      if c in w.calls || id !in w.h.registry then w else w.(calls := w.calls[c := UpdateSeen(id, w.h.registry[id])])
    case SeeForDelete(c, id) =>
      if c in w.calls || id !in w.h.registry then w else w.(calls := w.calls[c := DeleteSeen(id, w.h.registry[id])])
    case WriteNew(c, id, input, t, now, env) =>
      if c in w.calls || id in w.used || !Unknown(w.h.manager, t) then w
      else
        var (h', r) := Created(w.h, id, input, t, now, env);
        World(Worked(w.h, h'), w.used + {id}, if r.Ok? then w.calls[c := ToEnter(r.value.status)] else w.calls)
    case WriteSeen(c, input, t, now, env) =>
      if c !in w.calls || !w.calls[c].UpdateSeen? || !Unknown(w.h.manager, t) then w
      else
        var (h', r) := Updated(AsSeen(w.h, w.calls[c].id, w.calls[c].existing), w.calls[c].id, input, t, now, env);
        w.(h := Worked(w.h, h'), calls := if r.Ok? then w.calls[c := ToEnter(r.value.status)] else w.calls - {c})
    case EraseSeen(c, t, env) =>
      if c !in w.calls || !w.calls[c].DeleteSeen? || !Unknown(w.h.manager, t) then w
      else
        var (h', r) := Deleted(AsSeen(w.h, w.calls[c].id, w.calls[c].existing), w.calls[c].id, t, env);
        w.(h := Worked(w.h, h'), calls := if r.Ok? then w.calls[c := ToRemove(w.calls[c].id)] else w.calls - {c})
    case Finish(c) =>
      if c !in w.calls then w
      else if w.calls[c].ToEnter? then
        var status := w.calls[c].status;
        w.(h := w.h.(registry := w.h.registry[status.id := status]), calls := w.calls - {c})
      else if w.calls[c].ToRemove? then
        w.(h := w.h.(registry := w.h.registry - {w.calls[c].id}), calls := w.calls - {c})
      else w
    case Others(m) => if !TableOk(m.table) || !Follows(w.h.manager, m) then w else w.(h := w.h.(manager := m))
  }

  ghost function Steps(w: World, sections: seq<Section>): World {
    if sections == [] then w else Step(Steps(w, sections[..|sections| - 1]), sections[|sections| - 1])
  }

  // ---- Calls without interruption -----------------------------------------------------------

  lemma SectionsOfCreate(w: World, c: Caller, id: Id, input: Input, t: TxnId, now: int, env: Env)
    requires c !in w.calls && id !in w.used && Unknown(w.h.manager, t)
    ensures Step(Step(w, WriteNew(c, id, input, t, now, env)), Finish(c)) ==
              w.(h := Created(w.h, id, input, t, now, env).0, used := w.used + {id})
  {
    hide Attempted, Unknown, Erased;
    var r := Created(w.h, id, input, t, now, env).1;
    assert r.Ok? ==> w.calls[c := ToEnter(r.value.status)] - {c} == w.calls;
  }

  lemma SectionsOfUpdate(w: World, c: Caller, id: Id, input: Input, t: TxnId, now: int, env: Env)
    requires c !in w.calls && Unknown(w.h.manager, t)
    ensures Step(Step(Step(w, SeeForUpdate(c, id)), WriteSeen(c, input, t, now, env)), Finish(c)) ==
              w.(h := Updated(w.h, id, input, t, now, env).0)
  {
    hide Unknown;
    if id in w.h.registry {
      var existing := w.h.registry[id];
      SeenAttempt(w.h, id, existing, input, t, env);
      hide Attempted;
      var seen := UpdateSeen(id, existing);
      var r := Updated(w.h, id, input, t, now, env).1;
      assert w.calls[c := seen] - {c} == w.calls;
      assert r.Ok? ==> w.calls[c := seen][c := ToEnter(r.value.status)] - {c} == w.calls;
    }
  }

  /** An attempt does not look at the registry. */
  lemma SeenAttempt(h: State, id: Id, existing: Status, input: Input, t: TxnId, env: Env)
    ensures Attempted(AsSeen(h, id, existing), id, input, t, existing.version, existing.flags, env) ==
              Attempted(h, id, input, t, existing.version, existing.flags, env)
  {
  }

  lemma SectionsOfDelete(w: World, c: Caller, id: Id, t: TxnId, env: Env)
    requires c !in w.calls && Unknown(w.h.manager, t)
    ensures Step(Step(Step(w, SeeForDelete(c, id)), EraseSeen(c, t, env)), Finish(c)) == w.(h := Deleted(w.h, id, t, env).0)
  {
    hide Unknown, Locked, Noted, AfterCommit, CommitResult, Erased, Listed;
    if id in w.h.registry {
      var seen := DeleteSeen(id, w.h.registry[id]);
      assert w.calls[c := seen] - {c} == w.calls;
      assert w.calls[c := seen][c := ToRemove(id)] - {c} == w.calls;
    }
  }

  // ---- Work that succeeds ----------------------------------------------------------------------

  const NOTHING_GIVEN := Input(None, None, None, None, None, None, None)

  /** The log and every store work. */
  function Working(): Env {
    Env(true, m => Done, m => true)
  }

  /** The manager once its other users have finished. */
  function Idle(m: Manager): Manager {
    Manager(map[], EMPTY_TABLE, m.versions)
  }

  /** Nobody holds a lock or waits, and `t` is new. */
  predicate Alone(m: Manager, t: TxnId) {
    m.table == EMPTY_TABLE && t !in m.txns
  }

  lemma AloneIsUnknown(m: Manager, t: TxnId)
    requires Alone(m, t)
    ensures TableOk(m.table) && Unknown(m, t)
  {
    forall a, p ensures !CycleAt(EMPTY_TABLE.waitFor, a, p) {
      assert CycleAt(EMPTY_TABLE.waitFor, a, p) ==> Edge(EMPTY_TABLE.waitFor, p[0], p[1]);
    }
  }

  lemma OthersFinish(w: World, t: TxnId)
    ensures Step(w, Others(Idle(w.h.manager))) == w.(h := w.h.(manager := Idle(w.h.manager))) && Alone(Idle(w.h.manager), t)
  {
    AloneIsUnknown(Idle(w.h.manager), t);
  }

  /** With nobody else about, an attempt succeeds. */
  lemma AttemptWorks(h: State, id: Id, input: Input, t: TxnId, version: nat, base: set<Mod>)
    requires Alone(h.manager, t)
    ensures Attempted(h, id, input, t, version, base, Working()).error.None?
  {
    hide Locked, Noted, AfterCommit, AfterRollback, CommitResult, Unknown, Strangers, OnlyGrows, Parts, ModsOf, Finished, RaisedOnce, Snapped, Populated;
    var env, ms := Working(), ModsOf(Parts(input)) + [Temporal];
    AloneIsUnknown(h.manager, t);
    AttemptFinishes(h, id, input, t, version, base, env);
    NeededAscends(input);
    AloneIsGranted(h.manager, t, id, ms);
    PopulatedGrows(h.stores, id, Parts(input), env);
  }

  lemma AloneIsGranted(m: Manager, t: TxnId, id: Id, ms: seq<Mod>)
    requires Alone(m, t) && Distinct(ms)
    ensures Locked(Began(m, t), t, id, ms).refused == None
  {
    assert Strangers(Began(m, t), t, id, ms);
    RefusedAtFirstHeld(Began(m, t), t, id, ms);
    hide Locked;
    var refused := Locked(Began(m, t), t, id, ms).refused;
    assert forall mod :: Free(Began(m, t), id, mod);
  }

  /** An update that gives nothing only adds to the history. */
  lemma EmptyUpdateWorks(h: State, id: Id, t: TxnId, now: int)
    requires id in h.registry && Alone(h.manager, t)
    ensures var (h', r) := Updated(h, id, NOTHING_GIVEN, t, now, Working());
      && r.Ok? && r.value.status.id == id && r.value.status.flags == h.registry[id].flags + {Temporal}
      && h'.stores == h.stores.(history := h'.stores.history)
  {
    hide Locked, Noted, AfterCommit, AfterRollback, CommitResult, Unknown;
    AttemptWorks(h, id, NOTHING_GIVEN, t, h.registry[id].version, h.registry[id].flags);
    NoParts();
    assert Populated(h.stores, id, Parts(NOTHING_GIVEN), Working()) == Progress(h.stores, 0);
    assert Range(ModsOf([])) == {};
  }

  lemma {:induction false} NoPartsUpTo(n: nat)
    requires n <= 7
    ensures PartsUpTo(NOTHING_GIVEN, n) == []
  {
    if n > 0 {
      NoPartsUpTo(n - 1);
    }
  }

  lemma NoParts()
    ensures Parts(NOTHING_GIVEN) == []
  {
    NoPartsUpTo(7);
  }

  // ---- Gone for good -------------------------------------------------------------------------------

  /** The call is an update of `id` under way, or only has to enter what a create or an update of it came to. */
  predicate Brings(call: Call, id: Id) {
    (call.UpdateSeen? && call.id == id) || (call.ToEnter? && call.status.id == id)
  }

  predicate EntryUnderway(w: World, id: Id) {
    exists c :: c in w.calls && Brings(w.calls[c], id)
  }

  lemma StatusOfUpdate(h: State, id: Id, input: Input, t: TxnId, now: int, env: Env)
    ensures var r := Updated(h, id, input, t, now, env).1; r.Ok? ==> r.value.status.id == id
  {
    hide Attempted;
  }

  lemma StatusOfCreate(h: State, id: Id, input: Input, t: TxnId, now: int, env: Env)
    ensures var r := Created(h, id, input, t, now, env).1; r.Ok? ==> r.value.status.id == id
  {
    hide Attempted, Erased;
  }

  /** Without a create or update under way, an entity that was generated and is not registered stays so. */
  lemma GoneStep(w: World, section: Section, id: Id)
    requires id in w.used && id !in w.h.registry && !EntryUnderway(w, id)
    ensures var w' := Step(w, section); id in w'.used && id !in w'.h.registry && !EntryUnderway(w', id)
  {
    hide Created, Updated, Deleted, Unknown, TableOk;
    match section {
      case WriteNew(c, i, input, t, now, env) => StatusOfCreate(w.h, i, input, t, now, env);
      case WriteSeen(c, input, t, now, env) =>
        if c in w.calls && w.calls[c].UpdateSeen? {
          StatusOfUpdate(AsSeen(w.h, w.calls[c].id, w.calls[c].existing), w.calls[c].id, input, t, now, env);
        }
      case _ =>
    }
  }

  lemma {:induction false} GoneForGood(w: World, more: seq<Section>, id: Id)
    requires id in w.used && id !in w.h.registry && !EntryUnderway(w, id)
    ensures var w' := Steps(w, more); id in w'.used && id !in w'.h.registry && !EntryUnderway(w', id)
  {
    hide Step, EntryUnderway;
    if more != [] {
      GoneForGood(w, more[..|more| - 1], id);
      GoneStep(Steps(w, more[..|more| - 1]), more[|more| - 1], id);
    }
  }

  lemma OneStep(w: World, a: Section)
    ensures Steps(w, [a]) == Step(w, a)
  {
    hide Step;
    assert [a][..0] == [];
  }

  lemma TwoSteps(w: World, a: Section, b: Section)
    ensures Steps(w, [a, b]) == Step(Step(w, a), b)
  {
    hide Step;
    OneStep(w, a);
    assert [a, b][..1] == [a];
  }

  lemma ThreeSteps(w: World, a: Section, b: Section, c: Section)
    ensures Steps(w, [a, b, c]) == Step(Step(Step(w, a), b), c)
  {
    hide Step;
    OneStep(w, a);
    assert [a, b, c][..2] == [a, b] && [a, b][..1] == [a];
  }

  /** An update under way can come to its end with what it saw. */
  function Ends(m: Manager, c: Caller): seq<Section> {
    [Others(Idle(m)), WriteSeen(c, NOTHING_GIVEN, 0, 0, Working()), Finish(c)]
  }

  lemma UpdateEnters(w: World, c: Caller)
    requires c in w.calls && w.calls[c].UpdateSeen?
    ensures var (id, existing, w') := (w.calls[c].id, w.calls[c].existing, Steps(w, Ends(w.h.manager, c)));
      && id in w'.h.registry && w'.h.registry[id].id == id && w'.h.registry[id].flags == existing.flags + {Temporal}
      && w'.h.stores == w.h.stores.(history := w'.h.stores.history) && w'.calls == w.calls - {c}
  {
    hide Updated, Unknown, TableOk, Follows, Alone;
    var (id, existing, m) := (w.calls[c].id, w.calls[c].existing, Idle(w.h.manager));
    ThreeSteps(w, Others(m), WriteSeen(c, NOTHING_GIVEN, 0, 0, Working()), Finish(c));
    OthersFinish(w, 0);
    AloneIsUnknown(m, 0);
    EmptyUpdateWorks(AsSeen(w.h.(manager := m), id, existing), id, 0, 0);
  }

  /**
   * An entity that was generated and is not registered, such as one just deleted,
   * is registered in some run from here if and only if a create or update of it is
   * under way.
   */
  lemma ReentersExactly(w: World, id: Id)
    requires id in w.used && id !in w.h.registry
    ensures (exists more :: id in Steps(w, more).h.registry) <==> EntryUnderway(w, id)
  {
    hide Steps, Step;
    if EntryUnderway(w, id) {
      var c :| c in w.calls && Brings(w.calls[c], id);
      if w.calls[c].UpdateSeen? {
        UpdateEnters(w, c);
      } else {
        OneStep(w, Finish(c));
        assert id in Steps(w, [Finish(c)]).h.registry by { FinishEnters(w, c); }
      }
    } else {
      forall more ensures id !in Steps(w, more).h.registry {
        GoneForGood(w, more, id);
      }
    }
  }

  lemma FinishEnters(w: World, c: Caller)
    requires c in w.calls && w.calls[c].ToEnter?
    ensures var (w', status) := (Step(w, Finish(c)), w.calls[c].status);
      status.id in w'.h.registry && w'.h.registry[status.id] == status && w'.h.stores == w.h.stores && w'.calls == w.calls - {c}
  {
  }

  // ---- Flags no delete touches ---------------------------------------------------------------------

  /** The flags of `status` in `ms` are backed by data. */
  ghost predicate BackedIn(s: Stores, status: Status, ms: set<Mod>) {
    forall m :: m in status.flags && m in ms ==> Has(s, m, status.id)
  }

  /** The modalities whose data no operation takes away; links aside, which may never have been there. */
  const LASTING: set<Mod> := {Semantic, Provenance, Spatial, Temporal}

  predicate Carries(call: Call, status: Status) {
    || (call.UpdateSeen? && call.existing == status)
    || (call.ToEnter? && call.status == status)
  }

  /** A status the registry shows or a call is to enter. */
  predicate Known(w: World, status: Status) {
    || (status.id in w.h.registry && w.h.registry[status.id] == status)
    || (exists c :: c in w.calls && Carries(w.calls[c], status))
  }

  /** Every status is under its own id, and the store knows only generated ones. */
  ghost predicate Filed(w: World) {
    && (forall id :: id in w.h.registry ==> w.h.registry[id].id == id)
    && (forall c :: c in w.calls && w.calls[c].UpdateSeen? ==> w.calls[c].existing.id == w.calls[c].id)
    && (forall c :: c in w.calls && w.calls[c].DeleteSeen? ==> w.calls[c].existing.id == w.calls[c].id)
    && (forall status :: Known(w, status) ==> status.id in w.used)
    && (forall k :: k in w.h.stores.data ==> k.1 in w.used)
  }

  lemma GrowsKeeps(s: Stores, s': Stores, id: Id)
    requires OnlyGrows(s, s', id)
    ensures forall m, i :: Has(s, m, i) ==> Has(s', m, i)
  {
    hide OnlyGrows, Has;
    forall m, i | Has(s, m, i) ensures Has(s', m, i) {
      GrowingKeepsHas(s, s', id, m, i);
    }
  }

  /** The status an update writes carries the flags it saw and flags it backed. */
  lemma UpdateBacks(h: State, id: Id, input: Input, t: TxnId, now: int, env: Env)
    requires id in h.registry
    ensures var (h', r) := Updated(h, id, input, t, now, env);
      && OnlyGrows(h.stores, h'.stores, id)
      && (r.Ok? ==> forall m :: m in r.value.status.flags && m != Graph && m !in h.registry[id].flags ==> Has(h'.stores, m, id))
  {
    hide Attempted, OnlyGrows, Has;
    var existing := h.registry[id];
    AttemptedOk(h, id, input, t, existing.version, existing.flags, env);
    GrowsByNothing(h.stores, id);
  }

  /** A failed create may erase what it wrote; a successful one only adds. */
  lemma CreateBacks(h: State, used: set<Id>, id: Id, input: Input, t: TxnId, now: int, env: Env)
    requires id !in used && forall k :: k in h.stores.data ==> k.1 in used
    ensures var (h', r) := Created(h, id, input, t, now, env);
      && (forall m, i :: i != id && Has(h.stores, m, i) ==> Has(h'.stores, m, i))
      && (r.Ok? ==> forall m :: m in r.value.status.flags && m != Graph ==> Has(h'.stores, m, id))
      && (forall k :: k in h'.stores.data ==> k.1 in used + {id})
  {
    hide Attempted, Has, Erased;
    AttemptedOk(h, id, input, t, 0, {}, env);
    var a := Attempted(h, id, input, t, 0, {}, env);
    GrowsKeeps(h.stores, a.stores, id);
    DataWithin(h.stores, a.stores, used, id);
    ErasedData(a.stores, id, a.written, env);
    forall m, i | i != id && Has(h.stores, m, i) ensures Has(Erased(a.stores, id, a.written, env), m, i) {
      ErasingKeepsOthers(a.stores, id, a.written, env, m, i);
    }
  }

  lemma DataWithin(s: Stores, s': Stores, used: set<Id>, id: Id)
    requires OnlyGrows(s, s', id) && forall k :: k in s.data ==> k.1 in used
    ensures forall k :: k in s'.data ==> k.1 in used + {id}
  {
    forall k | k in s'.data ensures k.1 in used + {id} {
      if k.1 != id {
        assert Lookup(s'.data, (k.0, k.1)) == Lookup(s.data, (k.0, k.1));
      }
    }
  }

  lemma ErasedData(s: Stores, id: Id, ms: set<Mod>, env: Env)
    ensures Erased(s, id, ms, env).data.Keys <= s.data.Keys
  {
  }

  /** A delete takes at most the erasable data of its entity, and nothing if it fails. */
  lemma DeleteKeepsRest(h: State, id: Id, t: TxnId, env: Env)
    requires Unknown(h.manager, t)
    ensures var (h', r) := Deleted(h, id, t, env);
      && (forall m, i :: (i != id || m !in ERASABLE) && Has(h.stores, m, i) ==> Has(h'.stores, m, i))
      && (r.Err? ==> h'.stores == h.stores)
      && h'.stores.data.Keys <= h.stores.data.Keys
  {
    hide Locked, Noted, AfterCommit, CommitResult, Listed, LeftClean, RaisedOnce, Unknown, Has, Erased;
    DeleteLeavesClean(h, id, t, env);
    ErasedData(h.stores, id, ERASABLE, env);
    forall m, i | (i != id || m !in ERASABLE) && Has(h.stores, m, i) ensures Has(Erased(h.stores, id, ERASABLE, env), m, i) {
      ErasingKeepsRest(h.stores, id, env, m, i);
    }
  }

  lemma ErasingKeepsRest(s: Stores, id: Id, env: Env, m: Mod, i: Id)
    requires Has(s, m, i) && (i != id || m !in ERASABLE)
    ensures Has(Erased(s, id, ERASABLE, env), m, i)
  {
  }

  /** The status an update or create came to in `section`. */
  ghost predicate Came(w: World, section: Section, status: Status) {
    match section
    case WriteNew(c, id, input, t, now, env) =>
      && c !in w.calls && id !in w.used && Unknown(w.h.manager, t)
      && Created(w.h, id, input, t, now, env).1.Ok? && Created(w.h, id, input, t, now, env).1.value.status == status
    case WriteSeen(c, input, t, now, env) =>
      && c in w.calls && w.calls[c].UpdateSeen? && Unknown(w.h.manager, t)
      && var r := Updated(AsSeen(w.h, w.calls[c].id, w.calls[c].existing), w.calls[c].id, input, t, now, env).1;
         r.Ok? && r.value.status == status
    case _ => false
  }

  /** A status known after a section was known before, or came about in it. */
  lemma KnownAfter(w: World, section: Section, status: Status)
    requires Filed(w) && Known(Step(w, section), status)
    ensures Known(w, status) || Came(w, section, status)
  {
    hide Created, Updated, Deleted, Unknown, TableOk;
    var w' := Step(w, section);
    if status.id in w'.h.registry && w'.h.registry[status.id] == status {
      if section.Finish? && section.c in w.calls && w.calls[section.c].ToEnter? {
        assert Carries(w.calls[section.c], w.calls[section.c].status);
      }
    } else {
      var c :| c in w'.calls && Carries(w'.calls[c], status);
      if c in w.calls && w.calls[c] == w'.calls[c] {
        assert Carries(w.calls[c], status);
      }
    }
  }

  /** What came about carries the flags its call saw, and backs the rest. */
  lemma CameBacks(w: World, section: Section, status: Status)
    requires Filed(w) && Came(w, section, status)
    ensures section.WriteNew? ==> status.id == section.id
    ensures section.WriteSeen? ==> status.id == w.calls[section.c].id && Known(w, w.calls[section.c].existing)
    ensures forall m :: m in status.flags && m != Graph && (section.WriteSeen? ==> m !in w.calls[section.c].existing.flags) ==>
              Has(Step(w, section).h.stores, m, status.id)
  {
    hide Created, Updated, Unknown, Has, OnlyGrows;
    match section {
      case WriteNew(c, id, input, t, now, env) =>
        CreateBacks(w.h, w.used, id, input, t, now, env);
        StatusOfCreate(w.h, id, input, t, now, env);
      case WriteSeen(c, input, t, now, env) =>
        var (id, existing) := (w.calls[c].id, w.calls[c].existing);
        UpdateBacks(AsSeen(w.h, id, existing), id, input, t, now, env);
        StatusOfUpdate(AsSeen(w.h, id, existing), id, input, t, now, env);
        assert Carries(w.calls[c], existing);
      case _ =>
    }
  }

  lemma CameFrom(w: World, section: Section, status: Status)
    requires Came(w, section, status)
    ensures section.WriteNew? || section.WriteSeen?
    ensures section.WriteSeen? ==> section.c in w.calls && w.calls[section.c].UpdateSeen?
  {
  }

  /** A section takes away no data of a generated entity but the erasable data of the one it deletes. */
  lemma StepKeepsData(w: World, section: Section, m: Mod, id: Id)
    requires Filed(w) && id in w.used && Has(w.h.stores, m, id)
    ensures Has(Step(w, section).h.stores, m, id) ||
      (m in ERASABLE && section.EraseSeen? && section.c in w.calls && w.calls[section.c].DeleteSeen? && w.calls[section.c].id == id
       && section.c in Step(w, section).calls && Step(w, section).calls[section.c] == ToRemove(id))
  {
    hide Created, Updated, Deleted, Unknown, Has, OnlyGrows, TableOk;
    match section {
      case WriteNew(c, i, input, t, now, env) =>
        if i !in w.used {
          CreateBacks(w.h, w.used, i, input, t, now, env);
        }
      case WriteSeen(c, input, t, now, env) =>
        if c in w.calls && w.calls[c].UpdateSeen? {
          var (i, existing) := (w.calls[c].id, w.calls[c].existing);
          UpdateBacks(AsSeen(w.h, i, existing), i, input, t, now, env);
          GrowsKeeps(w.h.stores, Updated(AsSeen(w.h, i, existing), i, input, t, now, env).0.stores, i);
        }
      case EraseSeen(c, t, env) =>
        if c in w.calls && w.calls[c].DeleteSeen? && Unknown(w.h.manager, t) {
          var i, seen := w.calls[c].id, AsSeen(w.h, w.calls[c].id, w.calls[c].existing);
          DeleteKeepsRest(seen, i, t, env);
          var h', r := Deleted(seen, i, t, env).0, Deleted(seen, i, t, env).1;
          assert Step(w, section).h.stores == h'.stores && seen.stores == w.h.stores;
          assert r.Err? || i != id || m !in ERASABLE ==> Has(h'.stores, m, id);
        }
      case _ =>
    }
  }

  lemma StepKeepsWithin(w: World, section: Section)
    requires Filed(w)
    ensures w.used <= Step(w, section).used && forall k :: k in Step(w, section).h.stores.data ==> k.1 in Step(w, section).used
  {
    hide Created, Updated, Deleted, Unknown, Has, OnlyGrows, TableOk;
    match section {
      case WriteNew(c, i, input, t, now, env) =>
        if i !in w.used {
          CreateBacks(w.h, w.used, i, input, t, now, env);
        }
      case WriteSeen(c, input, t, now, env) =>
        if c in w.calls && w.calls[c].UpdateSeen? {
          var (i, existing) := (w.calls[c].id, w.calls[c].existing);
          assert Known(w, existing) by { assert Carries(w.calls[c], existing); }
          UpdateBacks(AsSeen(w.h, i, existing), i, input, t, now, env);
          DataWithin(w.h.stores, Updated(AsSeen(w.h, i, existing), i, input, t, now, env).0.stores, w.used, i);
        }
      case EraseSeen(c, t, env) =>
        if c in w.calls && w.calls[c].DeleteSeen? && Unknown(w.h.manager, t) {
          DeleteKeepsRest(AsSeen(w.h, w.calls[c].id, w.calls[c].existing), w.calls[c].id, t, env);
        }
      case _ =>
    }
  }

  lemma StepKeepsFiled(w: World, section: Section)
    requires Filed(w)
    ensures Filed(Step(w, section))
  {
    hide Step, Known, Came, Has;
    var w' := Step(w, section);
    StepKeepsWithin(w, section);
    FiledUnderIds(w, section);
    forall status | Known(w', status) ensures status.id in w'.used {
      KnownAfter(w, section, status);
      if Known(w, status) {
        KnownIsUsed(w, status);
      } else {
        CameIsUsed(w, section, status);
      }
    }
  }

  lemma CameIsUsed(w: World, section: Section, status: Status)
    requires Filed(w) && Came(w, section, status)
    ensures status.id in Step(w, section).used
  {
    hide Created, Updated, Unknown, Has;
    CameFrom(w, section, status);
    CameBacks(w, section, status);
  }

  /** Every status stays under its own id. */
  lemma FiledUnderIds(w: World, section: Section)
    requires Filed(w)
    ensures var w' := Step(w, section);
      && (forall id :: id in w'.h.registry ==> w'.h.registry[id].id == id)
      && (forall c :: c in w'.calls && w'.calls[c].UpdateSeen? ==> w'.calls[c].existing.id == w'.calls[c].id)
      && (forall c :: c in w'.calls && w'.calls[c].DeleteSeen? ==> w'.calls[c].existing.id == w'.calls[c].id)
  {
    hide Created, Updated, Deleted, Unknown, TableOk, Known;
  }

  // ---- Every run ------------------------------------------------------------------------------------

  /** Flags that no delete touches are backed wherever they are shown or on their way. */
  ghost predicate LastingBacked(w: World) {
    forall status :: Known(w, status) ==> BackedIn(w.h.stores, status, LASTING)
  }

  lemma StepKeepsLasting(w: World, section: Section)
    requires Filed(w) && LastingBacked(w)
    ensures LastingBacked(Step(w, section))
  {
    hide Step, Has, Known, Carries, Came, Filed;
    var w' := Step(w, section);
    forall status, m | Known(w', status) && m in status.flags && m in LASTING ensures Has(w'.h.stores, m, status.id) {
      KnownAfter(w, section, status);
      if Known(w, status) {
        assert BackedIn(w.h.stores, status, LASTING);
        KnownIsUsed(w, status);
        StepKeepsData(w, section, m, status.id);
      } else {
        CameKeeps(w, section, status, m);
      }
    }
  }

  lemma KnownIsUsed(w: World, status: Status)
    requires Filed(w) && Known(w, status)
    ensures status.id in w.used
  {
  }

  lemma CameKeeps(w: World, section: Section, status: Status, m: Mod)
    requires Filed(w) && LastingBacked(w) && Came(w, section, status) && m in status.flags && m in LASTING
    ensures Has(Step(w, section).h.stores, m, status.id)
  {
    hide Step, Has, Came, Known;
    CameFrom(w, section, status);
    CameBacks(w, section, status);
    if section.WriteSeen? && m in w.calls[section.c].existing.flags {
      var existing := w.calls[section.c].existing;
      assert BackedIn(w.h.stores, existing, LASTING);
      KnownIsUsed(w, existing);
      StepKeepsData(w, section, m, existing.id);
    }
  }

  lemma {:induction false} StepsKeep(sections: seq<Section>)
    ensures Filed(Steps(FRESH, sections)) && LastingBacked(Steps(FRESH, sections))
  {
    hide Step, Filed, LastingBacked;
    if sections == [] {
      assert Filed(FRESH) && LastingBacked(FRESH) by { FreshIsFiled(); }
    } else {
      var before := Steps(FRESH, sections[..|sections| - 1]);
      StepsKeep(sections[..|sections| - 1]);
      StepKeepsFiled(before, sections[|sections| - 1]);
      StepKeepsLasting(before, sections[|sections| - 1]);
    }
  }

  lemma FreshIsFiled()
    ensures Filed(FRESH) && LastingBacked(FRESH)
  {
  }

  /** In every interleaving a registered flag of semantic, provenance, spatial, or history data is backed. */
  lemma LastingFlagsAreBacked(sections: seq<Section>, id: Id, m: Mod)
    requires var h := Steps(FRESH, sections).h; id in h.registry && m in h.registry[id].flags && m in LASTING
    ensures Has(Steps(FRESH, sections).h.stores, m, id)
  {
    var w := Steps(FRESH, sections);
    StepsKeep(sections);
    assert Known(w, w.h.registry[id]) && w.h.registry[id].id == id;
    assert BackedIn(w.h.stores, w.h.registry[id], LASTING);
  }

  // ---- Torn updates -----------------------------------------------------------------------------------

  /** An update of `id` under way carries a flag whose data a delete has taken. */
  ghost predicate Torn(w: World, id: Id) {
    exists c, status, m :: c in w.calls && Carries(w.calls[c], status) && status.id == id && m in status.flags && m in ERASABLE
                           && !Has(w.h.stores, m, id)
  }

  predicate BeingRemoved(w: World, id: Id) {
    exists c :: c in w.calls && w.calls[c] == ToRemove(id)
  }

  /** `id` is registered with a flag that nothing backs, and no delete is about to remove it. */
  ghost predicate Stray(w: World, id: Id) {
    id in w.h.registry && !BeingRemoved(w, id) && !BackedIn(w.h.stores, w.h.registry[id], ERASABLE)
  }

  /** What is registered and not being removed is backed. */
  ghost predicate Sound(w: World, id: Id) {
    Filed(w) && !Stray(w, id)
  }

  /** From a world where no update is torn, one section leads to no stray. */
  lemma StepKeepsSound(w: World, section: Section, id: Id)
    requires Sound(w, id) && !Torn(w, id)
    ensures Sound(Step(w, section), id)
  {
    var w' := Step(w, section);
    StepKeepsFiled(w, section);
    if id in w'.h.registry && !BeingRemoved(w', id) {
      forall m | m in w'.h.registry[id].flags && m in ERASABLE ensures Has(w'.h.stores, m, id) {
        StepBacks(w, section, id, m);
      }
    }
  }

  /** A delete that has erased goes on to remove. */
  lemma RemovalGoesOn(w: World, section: Section, id: Id)
    requires BeingRemoved(w, id)
    ensures BeingRemoved(Step(w, section), id) || id !in Step(w, section).h.registry
  {
    hide Created, Updated, Deleted, Unknown, TableOk;
    var c :| c in w.calls && w.calls[c] == ToRemove(id);
    var w' := Step(w, section);
    if section != Finish(c) {
      assert c in w'.calls && w'.calls[c] == ToRemove(id);
    }
  }

  lemma StepBacks(w: World, section: Section, id: Id, m: Mod)
    requires Sound(w, id) && !Torn(w, id) && Filed(Step(w, section)) && m in ERASABLE
    requires var w' := Step(w, section); id in w'.h.registry && !BeingRemoved(w', id) && m in w'.h.registry[id].flags
    ensures Has(Step(w, section).h.stores, m, id)
  {
    hide Created, Updated, Deleted, Unknown, TableOk, Has;
    var w' := Step(w, section);
    if section.Finish? && section.c in w.calls && w.calls[section.c].ToEnter? && w.calls[section.c].status.id == id {
      assert Carries(w.calls[section.c], w.calls[section.c].status);
    } else {
      assert id in w.h.registry && w.h.registry[id] == w'.h.registry[id];
      if BeingRemoved(w, id) {
        RemovalGoesOn(w, section, id);
      }
      assert Has(w.h.stores, m, id);
      assert Known(w, w.h.registry[id]);
      StepKeepsData(w, section, m, id);
    }
  }

  /** No update of `id` was torn before the end of the run. */
  ghost predicate UntornUntilNow(sections: seq<Section>, id: Id) {
    forall n :: 0 <= n < |sections| ==> !Torn(Steps(FRESH, sections[..n]), id)
  }

  lemma FreshIsSound(id: Id)
    ensures Sound(FRESH, id)
  {
  }

  lemma {:induction false} UntornIsSound(sections: seq<Section>, id: Id)
    requires UntornUntilNow(sections, id)
    ensures Sound(Steps(FRESH, sections), id)
  {
    hide Step, Sound, Torn;
    if sections == [] {
      FreshIsSound(id);
    } else {
      var init := sections[..|sections| - 1];
      forall n | 0 <= n < |init| ensures !Torn(Steps(FRESH, init[..n]), id) {
        assert init[..n] == sections[..n];
      }
      UntornIsSound(init, id);
      StepKeepsSound(Steps(FRESH, init), sections[|sections| - 1], id);
    }
  }

  /**
   * In every interleaving in which no update of an entity is torn, each of its
   * flags but the graph flag is backed by data, unless a delete that has erased
   * is about to remove it.
   */
  lemma UntornFlagsAreBacked(sections: seq<Section>, id: Id, m: Mod)
    requires UntornUntilNow(sections, id)
    requires var w := Steps(FRESH, sections);
      id in w.h.registry && m in w.h.registry[id].flags && m != Graph && !BeingRemoved(w, id)
    ensures Has(Steps(FRESH, sections).h.stores, m, id)
  {
    var w := Steps(FRESH, sections);
    UntornIsSound(sections, id);
    if m in ERASABLE {
      assert w.h.registry[id].id == id;
    } else {
      LastingFlagsAreBacked(sections, id, m);
    }
  }

  // ---- What calls under way can lead to -------------------------------------------------------------

  /** Sections that start no call: they bring those under way to their end. */
  predicate Ending(section: Section) {
    section.WriteSeen? || section.EraseSeen? || section.Finish? || section.Others?
  }

  predicate AllEnding(more: seq<Section>) {
    forall i :: 0 <= i < |more| ==> Ending(more[i])
  }

  /** The call can come to enter `id` with a flag whose data a delete can take. */
  predicate MayCarry(call: Call, id: Id) {
    || (call.UpdateSeen? && call.id == id)
    || (call.ToEnter? && call.status.id == id && call.status.flags * ERASABLE != {})
  }

  predicate Entering(w: World, id: Id) {
    exists c :: c in w.calls && MayCarry(w.calls[c], id)
  }

  predicate ToErase(w: World, id: Id) {
    exists c :: c in w.calls && w.calls[c].DeleteSeen? && w.calls[c].id == id
  }

  /** A delete of `id` has yet to erase while another call is to enter it. */
  predicate Clash(w: World, id: Id) {
    Entering(w, id) && ToErase(w, id)
  }

  lemma EndingKeepsUntorn(w: World, section: Section, id: Id)
    requires Sound(w, id) && !Torn(w, id) && !Clash(w, id) && Ending(section)
    ensures !Torn(Step(w, section), id)
  {
    hide Created, Updated, Deleted, Unknown, TableOk, Follows, Has, Clash;
    var w' := Step(w, section);
    forall c, status, m | c in w'.calls && Carries(w'.calls[c], status) && status.id == id && m in status.flags && m in ERASABLE
      ensures Has(w'.h.stores, m, id)
    {
      if c in w.calls && w.calls[c] == w'.calls[c] {
        StillHas(w, section, c, status, m);
      } else {
        assert Came(w, section, status);
        CameBacks(w, section, status);
        if m in w.calls[c].existing.flags {
          StillHas(w, section, c, w.calls[c].existing, m);
        }
      }
    }
  }

  /** What an entering call carries nothing erases without a clash. */
  lemma StillHas(w: World, section: Section, c: Caller, status: Status, m: Mod)
    requires Filed(w) && !Torn(w, status.id) && !Clash(w, status.id) && Ending(section)
    requires c in w.calls && Carries(w.calls[c], status) && m in status.flags && m in ERASABLE
    ensures Has(Step(w, section).h.stores, m, status.id)
  {
    hide Step, Has;
    assert Known(w, status);
    KnownIsUsed(w, status);
    StepKeepsData(w, section, m, status.id);
    assert MayCarry(w.calls[c], status.id) by {
      assert m in status.flags * ERASABLE;
    }
    assert !ToErase(w, status.id);
  }

  lemma EndingKeepsApart(w: World, section: Section, id: Id)
    requires Filed(w) && !Clash(w, id) && Ending(section)
    ensures !Clash(Step(w, section), id)
  {
    hide Created, Updated, Deleted, Unknown, TableOk, Follows;
    var w' := Step(w, section);
    if c :| c in w'.calls && w'.calls[c].DeleteSeen? && w'.calls[c].id == id {
      assert c in w.calls && w.calls[c] == w'.calls[c];
      assert ToErase(w, id);
    }
    if c :| c in w'.calls && MayCarry(w'.calls[c], id) {
      if c !in w.calls || w.calls[c] != w'.calls[c] {
        StatusOfUpdate(AsSeen(w.h, w.calls[c].id, w.calls[c].existing), w.calls[c].id, section.input, section.t, section.now, section.env);
      }
      assert MayCarry(w.calls[c], id) && Entering(w, id);
    }
  }

  lemma {:induction false} ApartStaysSound(w: World, more: seq<Section>, id: Id)
    requires Sound(w, id) && !Torn(w, id) && !Clash(w, id) && AllEnding(more)
    ensures Sound(Steps(w, more), id) && !Torn(Steps(w, more), id) && !Clash(Steps(w, more), id)
  {
    hide Step, Torn, Clash, Ending, Stray, Filed;
    if more != [] {
      var n := |more| - 1;
      ApartStaysSound(w, more[..n], id);
      StepKeepsSound(Steps(w, more[..n]), more[n], id);
      EndingKeepsUntorn(Steps(w, more[..n]), more[n], id);
      EndingKeepsApart(Steps(w, more[..n]), more[n], id);
    }
  }

  lemma {:induction false} StepsInTurn(w: World, a: seq<Section>, b: seq<Section>)
    ensures Steps(w, a + b) == Steps(Steps(w, a), b)
    decreases |b|
  {
    hide Step;
    if b == [] {
      assert a + b == a;
    } else {
      var n := |b| - 1;
      assert (a + b)[..|a + b| - 1] == a + b[..n];
      StepsInTurn(w, a, b[..n]);
    }
  }

  /** The callers about to remove `id`. */
  function Removers(w: World, id: Id): set<Caller> {
    set c | c in w.calls && w.calls[c] == ToRemove(id)
  }

  /** Only removals of `id` were finished. */
  ghost predicate RemovalsDone(w: World, w': World, id: Id) {
    && !BeingRemoved(w', id) && w'.h.stores == w.h.stores
    && (forall c :: c in w'.calls ==> c in w.calls && w'.calls[c] == w.calls[c])
    && (forall c :: c in w.calls && w.calls[c] != ToRemove(id) ==> c in w'.calls)
  }

  lemma {:induction false} FinishRemovals(w: World, id: Id) returns (more: seq<Section>)
    ensures AllEnding(more) && RemovalsDone(w, Steps(w, more), id)
    decreases Removers(w, id)
  {
    hide Steps, Step;
    if BeingRemoved(w, id) {
      var c :| c in w.calls && w.calls[c] == ToRemove(id);
      var w1 := Step(w, Finish(c));
      assert w1.calls == w.calls - {c} && w1.h.stores == w.h.stores by { FinishRemoves(w, c); }
      assert c in Removers(w, id) && c !in Removers(w1, id);
      assert Removers(w1, id) < Removers(w, id);
      var rest := FinishRemovals(w1, id);
      more := [Finish(c)] + rest;
      OneStep(w, Finish(c));
      StepsInTurn(w, [Finish(c)], rest);
    } else {
      more := [];
      NoSteps(w);
    }
  }

  lemma NoSteps(w: World)
    ensures Steps(w, []) == w
  {
  }

  lemma FinishRemoves(w: World, c: Caller)
    requires c in w.calls && w.calls[c].ToRemove?
    ensures Step(w, Finish(c)).calls == w.calls - {c} && Step(w, Finish(c)).h.stores == w.h.stores
  {
  }

  /** A torn update can come to its end with the removals out of the way. */
  lemma TornStrays(w: World, id: Id) returns (more: seq<Section>)
    requires Filed(w) && Torn(w, id)
    ensures AllEnding(more) && Stray(Steps(w, more), id)
  {
    hide Steps, Step;
    var c, status, m :| c in w.calls && Carries(w.calls[c], status) && status.id == id && m in status.flags && m in ERASABLE
                        && !Has(w.h.stores, m, id);
    var removals := FinishRemovals(w, id);
    var w1 := Steps(w, removals);
    assert c in w1.calls && w1.calls[c] == w.calls[c];
    var last: seq<Section>;
    if w.calls[c].UpdateSeen? {
      last := Ends(w1.h.manager, c);
      UpdateEnters(w1, c);
    } else {
      last := [Finish(c)];
      OneStep(w1, Finish(c));
      FinishEnters(w1, c);
    }
    more := removals + last;
    StepsInTurn(w, removals, last);
    var w2 := Steps(w, more);
    assert w2.calls == w1.calls - {c};
    assert !Has(w2.h.stores, m, id) && m in w2.h.registry[id].flags && w2.h.registry[id].id == id;
  }

  function VectorOnly(data: Data): Input {
    NOTHING_GIVEN.(vector := Some(data))
  }

  lemma VectorUpdateWorks(h: State, id: Id, t: TxnId, now: int, data: Data)
    requires id in h.registry && Alone(h.manager, t)
    ensures var r := Updated(h, id, VectorOnly(data), t, now, Working()).1;
      r.Ok? && r.value.status.id == id && Vector in r.value.status.flags
  {
    hide Attempted, Parts, Populated;
    var existing := h.registry[id];
    AttemptWorks(h, id, VectorOnly(data), t, existing.version, existing.flags);
    AttemptSucceeded(h, id, VectorOnly(data), t, existing.version, existing.flags, Working());
  }

  lemma DeleteWorks(h: State, id: Id, t: TxnId)
    requires id in h.registry && Alone(h.manager, t)
    ensures var (h', r) := Deleted(h, id, t, Working());
      && r.Ok? && LeftClean(h.manager, h'.manager, t, true) && forall m :: m in ERASABLE ==> (m, id) !in h'.stores.data
  {
    hide Noted, Locked, AfterCommit, CommitResult, Unknown, Strangers, Finished, RaisedOnce, Listed;
    AloneIsUnknown(h.manager, t);
    DeleteLeavesClean(h, id, t, Working());
    ListedDiffer(h.registry[id].flags);
    AloneIsGranted(h.manager, t, id, Listed(h.registry[id].flags));
    DeleteForgets(h, id, t, Working());
    forall m | m in ERASABLE ensures (m, id) !in Deleted(h, id, t, Working()).0.stores.data {
      assert Lookup(Deleted(h, id, t, Working()).0.stores.data, (m, id)) == None;
    }
  }

  /** The delete erases what the other call is to enter. */
  lemma EraseTears(w: World, c: Caller, d: Caller, status: Status, m: Mod)
    requires c in w.calls && w.calls[c] == ToEnter(status) && m in status.flags && m in ERASABLE
    requires d in w.calls && w.calls[d].DeleteSeen? && w.calls[d].id == status.id
    ensures Torn(Steps(w, [Others(Idle(w.h.manager)), EraseSeen(d, 0, Working())]), status.id)
  {
    hide Deleted, Unknown, TableOk, Follows, Alone;
    var (mgr, id) := (Idle(w.h.manager), status.id);
    TwoSteps(w, Others(mgr), EraseSeen(d, 0, Working()));
    OthersFinish(w, 0);
    AloneIsUnknown(mgr, 0);
    DeleteWorks(AsSeen(w.h.(manager := mgr), id, w.calls[d].existing), id, 0);
    var w' := Steps(w, [Others(mgr), EraseSeen(d, 0, Working())]);
    assert c in w'.calls && Carries(w'.calls[c], status) && !Has(w'.h.stores, m, id);
  }

  /** An update under way can write a vector, and then has it to enter. */
  lemma WriteCarries(w: World, c: Caller)
    requires c in w.calls && w.calls[c].UpdateSeen?
    ensures var w' := Steps(w, [Others(Idle(w.h.manager)), WriteSeen(c, VectorOnly(""), 0, 0, Working())]);
      && c in w'.calls && w'.calls[c].ToEnter? && w'.calls[c].status.id == w.calls[c].id && Vector in w'.calls[c].status.flags
      && w'.calls == w.calls[c := w'.calls[c]]
  {
    hide Updated, Unknown, TableOk, Follows, Alone;
    var mgr := Idle(w.h.manager);
    TwoSteps(w, Others(mgr), WriteSeen(c, VectorOnly(""), 0, 0, Working()));
    OthersFinish(w, 0);
    AloneIsUnknown(mgr, 0);
    VectorUpdateWorks(AsSeen(w.h.(manager := mgr), w.calls[c].id, w.calls[c].existing), w.calls[c].id, 0, 0, "");
  }

  /** A clash can tear an update. */
  lemma ClashTears(w: World, id: Id) returns (more: seq<Section>)
    requires Clash(w, id)
    ensures AllEnding(more) && Torn(Steps(w, more), id)
  {
    hide Steps, Step, Torn, Idle;
    var c :| c in w.calls && MayCarry(w.calls[c], id);
    var d :| d in w.calls && w.calls[d].DeleteSeen? && w.calls[d].id == id;
    if w.calls[c].UpdateSeen? {
      var write := [Others(Idle(w.h.manager)), WriteSeen(c, VectorOnly(""), 0, 0, Working())];
      WriteCarries(w, c);
      var w1 := Steps(w, write);
      assert w1.calls[d] == w.calls[d];
      var erase := [Others(Idle(w1.h.manager)), EraseSeen(d, 0, Working())];
      EraseTears(w1, c, d, w1.calls[c].status, Vector);
      StepsInTurn(w, write, erase);
      more := write + erase;
    } else {
      var m :| m in w.calls[c].status.flags * ERASABLE;
      more := [Others(Idle(w.h.manager)), EraseSeen(d, 0, Working())];
      EraseTears(w, c, d, w.calls[c].status, m);
    }
  }

  /**
   * Exactly when bringing the calls under way to their end, starting no new one,
   * can leave an entity registered with a flag that nothing backs and no delete
   * about to remove it: in every run, if and only if it is so registered now, or
   * an update of it is torn, or a delete of it has yet to erase while another
   * call is to enter it.
   */
  lemma StraysExactly(sections: seq<Section>, id: Id)
    ensures var w := Steps(FRESH, sections);
      (exists more :: AllEnding(more) && Stray(Steps(w, more), id)) <==> Stray(w, id) || Torn(w, id) || Clash(w, id)
  {
    hide Step, Torn, Stray, Clash, Filed;
    var w := Steps(FRESH, sections);
    assert Filed(w) by { StepsKeep(sections); }
    if Stray(w, id) {
      NoSteps(w);
      assert AllEnding([]);
    } else if Torn(w, id) {
      var more := TornStrays(w, id);
    } else if Clash(w, id) {
      ClashStrays(sections, id);
    } else {
      forall more | AllEnding(more) ensures !Stray(Steps(w, more), id) {
        ApartStaysSound(w, more, id);
      }
    }
  }

  lemma ClashStrays(sections: seq<Section>, id: Id)
    requires Clash(Steps(FRESH, sections), id)
    ensures exists more :: AllEnding(more) && Stray(Steps(Steps(FRESH, sections), more), id)
  {
    hide Step, Steps, Torn, Stray, Clash, Filed;
    var w := Steps(FRESH, sections);
    var first := ClashTears(w, id);
    StepsInTurn(FRESH, sections, first);
    StepsKeep(sections + first);
    var rest := TornStrays(Steps(w, first), id);
    StepsInTurn(w, first, rest);
    assert AllEnding(first + rest);
  }

  // ---- A delete inside an update ----------------------------------------------------------------------

  /** An entity is created with a vector, looked up for an update, and deleted before the update writes. */
  function DeletedInside(id: Id, data: Data): seq<Section> {
    [WriteNew(0, id, VectorOnly(data), 0, 0, Working()), Finish(0)] + [SeeForUpdate(0, id), SeeForDelete(1, id)]
    + [EraseSeen(1, 1, Working()), Finish(1)]
  }

  function UpdateGoesOn(): seq<Section> {
    [WriteSeen(0, NOTHING_GIVEN, 2, 0, Working()), Finish(0)]
  }

  lemma VectorCreated(id: Id, data: Data)
    ensures var w := Steps(FRESH, [WriteNew(0, id, VectorOnly(data), 0, 0, Working()), Finish(0)]);
      && id in w.h.registry && Vector in w.h.registry[id].flags && w.h.registry[id].id == id && w.used == {id} && w.calls == map[]
      && w.h.manager.table == EMPTY_TABLE && w.h.manager.txns.Keys == {0}
  {
    hide Attempted, Unknown, Parts, Populated, RaisedOnce;
    TwoSteps(FRESH, WriteNew(0, id, VectorOnly(data), 0, 0, Working()), Finish(0));
    AloneIsUnknown(FRESH.h.manager, 0);
    AttemptWorks(FRESH.h, id, VectorOnly(data), 0, 0, {});
    AttemptSucceeded(FRESH.h, id, VectorOnly(data), 0, 0, {}, Working());
    CreateLeavesClean(FRESH.h, id, VectorOnly(data), 0, 0, Working());
    assert FRESH.calls[0 := ToEnter(Created(FRESH.h, id, VectorOnly(data), 0, 0, Working()).1.value.status)] - {0} == map[];
  }

  lemma DeletedInsideUpdate(id: Id, data: Data)
    ensures var w := Steps(FRESH, DeletedInside(id, data));
      && id in w.used && id !in w.h.registry && (Vector, id) !in w.h.stores.data
      && 0 in w.calls && w.calls[0].UpdateSeen? && w.calls[0].id == id && Vector in w.calls[0].existing.flags
      && Alone(w.h.manager, 2)
  {
    hide Step, Steps;
    var created := [WriteNew(0, id, VectorOnly(data), 0, 0, Working()), Finish(0)];
    var seen := [SeeForUpdate(0, id), SeeForDelete(1, id)];
    var deleted := [EraseSeen(1, 1, Working()), Finish(1)];
    VectorCreated(id, data);
    StepsInTurn(FRESH, created, seen);
    StepsInTurn(FRESH, created + seen, deleted);
    var w1 := Steps(FRESH, created);
    TwoSteps(w1, SeeForUpdate(0, id), SeeForDelete(1, id));
    SeenByBoth(w1, id);
    DeletedBetween(Steps(FRESH, created + seen), id);
  }

  lemma SeenByBoth(w: World, id: Id)
    requires id in w.h.registry && w.calls == map[]
    ensures Step(Step(w, SeeForUpdate(0, id)), SeeForDelete(1, id)) ==
              w.(calls := map[0 := UpdateSeen(id, w.h.registry[id]), 1 := DeleteSeen(id, w.h.registry[id])])
  {
  }

  lemma DeletedBetween(w: World, id: Id)
    requires id in w.h.registry && id in w.used && w.h.manager.table == EMPTY_TABLE && w.h.manager.txns.Keys == {0}
    requires w.calls == map[0 := UpdateSeen(id, w.h.registry[id]), 1 := DeleteSeen(id, w.h.registry[id])]
    ensures var w' := Steps(w, [EraseSeen(1, 1, Working()), Finish(1)]);
      && id in w'.used && id !in w'.h.registry && (Vector, id) !in w'.h.stores.data
      && 0 in w'.calls && w'.calls[0] == UpdateSeen(id, w.h.registry[id]) && Alone(w'.h.manager, 2)
  {
    hide Deleted, Unknown, TableOk;
    TwoSteps(w, EraseSeen(1, 1, Working()), Finish(1));
    AloneIsUnknown(w.h.manager, 1);
    DeleteWorks(AsSeen(w.h, id, w.h.registry[id]), id, 1);
  }

  lemma UpdateEntersAlone(w: World, c: Caller, t: TxnId)
    requires c in w.calls && w.calls[c].UpdateSeen? && Alone(w.h.manager, t)
    ensures var (id, existing) := (w.calls[c].id, w.calls[c].existing);
      var w' := Steps(w, [WriteSeen(c, NOTHING_GIVEN, t, 0, Working()), Finish(c)]);
      && id in w'.h.registry && w'.h.registry[id].flags == existing.flags + {Temporal}
      && w'.h.stores == w.h.stores.(history := w'.h.stores.history)
  {
    hide Updated, Unknown, TableOk, Alone;
    TwoSteps(w, WriteSeen(c, NOTHING_GIVEN, t, 0, Working()), Finish(c));
    AloneIsUnknown(w.h.manager, t);
    EmptyUpdateWorks(AsSeen(w.h, w.calls[c].id, w.calls[c].existing), w.calls[c].id, t, 0);
  }

  /** The delete succeeds; then the update registers the entity again, flagged for a vector that is gone. */
  lemma DeletedComesBack(id: Id, data: Data)
    ensures var w := Steps(FRESH, DeletedInside(id, data));
      var w' := Steps(w, UpdateGoesOn());
      && id !in w.h.registry && Torn(w, id)
      && id in w'.h.registry && Vector in w'.h.registry[id].flags && !Has(w'.h.stores, Vector, id)
      && Read(w'.h, id).Some? && Read(w'.h, id).value.vector == None
  {
    hide Steps, Loaded, Blobbed;
    var w := Steps(FRESH, DeletedInside(id, data));
    DeletedInsideUpdate(id, data);
    StepsKeep(DeletedInside(id, data));
    assert Carries(w.calls[0], w.calls[0].existing);
    UpdateEntersAlone(w, 0, 2);
    var w' := Steps(w, UpdateGoesOn());
    ReadMeans(w'.h, id);
    assert (Vector, id) !in w'.h.stores.data;
    NoVector(w'.h.stores, id, w'.h.registry[id].flags);
  }

  lemma NoVector(s: Stores, id: Id, flags: set<Mod>)
    requires (Vector, id) !in s.data
    ensures Blobbed(s, id, Vector, flags) == None
  {
  }
}
