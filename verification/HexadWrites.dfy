/** What a create or an update answers and leaves in the stores, told from its input and its environment alone. */
module HexadWrites {
  import opened Wrappers
  import opened WaitForGraph
  import opened Transactions
  import opened Hexads
  import opened HexadTransactions
  import opened HexadRuns

  // ---- What is promised -----------------------------------------------------------------------

  /** The first modality given, by place, whose write fails; without one, the history. */
  ghost predicate FirstFailure(input: Input, env: Env, m: Mod) {
    && (m == Temporal || (Share(input, m).Some? && env.writes(m).Failed?))
    && forall b :: Share(input, b).Some? && Place(b) < Place(m) ==> env.writes(b).Done?
  }

  /** The share of `m` takes effect: the writes get past it, or fail there after it landed. */
  predicate Lands(input: Input, env: Env, f: Mod, m: Mod) {
    Share(input, m).Some? && (Place(m) < Place(f) || (m == f && env.writes(m).Failed? && env.writes(m).landed > 0))
  }

  /** The history takes the snapshot: the writes get that far, and its own does not fail at once. */
  predicate Snaps(env: Env, f: Mod) {
    f == Temporal && (env.writes(Temporal).Done? || env.writes(Temporal).landed > 0)
  }

  /** A single entry of the store of `m` with the share in it, where it lands. */
  function EntryAfter(s: Stores, id: Id, input: Input, env: Env, f: Mod, m: Mod, i: Id): Option<Data> {
    if i == id && Lands(input, env, f, m) && Share(input, m).value.Blob? then Some(Share(input, m).value.data) else Lookup(s.data, (m, i))
  }

  /** The lists and the links with what landed added. */
  ghost predicate ListsAfter(s: Stores, s': Stores, id: Id, input: Input, env: Env, f: Mod, base: set<Mod>) {
    && s'.links == s.links + (if input.graph.None? then {} else set r | r in input.graph.value[..LandedRelations(input, env)] :: (id, r))
    && (forall i :: Entries(s'.chains, i) ==
          Entries(s.chains, i) + if i == id && Lands(input, env, f, Provenance) then [input.provenance.value] else [])
    && (forall i :: Entries(s'.history, i) ==
          Entries(s.history, i) + if i == id && Snaps(env, f) then [Snapshot(input, base + Given(input))] else [])
  }

  ghost predicate StoresAfter(s: Stores, s': Stores, id: Id, input: Input, env: Env, f: Mod, base: set<Mod>) {
    && (forall m, i :: Lookup(s'.data, (m, i)) == EntryAfter(s, id, input, env, f, m, i))
    && ListsAfter(s, s', id, input, env, f, base)
  }

  // ---- The writes -----------------------------------------------------------------------------

  lemma {:induction false} FailingFromIsFirst(input: Input, env: Env, n: nat)
    requires n <= 7
    requires forall b :: Share(input, b).Some? && Place(b) < n ==> env.writes(b).Done?
    ensures FirstFailure(input, env, FailingFrom(input, env, n))
    decreases 7 - n
  {
    hide Share;
    if n < 7 {
      assert Place(ORDER[n]) == n;
      forall b | Share(input, b).Some? && Place(b) < n + 1 && !(Share(input, ORDER[n]).Some? && env.writes(ORDER[n]).Failed?)
        ensures env.writes(b).Done?
      {
        if Place(b) == n {
          SamePlace(b, ORDER[n]);
        }
      }
      if !(Share(input, ORDER[n]).Some? && env.writes(ORDER[n]).Failed?) {
        FailingFromIsFirst(input, env, n + 1);
      }
    }
  }

  /** There is one first failure, and it is the one a failed operation reports. */
  lemma FirstFailureExactly(input: Input, env: Env, f: Mod)
    ensures FirstFailure(input, env, f) <==> f == Failing(input, env)
  {
    hide Share;
    FailingFromIsFirst(input, env, 0);
    if FirstFailure(input, env, f) {
      FailingIs(input, env, f, 0);
    }
  }

  /** The store of the part's modality holds for `id` what it held. */
  predicate Untouched(s: Stores, s': Stores, id: Id, m: Mod) {
    Lookup(s'.data, (m, id)) == Lookup(s.data, (m, id)) && (m == Provenance ==> s'.chains == s.chains)
  }

  /** Behind the failing part nothing is written, and that part only as far as it landed. */
  lemma {:induction false} PopulatedBehind(s: Stores, id: Id, parts: seq<Part>, env: Env, k: nat)
    requires Distinct(ModsOf(parts)) && Populated(s, id, parts, env).count <= k < |parts| && Proper(parts[k]) && !parts[k].Links?
    ensures var p := Populated(s, id, parts, env);
      var o := env.writes(ModOf(parts[k]));
      if k == p.count && o.Failed? && o.landed > 0 then Stored(s, p.stores, id, parts[k])
      else Untouched(s, p.stores, id, ModOf(parts[k]))
    decreases |parts|
  {
    hide Write, Stored, Proper;
    var o := env.writes(ModOf(parts[0]));
    var s1 := Write(s, id, parts[0], o);
    assert forall j :: 0 <= j < |parts| - 1 ==> ModsOf(parts[1..])[j] == ModsOf(parts)[j + 1];
    if k == 0 {
      WriteFailing(s, id, parts[0], o);
    } else {
      assert ModsOf(parts)[k] != ModsOf(parts)[0];
      WriteElsewhere(s, id, parts[0], o, ModOf(parts[k]));
      if o.Done? {
        PopulatedBehind(s1, id, parts[1..], env, k - 1);
        if Stored(s1, Populated(s1, id, parts[1..], env).stores, id, parts[k]) {
          StoredAfterOther(s, s1, Populated(s1, id, parts[1..], env).stores, id, parts[0], parts[k], o);
        }
      }
    }
  }

  lemma WriteFailing(s: Stores, id: Id, p: Part, o: Outcome)
    requires o.Failed? && Proper(p) && !p.Links?
    ensures if o.landed > 0 then Stored(s, Write(s, id, p, o), id, p) else Untouched(s, Write(s, id, p, o), id, ModOf(p))
  {
  }

  /** What the writes leave for one modality other than the graph. */
  lemma PopulatedExactly(s: Stores, id: Id, input: Input, env: Env, m: Mod)
    requires m != Temporal && m != Graph
    ensures var s' := Populated(s, id, Parts(input), env).stores;
      if Lands(input, env, Failing(input, env), m) then Stored(s, s', id, Share(input, m).value)
      else Untouched(s, s', id, m)
  {
    hide Stored, Share, Populated, Proper, Distinct, Place, Failing, Parts;
    var parts, p := Parts(input), Populated(s, id, Parts(input), env);
    PopulatedGrows(s, id, parts, env);
    ShareAmongParts(input, m);
    if Share(input, m).None? {
      PopulatedElsewhere(s, id, parts, env, m);
      return;
    }
    var k :| 0 <= k < |parts| && parts[k] == Share(input, m).value;
    PartAt(input, m, k);
    PartsDiffer(input);
    FailureIsAt(s, id, input, env, k);
    if k < p.count {
      PopulatedStores(s, id, parts, env, k);
    } else {
      PopulatedBehind(s, id, parts, env, k);
    }
  }

  lemma PartAt(input: Input, m: Mod, k: nat)
    requires k < |Parts(input)| && Share(input, m) == Some(Parts(input)[k])
    ensures ModOf(Parts(input)[k]) == m && Proper(Parts(input)[k]) && (m != Graph ==> !Parts(input)[k].Links?)
  {
    hide Parts;
  }

  /** The part at place `k` is before, at, or behind the failing one as its modality's place says. */
  lemma FailureIsAt(s: Stores, id: Id, input: Input, env: Env, k: nat)
    requires k < |Parts(input)|
    ensures var (parts, f) := (Parts(input), Failing(input, env));
      var count := Populated(s, id, parts, env).count;
      && (k < count <==> Place(ModOf(parts[k])) < Place(f))
      && (k == count <==> ModOf(parts[k]) == f)
      && (k == count ==> env.writes(f).Failed?)
  {
    hide Share, Populated, Place, Failing, Parts, Selected, PartsUpTo;
    var parts, count := Parts(input), Populated(s, id, Parts(input), env).count;
    PopulatedGrows(s, id, parts, env);
    FailingIsPart(s, id, input, env);
    AscendingParts(input);
    PlaceOfTemporal();
  }

  lemma AscendingParts(input: Input)
    ensures Ascending(ModsOf(Parts(input)), 7)
  {
    PartsAreGiven(input, 7);
    SelectedAscends(Given(input), 7);
  }

  /** Where the writes stop is the first failure. */
  lemma FailingIsPart(s: Stores, id: Id, input: Input, env: Env)
    ensures var p := Populated(s, id, Parts(input), env);
      && p.count <= |Parts(input)|
      && Failing(input, env) == if p.count < |Parts(input)| then ModOf(Parts(input)[p.count]) else Temporal
  {
    hide Parts, Share, Place, Populated;
    var p := Populated(s, id, Parts(input), env);
    PopulatedGrows(s, id, Parts(input), env);
    var m := if p.count < |Parts(input)| then ModOf(Parts(input)[p.count]) else Temporal;
    if p.count < |Parts(input)| {
      FailingHasShare(input, p.count);
    }
    forall b | Share(input, b).Some? && Place(b) < Place(m) ensures env.writes(b).Done? {
      EarlierAreDone(s, id, input, env, b);
    }
    FailingIs(input, env, m, 0);
  }

  // ---- The operations -------------------------------------------------------------------------

  ghost function LocksOf(h: State, id: Id, input: Input, t: TxnId): Locking {
    Locked(Began(h.manager, t), t, id, ModsOf(Parts(input)) + [Temporal])
  }

  lemma AttemptAnswers(h: State, id: Id, input: Input, t: TxnId, version: nat, base: set<Mod>, env: Env)
    requires Unknown(h.manager, t) && LocksOf(h, id, input, t).refused.None?
    ensures var (a, f) := (Attempted(h, id, input, t, version, base, env), Failing(input, env));
      && a.error == (if env.writes(f).Failed? then Some(WriteFailed(f)) else None)
      && (forall m :: m in a.written <==> (Share(input, m).Some? && Place(m) < Place(f)) || (m == Temporal && env.writes(f).Done?))
  {
    hide Parts, Share, Place, Populated, Noted, AfterCommit, AfterRollback, CommitResult, ModsOf, Failing, Unknown, Locked, Finished, RaisedOnce;
    var parts, p := Parts(input), Populated(h.stores, id, Parts(input), env);
    PopulatedGrows(h.stores, id, parts, env);
    FailingIsPart(h.stores, id, input, env);
    AttemptFinishes(h, id, input, t, version, base, env);
    assert parts[..|parts|] == parts;
    TemporalHasNoShare(input);
    WrittenByPlace(input, p.count);
  }

  lemma WrittenByPlace(input: Input, count: nat)
    requires count <= |Parts(input)|
    ensures forall m :: m in Range(ModsOf(Parts(input)[..count])) <==>
              Share(input, m).Some? && Place(m) < if count < |Parts(input)| then Place(ModOf(Parts(input)[count])) else Place(Temporal)
  {
    hide Parts, Share, Place, ModsOf;
    TemporalHasNoShare(input);
    forall m ensures m in ModsOf(Parts(input)[..count]) <==>
        Share(input, m).Some? && Place(m) < if count < |Parts(input)| then Place(ModOf(Parts(input)[count])) else Place(Temporal)
    {
      if m != Temporal {
        BeforeFailing(input, count, m);
      } else if m in ModsOf(Parts(input)[..count]) {
        ModsOfPrefix(Parts(input), count, m);
        var k :| 0 <= k < count && ModOf(Parts(input)[k]) == m;
        FailingHasShare(input, k);
      }
    }
  }

  lemma AttemptStores(h: State, id: Id, input: Input, t: TxnId, version: nat, base: set<Mod>, env: Env)
    requires LocksOf(h, id, input, t).refused.None?
    ensures StoresAfter(h.stores, Attempted(h, id, input, t, version, base, env).stores, id, input, env, Failing(input, env), base)
  {
    hide Parts, Share, Place, Populated, Noted, AfterCommit, AfterRollback, CommitResult, ModsOf, Failing, Locked, LandedRelations,
      Snapped, EntryAfter, OnlyGrows;
    var parts, p, f := Parts(input), Populated(h.stores, id, Parts(input), env), Failing(input, env);
    var snap := Snapshot(input, base + Given(input));
    var s' := Attempted(h, id, input, t, version, base, env).stores;
    FailingIsPart(h.stores, id, input, env);
    PartsRange(input);
    assert s' == if f == Temporal then Snapped(p.stores, id, snap, env.writes(Temporal)) else p.stores by {
      TemporalIsNoPart(input);
    }
    SnapsOnly(p.stores, id, snap, env);
    PopulatedLinks(h.stores, id, input, env);
    PopulatedGrows(h.stores, id, parts, env);
    EventGiven(input);
    forall i ensures Entries(s'.chains, i) ==
        Entries(h.stores.chains, i) + if i == id && Lands(input, env, f, Provenance) then [input.provenance.value] else []
    {
      ChainLands(h.stores, id, input, env, i);
    }
    forall m, i ensures Lookup(s'.data, (m, i)) == EntryAfter(h.stores, id, input, env, f, m, i) {
      EntryLands(h.stores, id, input, env, m, i);
    }
  }

  lemma EventGiven(input: Input)
    ensures Share(input, Provenance) == if input.provenance.Some? then Some(Event(input.provenance.value)) else None
  {
  }

  lemma TemporalIsNoPart(input: Input)
    ensures forall k :: 0 <= k < |Parts(input)| ==> ModOf(Parts(input)[k]) != Temporal
  {
    forall k | 0 <= k < |Parts(input)| ensures ModOf(Parts(input)[k]) != Temporal {
      FailingHasShare(input, k);
    }
  }

  lemma SnapsOnly(s: Stores, id: Id, snap: Snapshot, env: Env)
    ensures var s' := Snapped(s, id, snap, env.writes(Temporal));
      && s' == s.(history := s'.history)
      && forall i :: Entries(s'.history, i) == Entries(s.history, i) + if i == id && Snaps(env, Temporal) then [snap] else []
  {
  }

  lemma ChainLands(s: Stores, id: Id, input: Input, env: Env, i: Id)
    ensures Entries(Populated(s, id, Parts(input), env).stores.chains, i) ==
              Entries(s.chains, i) + if i == id && Lands(input, env, Failing(input, env), Provenance) then [input.provenance.value] else []
  {
    hide Parts, Populated, Failing, Place;
    PopulatedExactly(s, id, input, env, Provenance);
    PopulatedGrows(s, id, Parts(input), env);
  }

  lemma EntryLands(s: Stores, id: Id, input: Input, env: Env, m: Mod, i: Id)
    ensures Lookup(Populated(s, id, Parts(input), env).stores.data, (m, i)) == EntryAfter(s, id, input, env, Failing(input, env), m, i)
  {
    hide Parts, Populated, Failing, Place;
    PopulatedGrows(s, id, Parts(input), env);
    if m in {Graph, Provenance, Temporal} {
      NoBlob(input, m);
      PartsAllProper(input);
      NoEntry(s, id, Parts(input), env, m);
    } else {
      PopulatedExactly(s, id, input, env, m);
    }
  }

  lemma NoBlob(input: Input, m: Mod)
    requires m in {Graph, Provenance, Temporal}
    ensures Share(input, m).Some? ==> !Share(input, m).value.Blob?
  {
  }

  /** Links, lineage, and history are kept elsewhere. */
  lemma {:induction false} NoEntry(s: Stores, id: Id, parts: seq<Part>, env: Env, m: Mod)
    requires m in {Graph, Provenance, Temporal} && AllProper(parts)
    ensures Lookup(Populated(s, id, parts, env).stores.data, (m, id)) == Lookup(s.data, (m, id))
    decreases |parts|
  {
    if parts != [] {
      NoEntry(Write(s, id, parts[0], env.writes(ModOf(parts[0]))), id, parts[1..], env, m);
    }
  }

  /**
   * An update of a registered entity whose locks are granted succeeds exactly
   * when no write fails, names the first that does otherwise, and leaves in the
   * stores what landed up to there, the snapshot with the new flags included.
   */
  lemma UpdateWritesExactly(h: State, id: Id, input: Input, t: TxnId, now: int, env: Env, f: Mod)
    requires Unknown(h.manager, t) && id in h.registry && env.walOk && FirstFailure(input, env, f)
    ensures var (h', r) := Updated(h, id, input, t, now, env);
      if RefusedLock(r).Some? then h'.stores == h.stores && h'.registry == h.registry
      else
        && StoresAfter(h.stores, h'.stores, id, input, env, f, h.registry[id].flags)
        && (r.Ok? <==> env.writes(f).Done?)
        && (r.Err? ==> r.error == WriteFailed(f) && h'.registry == h.registry)
        && (forall i :: i != id ==> Lookup(h'.registry, i) == Lookup(h.registry, i))
  {
    hide Unknown, StoresAfter, FirstFailure, Parts, ModsOf, Locked, Populated, Noted, AfterCommit, AfterRollback, CommitResult, Snapped, Share;
    FirstFailureExactly(input, env, f);
    if LocksOf(h, id, input, t).refused.None? {
      AttemptAnswers(h, id, input, t, h.registry[id].version, h.registry[id].flags, env);
      AttemptStores(h, id, input, t, h.registry[id].version, h.registry[id].flags, env);
    }
  }

  /** What a failed create deletes again: what was written before the failure, where the store can and does delete. */
  predicate TakenBack(input: Input, env: Env, f: Mod, m: Mod) {
    m in {Vector, Document, Tensor} && Share(input, m).Some? && Place(m) < Place(f) && env.deletes(m)
  }

  /** The same for a create, which deletes what it can of a failed attempt. */
  lemma CreateWritesExactly(h: State, id: Id, input: Input, t: TxnId, now: int, env: Env, f: Mod)
    requires Unknown(h.manager, t) && env.walOk && FirstFailure(input, env, f)
    ensures var (h', r) := Created(h, id, input, t, now, env);
      if RefusedLock(r).Some? then h'.stores == h.stores && h'.registry == h.registry
      else
        && (forall m, i :: Lookup(h'.stores.data, (m, i)) ==
              if r.Err? && i == id && TakenBack(input, env, f, m) then None else EntryAfter(h.stores, id, input, env, f, m, i))
        && ListsAfter(h.stores, h'.stores, id, input, env, f, {})
        && (r.Ok? <==> env.writes(f).Done?)
        && (r.Err? ==> r.error == WriteFailed(f) && h'.registry == h.registry)
        && (forall i :: i != id ==> Lookup(h'.registry, i) == Lookup(h.registry, i))
  {
    hide Unknown, ListsAfter, EntryAfter, FirstFailure, Parts, ModsOf, Locked, Populated, Noted, AfterCommit, AfterRollback, CommitResult, Snapped, Share,
      Erased, Place;
    FirstFailureExactly(input, env, f);
    var a := Attempted(h, id, input, t, 0, {}, env);
    if LocksOf(h, id, input, t).refused.None? {
      AttemptAnswers(h, id, input, t, 0, {}, env);
      AttemptStores(h, id, input, t, 0, {}, env);
      ErasedEntries(a.stores, id, a.written, env);
      ListsSurvive(h.stores, a.stores, id, input, env, f, a.written);
    } else {
      ErasedNothing(h.stores, id, env);
    }
  }

  lemma ErasedEntries(s: Stores, id: Id, ms: set<Mod>, env: Env)
    ensures forall m, i :: Lookup(Erased(s, id, ms, env).data, (m, i)) ==
              if i == id && m in ms && m in {Vector, Document, Tensor} && env.deletes(m) then None else Lookup(s.data, (m, i))
  {
  }

  lemma ErasedNothing(s: Stores, id: Id, env: Env)
    ensures Erased(s, id, {}, env) == s
  {
    assert Erased(s, id, {}, env).data == s.data;
  }

  lemma ListsSurvive(s: Stores, s': Stores, id: Id, input: Input, env: Env, f: Mod, ms: set<Mod>)
    requires ListsAfter(s, s', id, input, env, f, {})
    ensures ListsAfter(s, Erased(s', id, ms, env), id, input, env, f, {})
  {
    hide LandedRelations;
  }

  // ---- Reading --------------------------------------------------------------------------------

  /** The stores a reading depends on; the graph entry is made up, and the two lists may be missing. */
  const NEEDED: set<Mod> := {Vector, Document, Tensor, Semantic, Spatial}

  /** `m` is to be read and cannot be. */
  predicate Missing(flags: set<Mod>, readable: Mod -> bool, m: Mod) {
    m in NEEDED && m in flags && !readable(m)
  }

  lemma {:induction false} UnreadableIsFirst(flags: set<Mod>, readable: Mod -> bool, n: nat)
    requires n <= 5
    requires forall m :: Missing(flags, readable, m) ==> m in READ_ORDER[n..]
    ensures var r := Unreadable(flags, readable, n);
      && (r.None? ==> forall m :: !Missing(flags, readable, m))
      && (r.Some? ==> Missing(flags, readable, r.value)
                      && forall m :: Missing(flags, readable, m) ==> Place(r.value) <= Place(m))
    decreases 5 - n
  {
    hide Place;
    ReadingOrder(n);
    if n < 5 && !(READ_ORDER[n] in flags && !readable(READ_ORDER[n])) {
      assert READ_ORDER[n..] == [READ_ORDER[n]] + READ_ORDER[n + 1..];
      UnreadableIsFirst(flags, readable, n + 1);
    }
  }

  lemma ReadingOrder(n: nat)
    requires n <= 5
    ensures forall m :: m in READ_ORDER[n..] ==> m in NEEDED && Place(READ_ORDER[n]) <= Place(m)
  {
    forall k | n <= k < 5 ensures READ_ORDER[k] in NEEDED && Place(READ_ORDER[n]) <= Place(READ_ORDER[k]) {
    }
  }

  /**
   * A registered entity can be read exactly when every store it is flagged for
   * can, lineage and history apart; otherwise the first by place is named.
   */
  lemma GetFailsExactly(h: State, id: Id, readable: Mod -> bool)
    requires id in h.registry
    ensures var (r, flags) := (Loaded(h, id, readable), h.registry[id].flags);
      && (r.Ok? <==> forall m :: !Missing(flags, readable, m))
      && (r.Err? ==> exists m :: r.error == ReadFailed(m) && Missing(flags, readable, m)
                                 && forall other :: Missing(flags, readable, other) ==> Place(m) <= Place(other))
  {
    hide Place, Unreadable;
    assert READ_ORDER[0..] == READ_ORDER;
    forall m | m in NEEDED ensures m in READ_ORDER[0..] {
      assert m in {READ_ORDER[0], READ_ORDER[1], READ_ORDER[2], READ_ORDER[3], READ_ORDER[4]};
    }
    UnreadableIsFirst(h.registry[id].flags, readable, 0);
  }

  /** What is read when no needed store fails: lineage and history count as empty exactly when they cannot be read. */
  lemma GetReadsThrough(h: State, id: Id, readable: Mod -> bool)
    requires Loaded(h, id, readable).Ok? && id in h.registry
    ensures var (v, r) := (Loaded(h, id, readable).value, Read(h, id));
      && v.Some? && r.Some?
      && v.value == r.value.(versionCount := if readable(Temporal) then r.value.versionCount else 0,
                             chainLength := if readable(Provenance) then r.value.chainLength else 0)
  {
    ReadMeans(h, id);
  }
}
