/** What the hexad store's operations do to the stores, and what every run of them keeps. */
module HexadRuns {
  import opened Wrappers
  import opened WaitForGraph
  import opened LockTables
  import opened LockSafety
  import opened Transactions
  import opened Hexads
  import opened HexadTransactions

  // ---- The writes of one operation ---------------------------------------------------------

  /** What a write may change: the entity's own entries, links and lists only by growing. */
  ghost predicate OnlyGrows(s: Stores, s': Stores, id: Id) {
    && s.links <= s'.links && (forall l :: l in s'.links && l !in s.links ==> l.0 == id)
    && (forall m, i :: i != id ==> Lookup(s'.data, (m, i)) == Lookup(s.data, (m, i)))
    && (forall k :: k in s.data ==> k in s'.data)
    && (forall i :: Entries(s.chains, i) <= Entries(s'.chains, i) && (i != id ==> Entries(s'.chains, i) == Entries(s.chains, i)))
    && (forall i :: Entries(s.history, i) <= Entries(s'.history, i) && (i != id ==> Entries(s'.history, i) == Entries(s.history, i)))
  }

  lemma WriteGrows(s: Stores, id: Id, p: Part, o: Outcome)
    ensures OnlyGrows(s, Write(s, id, p, o), id) && Write(s, id, p, o).history == s.history
  {
  }

  lemma GrowsTwice(a: Stores, b: Stores, c: Stores, id: Id)
    requires OnlyGrows(a, b, id) && OnlyGrows(b, c, id)
    ensures OnlyGrows(a, c, id)
  {
    forall i ensures Entries(a.chains, i) <= Entries(c.chains, i) && Entries(a.history, i) <= Entries(c.history, i) {
      assert Entries(a.chains, i) <= Entries(b.chains, i) <= Entries(c.chains, i);
      assert Entries(a.history, i) <= Entries(b.history, i) <= Entries(c.history, i);
    }
  }

  lemma {:induction false} PopulatedGrows(s: Stores, id: Id, parts: seq<Part>, env: Env)
    ensures var p := Populated(s, id, parts, env);
      OnlyGrows(s, p.stores, id) && p.stores.history == s.history && p.count <= |parts|
      && (p.count < |parts| ==> env.writes(ModOf(parts[p.count])).Failed?)
    decreases |parts|
  {
    hide OnlyGrows, Write;
    if parts == [] {
      assert OnlyGrows(s, s, id) by { GrowsByNothing(s, id); }
    } else {
      var s1 := Write(s, id, parts[0], env.writes(ModOf(parts[0])));
      WriteGrows(s, id, parts[0], env.writes(ModOf(parts[0])));
      PopulatedGrows(s1, id, parts[1..], env);
      GrowsTwice(s, s1, Populated(s1, id, parts[1..], env).stores, id);
    }
  }

  lemma GrowsByNothing(s: Stores, id: Id)
    ensures OnlyGrows(s, s, id)
  {
  }

  /** The parts hold something to write: every graph part lists a relation. */
  predicate Substantial(p: Part) {
    p.Links? ==> p.relations != []
  }

  /** The entity has data in the store of `m`. */
  ghost predicate Has(s: Stores, m: Mod, id: Id) {
    match m
    case Graph => exists r :: (id, r) in s.links
    case Provenance => Entries(s.chains, id) != []
    case Temporal => Entries(s.history, id) != []
    case _ => (m, id) in s.data
  }

  lemma GrowingKeepsHas(s: Stores, s': Stores, id: Id, m: Mod, i: Id)
    requires OnlyGrows(s, s', id) && Has(s, m, i)
    ensures Has(s', m, i)
  {
    if m == Graph {
      var r :| (i, r) in s.links;
      assert (i, r) in s'.links;
    }
  }

  /** A blob belongs to a modality with a blob store. */
  predicate Proper(p: Part) {
    p.Blob? ==> p.kind !in {Graph, Provenance, Temporal}
  }

  lemma WriteBacks(s: Stores, id: Id, p: Part)
    requires Proper(p)
    ensures Substantial(p) ==> Has(Write(s, id, p, Done), ModOf(p), id)
  {
    if p.Links? && p.relations != [] {
      assert (id, p.relations[0]) in Write(s, id, p, Done).links;
    }
  }

  /** Every part reported written is backed by data. */
  lemma {:induction false} PopulatedBacks(s: Stores, id: Id, parts: seq<Part>, env: Env, k: nat)
    requires k < Populated(s, id, parts, env).count && k < |parts| && Proper(parts[k]) && Substantial(parts[k])
    ensures Has(Populated(s, id, parts, env).stores, ModOf(parts[k]), id)
    decreases |parts|
  {
    hide OnlyGrows, Write, Has;
    var o := env.writes(ModOf(parts[0]));
    var s1 := Write(s, id, parts[0], o);
    if k == 0 {
      WriteBacks(s, id, parts[0]);
      PopulatedGrows(s1, id, parts[1..], env);
      GrowingKeepsHas(s1, Populated(s1, id, parts[1..], env).stores, id, ModOf(parts[0]), id);
    } else {
      PopulatedBacks(s1, id, parts[1..], env, k - 1);
    }
  }

  lemma {:induction false} PartsAreProper(input: Input, n: nat)
    requires n <= 7
    ensures forall k :: 0 <= k < |PartsUpTo(input, n)| ==>
      Proper(PartsUpTo(input, n)[k]) && Share(input, ModOf(PartsUpTo(input, n)[k])) == Some(PartsUpTo(input, n)[k])
  {
    hide Share, Proper;
    if n > 0 {
      PartsAreProper(input, n - 1);
      ShareIsProper(input, ORDER[n - 1]);
    }
  }

  lemma ShareIsProper(input: Input, m: Mod)
    ensures Share(input, m).Some? ==> Proper(Share(input, m).value) && ModOf(Share(input, m).value) == m
  {
  }

  // ---- An attempt ----------------------------------------------------------------------------

  /** A graph part, if there is one, lists a relation. */
  predicate GraphListed(input: Input) {
    input.graph.Some? ==> input.graph.value != []
  }

  lemma PartIsFit(input: Input, k: nat)
    requires k < |Parts(input)|
    ensures Proper(Parts(input)[k]) && (GraphListed(input) || ModOf(Parts(input)[k]) != Graph ==> Substantial(Parts(input)[k]))
  {
    PartsAreProper(input, 7);
  }

  lemma SnappedGrows(s: Stores, id: Id, snap: Snapshot, o: Outcome)
    ensures var s' := Snapped(s, id, snap, o);
      && OnlyGrows(s, s', id) && s' == s.(history := s'.history)
      && (o.Done? ==> Entries(s'.history, id) == Entries(s.history, id) + [snap])
  {
  }

  lemma {:induction false} ModsOfPrefix(parts: seq<Part>, n: nat, m: Mod)
    requires n <= |parts| && m in ModsOf(parts[..n])
    ensures exists k :: 0 <= k < n && ModOf(parts[k]) == m
  {
    var k :| 0 <= k < n && ModsOf(parts[..n])[k] == m;
    assert ModOf(parts[k]) == m;
  }

  /** What an attempt reports written, the stores hold. */
  lemma WrittenIsBacked(h: State, id: Id, input: Input, env: Env, n: nat, m: Mod)
    requires var p := Populated(h.stores, id, Parts(input), env); n <= p.count && n <= |Parts(input)|
    requires m in ModsOf(Parts(input)[..n]) && (m == Graph ==> GraphListed(input))
    ensures Has(Populated(h.stores, id, Parts(input), env).stores, m, id)
  {
    hide Has, Parts, Populated;
    ModsOfPrefix(Parts(input), n, m);
    var k :| 0 <= k < n && ModOf(Parts(input)[k]) == m;
    PartIsFit(input, k);
    PopulatedBacks(h.stores, id, Parts(input), env, k);
  }

  /** What is known of the stores and the report after an attempt. */
  ghost predicate AttemptOk(h: State, id: Id, input: Input, base: set<Mod>, a: Attempt) {
    && OnlyGrows(h.stores, a.stores, id)
    && (forall m :: m in a.written && (m == Graph ==> GraphListed(input)) ==> Has(a.stores, m, id))
    && (a.error.None? ==>
          && a.written == Range(ModsOf(Parts(input))) + {Temporal}
          && Entries(a.stores.history, id) == Entries(h.stores.history, id) + [Snapshot(input, base + Range(ModsOf(Parts(input))))])
  }

  lemma AttemptedOk(h: State, id: Id, input: Input, t: TxnId, version: nat, base: set<Mod>, env: Env)
    ensures AttemptOk(h, id, input, base, Attempted(h, id, input, t, version, base, env))
  {
    hide OnlyGrows, Has, Parts, Populated, Locked, Noted, AfterCommit, AfterRollback, CommitResult, Snapped, ModsOf, GraphListed;
    var a := Attempted(h, id, input, t, version, base, env);
    var parts, p := Parts(input), Populated(h.stores, id, Parts(input), env);
    PopulatedGrows(h.stores, id, parts, env);
    GrowsByNothing(h.stores, id);
    forall m, n | 0 <= n <= p.count && n <= |parts| && m in ModsOf(parts[..n]) && (m == Graph ==> GraphListed(input))
      ensures Has(p.stores, m, id)
    {
      WrittenIsBacked(h, id, input, env, n, m);
    }
    assert parts[..|parts|] == parts;
    var snap := Snapshot(input, base + Range(ModsOf(parts)));
    SnappedGrows(p.stores, id, snap, env.writes(Temporal));
    GrowsTwice(h.stores, p.stores, Snapped(p.stores, id, snap, env.writes(Temporal)), id);
    forall m | Has(p.stores, m, id) ensures Has(Snapped(p.stores, id, snap, env.writes(Temporal)), m, id) {
      GrowingKeepsHas(p.stores, Snapped(p.stores, id, snap, env.writes(Temporal)), id, m, id);
    }
    SnapshotBacksHistory(p.stores, id, snap, env.writes(Temporal));
  }

  lemma SnapshotBacksHistory(s: Stores, id: Id, snap: Snapshot, o: Outcome)
    ensures o.Done? ==> Has(Snapped(s, id, snap, o), Temporal, id)
  {
  }

  // ---- Each operation ------------------------------------------------------------------------

  /** Every flag of every registered entity is backed by data; the graph flag only for the entities of `full`. */
  ghost predicate Backed(h: State, full: set<Id>) {
    forall id, m :: id in h.registry && m in h.registry[id].flags && (m != Graph || id in full) ==> Has(h.stores, m, id)
  }

  /** The store knows no entity but those of `used`. */
  ghost predicate Within(h: State, used: set<Id>) {
    && h.registry.Keys <= used
    && (forall l :: l in h.stores.links ==> l.0 in used)
    && (forall k :: k in h.stores.data ==> k.1 in used)
    && (forall i :: i !in used ==> Entries(h.stores.chains, i) == [] && Entries(h.stores.history, i) == [])
  }

  lemma GrowingStaysWithin(h: State, h': State, used: set<Id>, id: Id)
    requires Within(h, used) && OnlyGrows(h.stores, h'.stores, id) && h'.registry.Keys <= used + {id}
    ensures Within(h', used + {id})
  {
    forall k | k in h'.stores.data ensures k.1 in used + {id} {
      if k.1 != id {
        assert Lookup(h'.stores.data, (k.0, k.1)) == Lookup(h.stores.data, (k.0, k.1));
      }
    }
  }

  lemma ErasedStaysWithin(h: State, h': State, used: set<Id>, id: Id, ms: set<Mod>, env: Env)
    requires Within(h, used) && h'.stores == Erased(h.stores, id, ms, env) && h'.registry.Keys <= h.registry.Keys
    ensures Within(h', used)
  {
  }

  /** Growth keeps every flag backed. */
  lemma GrowingKeepsBacked(h: State, h': State, id: Id, full: set<Id>)
    requires Backed(h, full) && OnlyGrows(h.stores, h'.stores, id)
    requires forall i :: i in h'.registry && i != id ==> i in h.registry && h'.registry[i] == h.registry[i]
    requires forall m :: id in h'.registry && m in h'.registry[id].flags && (m != Graph || id in full) ==>
      Has(h'.stores, m, id) || (id in h.registry && m in h.registry[id].flags)
    ensures Backed(h', full)
  {
    hide OnlyGrows, Has;
    forall i, m | i in h'.registry && m in h'.registry[i].flags && (m != Graph || i in full) ensures Has(h'.stores, m, i) {
      if i != id || !Has(h'.stores, m, id) {
        GrowingKeepsHas(h.stores, h'.stores, id, m, i);
      }
    }
  }

  lemma ErasingKeepsOthers(s: Stores, id: Id, ms: set<Mod>, env: Env, m: Mod, i: Id)
    requires Has(s, m, i) && i != id
    ensures Has(Erased(s, id, ms, env), m, i)
  {
  }

  lemma ErasingKeepsBacked(h: State, h': State, id: Id, ms: set<Mod>, env: Env, full: set<Id>)
    requires Backed(h, full) && h'.stores == Erased(h.stores, id, ms, env)
    requires id !in h'.registry && forall i :: i in h'.registry ==> i in h.registry && h'.registry[i] == h.registry[i]
    ensures Backed(h', full)
  {
    hide Has, Erased;
    forall i, m | i in h'.registry && m in h'.registry[i].flags && (m != Graph || i in full) ensures Has(h'.stores, m, i) {
      ErasingKeepsOthers(h.stores, id, ms, env, m, i);
    }
  }

  lemma CreateKeeps(h: State, used: set<Id>, id: Id, input: Input, t: TxnId, now: int, env: Env, full: set<Id>)
    requires Within(h, used) && id !in used && Backed(h, full) && (id in full ==> GraphListed(input))
    ensures var h' := Created(h, id, input, t, now, env).0;
      Backed(h', full) && Within(h', used + {id})
  {
    hide OnlyGrows, Has, Attempted, Erased, GraphListed;
    var a, h' := Attempted(h, id, input, t, 0, {}, env), Created(h, id, input, t, now, env).0;
    AttemptedOk(h, id, input, t, 0, {}, env);
    GrowsByNothing(h.stores, id);
    var grown := State(h.registry, a.stores, a.manager);
    GrowingKeepsBacked(h, grown, id, full);
    GrowingStaysWithin(h, grown, used, id);
    if !env.walOk {
      GrowingStaysWithin(h, h, used, id);
    } else if a.error.Some? {
      ErasingKeepsBacked(grown, h', id, a.written, env, full);
      ErasedStaysWithin(grown, h', used + {id}, id, a.written, env);
    } else {
      GrowingKeepsBacked(h, h', id, full);
      GrowingStaysWithin(h, h', used, id);
    }
  }

  lemma UpdateKeeps(h: State, used: set<Id>, id: Id, input: Input, t: TxnId, now: int, env: Env, full: set<Id>)
    requires Within(h, used) && Backed(h, full) && (id in full ==> GraphListed(input))
    ensures var h' := Updated(h, id, input, t, now, env).0;
      Backed(h', full) && Within(h', used)
  {
    hide OnlyGrows, Has, Attempted, GraphListed;
    var h' := Updated(h, id, input, t, now, env).0;
    if id in h.registry && env.walOk {
      AttemptedOk(h, id, input, t, h.registry[id].version, h.registry[id].flags, env);
      GrowingKeepsBacked(h, h', id, full);
      GrowingStaysWithin(h, h', used, id);
      assert used + {id} == used;
    }
  }

  lemma DeleteKeeps(h: State, used: set<Id>, id: Id, t: TxnId, env: Env, full: set<Id>)
    requires Within(h, used) && Backed(h, full) && Unknown(h.manager, t)
    ensures var h' := Deleted(h, id, t, env).0;
      Backed(h', full) && Within(h', used)
  {
    hide Has, Erased, Unknown, Locked, Noted, AfterCommit, CommitResult, LeftClean, RaisedOnce;
    var h' := Deleted(h, id, t, env).0;
    DeleteLeavesClean(h, id, t, env);
    if h'.stores != h.stores || h'.registry != h.registry {
      ErasingKeepsBacked(h, h', id, ERASABLE, env, full);
      ErasedStaysWithin(h, h', used, id, ERASABLE, env);
    }
  }

  // ---- Every run -------------------------------------------------------------------------------

  /** `Outside` is whatever other users of the transaction manager did in between. */
  datatype Op =
    | Create(id: Id, input: Input, t: TxnId, now: int, env: Env)
    | Update(id: Id, input: Input, t: TxnId, now: int, env: Env)
    | Delete(id: Id, t: TxnId, env: Env)
    | Outside(manager: Manager)

  /** `used` are the entity identifiers generated so far. */
  datatype Sys = Sys(h: State, used: set<Id>)

  const START := Sys(State(map[], Stores({}, map[], map[], map[]), Manager(map[], EMPTY_TABLE, map[])), {})

  /** Generated identifiers are fresh, and others leave a sound lock table. */
  ghost predicate Possible(s: Sys, op: Op) {
    match op
    case Create(id, _, t, _, _) => id !in s.used && Unknown(s.h.manager, t)
    case Update(_, _, t, _, _) => Unknown(s.h.manager, t)
    case Delete(_, t, _) => Unknown(s.h.manager, t)
    case Outside(m) => TableOk(m.table)
  }

  ghost function Do(s: Sys, op: Op): Sys {
    if !Possible(s, op) then s else
    match op
    case Create(id, input, t, now, env) => Sys(Created(s.h, id, input, t, now, env).0, s.used + {id})
    case Update(id, input, t, now, env) => s.(h := Updated(s.h, id, input, t, now, env).0)
    case Delete(id, t, env) => s.(h := Deleted(s.h, id, t, env).0)
    case Outside(m) => s.(h := s.h.(manager := m))
  }

  ghost function Exec(ops: seq<Op>): Sys {
    if ops == [] then START else Do(Exec(ops[..|ops| - 1]), ops[|ops| - 1])
  }

  predicate ListsRelations(op: Op, id: Id) {
    (op.Create? || op.Update?) && op.id == id ==> GraphListed(op.input)
  }

  /** Every graph input given for the entity lists a relation. */
  predicate AllList(ops: seq<Op>, id: Id) {
    forall i :: 0 <= i < |ops| ==> ListsRelations(ops[i], id)
  }

  ghost predicate Inv(s: Sys, full: set<Id>) {
    Backed(s.h, full) && Within(s.h, s.used) && TableOk(s.h.manager.table)
  }

  lemma StepKeepsInv(s: Sys, op: Op, full: set<Id>)
    requires Inv(s, full) && (forall id :: id in full ==> ListsRelations(op, id))
    ensures Inv(Do(s, op), full)
  {
    hide Backed, Within, TableOk, Unknown, Created, Updated, Deleted, GraphListed, RaisedOnce;
    if Possible(s, op) {
      match op {
        case Create(id, input, t, now, env) =>
          CreateKeeps(s.h, s.used, id, input, t, now, env, full);
          CreateLeavesClean(s.h, id, input, t, now, env);
        case Update(id, input, t, now, env) =>
          UpdateKeeps(s.h, s.used, id, input, t, now, env, full);
          UpdateLeavesClean(s.h, id, input, t, now, env);
        case Delete(id, t, env) =>
          DeleteKeeps(s.h, s.used, id, t, env, full);
          DeleteLeavesClean(s.h, id, t, env);
        case Outside(m) =>
          OutsideKeeps(s.h, s.used, m, full);
      }
    }
  }

  lemma OutsideKeeps(h: State, used: set<Id>, m: Manager, full: set<Id>)
    requires Backed(h, full) && Within(h, used)
    ensures Backed(h.(manager := m), full) && Within(h.(manager := m), used)
  {
  }

  lemma StartOk(full: set<Id>)
    ensures Inv(START, full)
  {
    forall t, p ensures !CycleAt(EMPTY_TABLE.waitFor, t, p) {
      assert CycleAt(EMPTY_TABLE.waitFor, t, p) ==> Edge(EMPTY_TABLE.waitFor, p[0], p[1]);
    }
  }

  lemma {:induction false} RunKeepsInv(ops: seq<Op>, full: set<Id>)
    requires forall id :: id in full ==> AllList(ops, id)
    ensures Inv(Exec(ops), full)
  {
    hide Inv, Do, ListsRelations;
    if ops == [] {
      StartOk(full);
    } else {
      var n := |ops| - 1;
      RunKeepsInv(ops[..n], full);
      StepKeepsInv(Exec(ops[..n]), ops[n], full);
    }
  }

  // ---- Links over a run ---------------------------------------------------------------------------

  /** How many relations of an input land. */
  function LandedRelations(input: Input, env: Env): nat {
    if input.graph.None? then 0
    else
      var given, o := |input.graph.value|, env.writes(Graph);
      if o.Done? || o.landed > given then given else o.landed
  }

  /** The graph part comes first, and no other part holds relations. */
  predicate LinksOnlyFirst(parts: seq<Part>, graph: Option<seq<Relation>>) {
    && (graph.Some? ==> parts != [] && parts[0] == Links(graph.value))
    && (forall k :: 0 <= k < |parts| && (k > 0 || graph.None?) ==> !parts[k].Links?)
  }

  lemma GraphShare(input: Input)
    ensures Share(input, Graph) == if input.graph.Some? then Some(Links(input.graph.value)) else None
  {
  }

  lemma OnlyGraphHasLinks(input: Input, m: Mod)
    ensures m != Graph && Share(input, m).Some? ==> !Share(input, m).value.Links?
  {
  }

  lemma OneMorePart(parts: seq<Part>, graph: Option<seq<Relation>>, p: Part)
    requires LinksOnlyFirst(parts, graph) && !p.Links?
    ensures LinksOnlyFirst(parts + [p], graph)
  {
  }

  lemma FirstPart(graph: Option<seq<Relation>>)
    ensures LinksOnlyFirst(if graph.Some? then [Links(graph.value)] else [], graph)
  {
  }

  lemma {:induction false} GraphPartFirst(input: Input, n: nat)
    requires 1 <= n <= 7
    ensures LinksOnlyFirst(PartsUpTo(input, n), input.graph)
  {
    hide LinksOnlyFirst, Share;
    if n == 1 {
      GraphShare(input);
      FirstPart(input.graph);
      var none: seq<Part> := [];
      var first: seq<Part> := if input.graph.Some? then [Links(input.graph.value)] else [];
      assert PartsUpTo(input, 0) == none && ORDER[0] == Graph;
      assert PartsUpTo(input, 1) == none + first == first;
    } else {
      var m := ORDER[n - 1];
      assert m != Graph;
      GraphPartFirst(input, n - 1);
      OnlyGraphHasLinks(input, m);
      if Share(input, m).Some? {
        OneMorePart(PartsUpTo(input, n - 1), input.graph, Share(input, m).value);
      } else {
        var none: seq<Part> := [];
        assert PartsUpTo(input, n) == PartsUpTo(input, n - 1) + none == PartsUpTo(input, n - 1);
      }
    }
  }

  lemma PartsLinksFirst(input: Input)
    ensures LinksOnlyFirst(Parts(input), input.graph)
  {
    hide LinksOnlyFirst;
    GraphPartFirst(input, 7);
  }

  /** Parts without relations add no link. */
  lemma LinksOfFirst(s: Stores, id: Id, parts: seq<Part>, graph: Option<seq<Relation>>, env: Env)
    requires LinksOnlyFirst(parts, graph)
    ensures Populated(s, id, parts, env).stores.links ==
              if graph.None? then s.links else Write(s, id, Links(graph.value), env.writes(Graph)).links
  {
    hide Write;
    if graph.None? {
      NoLinksWritten(s, id, parts, env);
    } else {
      var s1 := Write(s, id, parts[0], env.writes(Graph));
      assert forall k :: 0 <= k < |parts[1..]| ==> parts[1..][k] == parts[k + 1];
      NoLinksWritten(s1, id, parts[1..], env);
    }
  }

  lemma WriteLinks(s: Stores, id: Id, rs: seq<Relation>, o: Outcome)
    ensures Write(s, id, Links(rs), o).links ==
              s.links + set r | r in rs[..if o.Done? || o.landed > |rs| then |rs| else o.landed] :: (id, r)
  {
    assert rs[..|rs|] == rs;
  }

  /** An input adds exactly the relations of it that land. */
  lemma PopulatedLinks(s: Stores, id: Id, input: Input, env: Env)
    ensures Populated(s, id, Parts(input), env).stores.links ==
              s.links + if input.graph.None? then {} else set r | r in input.graph.value[..LandedRelations(input, env)] :: (id, r)
  {
    hide Parts, Populated, Write, LinksOnlyFirst;
    PartsLinksFirst(input);
    LinksOfFirst(s, id, Parts(input), input.graph, env);
    if input.graph.Some? {
      WriteLinks(s, id, input.graph.value, env.writes(Graph));
    }
  }

  lemma AttemptedLinks(h: State, id: Id, input: Input, t: TxnId, version: nat, base: set<Mod>, env: Env)
    ensures var a := Attempted(h, id, input, t, version, base, env);
      a.stores.links == if Locked(Began(h.manager, t), t, id, ModsOf(Parts(input)) + [Temporal]).refused.Some? then h.stores.links
                        else Populated(h.stores, id, Parts(input), env).stores.links
  {
    hide Parts, Populated, Locked, Noted, AfterCommit, AfterRollback, CommitResult, ModsOf;
  }

  /** The operation writes to `id` and at least one relation lands. */
  ghost predicate LandsRelation(s: Sys, op: Op, id: Id) {
    && Possible(s, op) && (op.Create? || op.Update?) && op.id == id && op.env.walOk
    && (op.Update? ==> id in s.h.registry)
    && Locked(Began(s.h.manager, op.t), op.t, id, ModsOf(Parts(op.input)) + [Temporal]).refused.None?
    && LandedRelations(op.input, op.env) > 0
  }

  /** Whether an entity has a link depends on what lands, and only on that. */
  lemma HasLinkAfter(h: State, h': State, id: Id, input: Input, env: Env, i: Id)
    requires h'.stores.links == Populated(h.stores, id, Parts(input), env).stores.links
    ensures Has(h'.stores, Graph, i) <==> Has(h.stores, Graph, i) || (i == id && LandedRelations(input, env) > 0)
  {
    hide Parts, Populated;
    PopulatedLinks(h.stores, id, input, env);
    if i == id && LandedRelations(input, env) > 0 {
      assert input.graph.value[0] in input.graph.value[..LandedRelations(input, env)];
      assert (id, input.graph.value[0]) in h'.stores.links;
    }
    if Has(h.stores, Graph, i) {
      var r :| (i, r) in h.stores.links;
      assert (i, r) in h'.stores.links;
    }
  }

  lemma SameLinks(s: Stores, s': Stores, i: Id)
    requires s'.links == s.links
    ensures Has(s', Graph, i) <==> Has(s, Graph, i)
  {
  }

  lemma StepLandsRelation(s: Sys, op: Op, i: Id)
    ensures Has(Do(s, op).h.stores, Graph, i) <==> Has(s.h.stores, Graph, i) || LandsRelation(s, op, i)
  {
    hide Has, Locked, Parts, Populated, ModsOf, LandedRelations, Attempted, Unknown, Noted, CommitResult, AfterCommit;
    var h, h' := s.h, Do(s, op).h;
    if Possible(s, op) && (op.Create? || op.Update?) && op.env.walOk && (op.Update? ==> op.id in h.registry) {
      var version := if op.Create? then 0 else h.registry[op.id].version;
      var base := if op.Create? then {} else h.registry[op.id].flags;
      AttemptedLinks(h, op.id, op.input, op.t, version, base, op.env);
      assert h'.stores.links == Attempted(h, op.id, op.input, op.t, version, base, op.env).stores.links;
      if Locked(Began(h.manager, op.t), op.t, op.id, ModsOf(Parts(op.input)) + [Temporal]).refused.None? {
        HasLinkAfter(h, h', op.id, op.input, op.env, i);
      } else {
        SameLinks(h.stores, h'.stores, i);
      }
    } else {
      SameLinks(h.stores, h'.stores, i);
    }
  }

  /** Some operation of the run landed a relation of the entity. */
  ghost predicate RelationLanded(ops: seq<Op>, id: Id) {
    exists i :: 0 <= i < |ops| && LandsRelation(Exec(ops[..i]), ops[i], id)
  }

  /** In every run an entity has a link exactly when an operation on it landed a relation. */
  lemma {:induction false} HasLinkExactly(ops: seq<Op>, id: Id)
    ensures Has(Exec(ops).h.stores, Graph, id) <==> RelationLanded(ops, id)
  {
    hide Has, LandsRelation, Do;
    if ops == [] {
      assert !Has(Exec(ops).h.stores, Graph, id) by { NoLinkAtStart(id); }
    } else {
      var n := |ops| - 1;
      HasLinkExactly(ops[..n], id);
      StepLandsRelation(Exec(ops[..n]), ops[n], id);
      if RelationLanded(ops[..n], id) {
        var i :| 0 <= i < n && LandsRelation(Exec(ops[..n][..i]), ops[..n][i], id);
        assert ops[..n][..i] == ops[..i];
      }
      if RelationLanded(ops, id) {
        var i :| 0 <= i < |ops| && LandsRelation(Exec(ops[..i]), ops[i], id);
        assert i < n ==> ops[..n][..i] == ops[..i] && ops[..n][i] == ops[i];
      }
    }
  }

  lemma NoLinkAtStart(id: Id)
    ensures !Has(START.h.stores, Graph, id)
  {
  }

  /**
   * In every run of whole operations each flag of each registered entity but the
   * graph flag is backed by data in its store, and the graph flag is backed
   * exactly when an operation on the entity landed a relation. Where every graph
   * input of the entity lists one, the flag is backed too. For operations that
   * overlap see `HexadSections`.
   */
  lemma RegisteredIsBacked(ops: seq<Op>, id: Id, m: Mod)
    requires id in Exec(ops).h.registry && m in Exec(ops).h.registry[id].flags
    ensures m != Graph ==> Has(Exec(ops).h.stores, m, id)
    ensures m == Graph ==> (Has(Exec(ops).h.stores, m, id) <==> RelationLanded(ops, id))
    ensures m == Graph && AllList(ops, id) ==> Has(Exec(ops).h.stores, m, id)
  {
    hide RelationLanded;
    RunKeepsInv(ops, {});
    HasLinkExactly(ops, id);
    if AllList(ops, id) {
      RunKeepsInv(ops, {id});
    }
  }

  // ---- Deleted for good ---------------------------------------------------------------------------

  /** No entity that was generated and is not registered is registered again. */
  lemma GoneStaysGone(s: Sys, op: Op, id: Id)
    requires id in s.used && id !in s.h.registry
    ensures id in Do(s, op).used && id !in Do(s, op).h.registry
  {
    hide Attempted, Unknown, Locked, Noted, CommitResult, AfterCommit, Erased;
  }

  /** The stores hold the same of `id`. */
  ghost predicate SameFor(s: Stores, s': Stores, id: Id) {
    && (forall m :: Lookup(s'.data, (m, id)) == Lookup(s.data, (m, id)))
    && (forall r :: (id, r) in s'.links <==> (id, r) in s.links)
    && Entries(s'.chains, id) == Entries(s.chains, id) && Entries(s'.history, id) == Entries(s.history, id)
  }

  lemma GrowingSpares(s: Stores, s': Stores, i: Id, id: Id)
    requires OnlyGrows(s, s', i) && i != id
    ensures SameFor(s, s', id)
  {
  }

  lemma ErasingSpares(s: Stores, i: Id, ms: set<Mod>, env: Env, id: Id)
    requires i != id
    ensures SameFor(s, Erased(s, i, ms, env), id)
  {
  }

  lemma SparesTwice(a: Stores, b: Stores, c: Stores, id: Id)
    requires SameFor(a, b, id) && SameFor(b, c, id)
    ensures SameFor(a, c, id)
  {
  }

  lemma SparesByNothing(s: Stores, id: Id)
    ensures SameFor(s, s, id)
  {
  }

  /** Operations on others leave alone what the stores hold of an entity that is gone. */
  lemma GoneIsSpared(s: Sys, op: Op, id: Id)
    requires id in s.used && id !in s.h.registry
    ensures SameFor(s.h.stores, Do(s, op).h.stores, id)
  {
    hide Attempted, Unknown, Locked, Noted, CommitResult, AfterCommit, Erased, OnlyGrows, SameFor, TableOk;
    SparesByNothing(s.h.stores, id);
    if Possible(s, op) {
      match op {
        case Create(i, input, t, now, env) =>
          AttemptSpares(s.h, i, input, t, 0, {}, env, id);
          var a := Attempted(s.h, i, input, t, 0, {}, env);
          ErasingSpares(a.stores, i, a.written, env, id);
          SparesTwice(s.h.stores, a.stores, Erased(a.stores, i, a.written, env), id);
        case Update(i, input, t, now, env) =>
          if i in s.h.registry {
            AttemptSpares(s.h, i, input, t, s.h.registry[i].version, s.h.registry[i].flags, env, id);
          }
        case Delete(i, t, env) =>
          if i in s.h.registry {
            ErasingSpares(s.h.stores, i, ERASABLE, env, id);
          }
        case Outside(m) =>
      }
    }
  }

  lemma AttemptSpares(h: State, i: Id, input: Input, t: TxnId, version: nat, base: set<Mod>, env: Env, id: Id)
    requires i != id
    ensures SameFor(h.stores, Attempted(h, i, input, t, version, base, env).stores, id)
  {
    hide Attempted, OnlyGrows, SameFor;
    AttemptedOk(h, i, input, t, version, base, env);
    GrowingSpares(h.stores, Attempted(h, i, input, t, version, base, env).stores, i, id);
  }

  lemma {:induction false} DeletedForGood(ops: seq<Op>, more: seq<Op>, id: Id)
    requires id in Exec(ops).used && id !in Exec(ops).h.registry
    ensures var s := Exec(ops + more);
      id in s.used && id !in s.h.registry && Read(s.h, id) == None && SameFor(Exec(ops).h.stores, s.h.stores, id)
    decreases |more|
  {
    hide Do, SameFor;
    if more == [] {
      assert ops + more == ops;
      SparesByNothing(Exec(ops).h.stores, id);
    } else {
      var n := |more| - 1;
      DeletedForGood(ops, more[..n], id);
      assert (ops + more)[..|ops + more| - 1] == ops + more[..n];
      GoneStaysGone(Exec(ops + more[..n]), more[n], id);
      GoneIsSpared(Exec(ops + more[..n]), more[n], id);
      SparesTwice(Exec(ops).h.stores, Exec(ops + more[..n]).h.stores, Exec(ops + more).h.stores, id);
    }
  }

  /**
   * After a successful delete no later run of whole operations makes the entity
   * readable again: its vector, document, and tensor are gone where deletion
   * worked, and all else the stores hold of it stays as it was.
   */
  lemma DeleteIsFinal(ops: seq<Op>, id: Id, t: TxnId, env: Env, more: seq<Op>)
    ensures var s, later := Exec(ops), Exec(ops + [Delete(id, t, env)] + more).h;
      Possible(s, Delete(id, t, env)) && Deleted(s.h, id, t, env).1.Ok? ==>
        && Read(later, id) == None
        && SameFor(s.h.stores.(data := s.h.stores.data - set m | m in ERASABLE && env.deletes(m) :: (m, id)), later.stores, id)
  {
    hide Possible, Deleted, Inv, SameFor;
    var s, op := Exec(ops), Delete(id, t, env);
    if Possible(s, op) && Deleted(s.h, id, t, env).1.Ok? {
      RunKeepsInv(ops, {});
      assert (ops + [op])[..|ops + [op]| - 1] == ops;
      assert Exec(ops + [op]) == Do(s, op);
      DeletedWasUsed(s, id, t, env);
      DeletedForGood(ops + [op], more, id);
      assert Exec(ops + [op]).h.stores == s.h.stores.(data := s.h.stores.data - set m | m in ERASABLE && env.deletes(m) :: (m, id)) by {
        DeleteErases(s.h, id, t, env);
      }
    }
  }

  lemma DeleteErases(h: State, id: Id, t: TxnId, env: Env)
    requires Deleted(h, id, t, env).1.Ok?
    ensures Deleted(h, id, t, env).0.stores == h.stores.(data := h.stores.data - set m | m in ERASABLE && env.deletes(m) :: (m, id))
  {
    hide Locked, Noted, AfterCommit, CommitResult, Listed;
    assert ERASABLE * ERASABLE == ERASABLE;
  }

  lemma DeletedWasUsed(s: Sys, id: Id, t: TxnId, env: Env)
    requires Inv(s, {}) && Possible(s, Delete(id, t, env)) && Deleted(s.h, id, t, env).1.Ok?
    ensures var s' := Do(s, Delete(id, t, env)); id in s'.used && id !in s'.h.registry
  {
    hide Backed, Unknown, Locked, Noted, CommitResult, AfterCommit, Erased;
  }

  // ---- What success means ------------------------------------------------------------------------

  lemma WriteElsewhere(s: Stores, id: Id, p: Part, o: Outcome, m: Mod)
    requires ModOf(p) != m
    ensures Lookup(Write(s, id, p, o).data, (m, id)) == Lookup(s.data, (m, id))
    ensures m == Provenance ==> Write(s, id, p, o).chains == s.chains
  {
  }

  /** A modality without a part is left alone. */
  lemma {:induction false} PopulatedElsewhere(s: Stores, id: Id, parts: seq<Part>, env: Env, m: Mod)
    requires m !in ModsOf(parts)
    ensures var s' := Populated(s, id, parts, env).stores;
      Lookup(s'.data, (m, id)) == Lookup(s.data, (m, id)) && (m == Provenance ==> s'.chains == s.chains)
    decreases |parts|
  {
    hide Write;
    if parts != [] {
      var o := env.writes(ModOf(parts[0]));
      assert ModsOf(parts)[0] == ModOf(parts[0]);
      WriteElsewhere(s, id, parts[0], o, m);
      assert m !in ModsOf(parts[1..]) by {
        forall k | 0 <= k < |parts| - 1 ensures ModsOf(parts[1..])[k] != m {
          assert ModsOf(parts[1..])[k] == ModsOf(parts)[k + 1];
        }
      }
      PopulatedElsewhere(Write(s, id, parts[0], o), id, parts[1..], env, m);
    }
  }

  /** What the store of the part's modality holds for `id` once the part is written. */
  predicate Stored(s: Stores, s': Stores, id: Id, p: Part) {
    match p
    case Links(rs) => forall r :: r in rs ==> (id, r) in s'.links
    case Event(e) => Entries(s'.chains, id) == Entries(s.chains, id) + [e]
    case Blob(m, d) => Lookup(s'.data, (m, id)) == Some(d)
  }

  lemma {:induction false} PopulatedStores(s: Stores, id: Id, parts: seq<Part>, env: Env, k: nat)
    requires k < Populated(s, id, parts, env).count && k < |parts|
    requires Distinct(ModsOf(parts)) && Proper(parts[k])
    ensures Stored(s, Populated(s, id, parts, env).stores, id, parts[k])
    decreases |parts|
  {
    hide Write, Stored;
    var o := env.writes(ModOf(parts[0]));
    var s1 := Write(s, id, parts[0], o);
    var s' := Populated(s1, id, parts[1..], env).stores;
    assert forall j :: 0 <= j < |parts| - 1 ==> ModsOf(parts[1..])[j] == ModsOf(parts)[j + 1];
    if k == 0 {
      PopulatedElsewhere(s1, id, parts[1..], env, ModOf(parts[0]));
      PopulatedGrows(s1, id, parts[1..], env);
      StoredStays(s, s1, s', id, parts[0]);
    } else {
      PopulatedStores(s1, id, parts[1..], env, k - 1);
      StoredAfterOther(s, s1, s', id, parts[0], parts[k], o);
    }
  }

  lemma StoredStays(s: Stores, s1: Stores, s': Stores, id: Id, p: Part)
    requires s1 == Write(s, id, p, Done) && OnlyGrows(s1, s', id) && Proper(p)
    requires Lookup(s'.data, (ModOf(p), id)) == Lookup(s1.data, (ModOf(p), id)) && (ModOf(p) == Provenance ==> s'.chains == s1.chains)
    ensures Stored(s, s', id, p)
  {
  }

  lemma StoredAfterOther(s: Stores, s1: Stores, s': Stores, id: Id, first: Part, p: Part, o: Outcome)
    requires s1 == Write(s, id, first, o) && ModOf(first) != ModOf(p) && Stored(s1, s', id, p)
    ensures Stored(s, s', id, p)
  {
  }

  lemma ShareAmongParts(input: Input, m: Mod)
    requires m != Temporal
    ensures m in ModsOf(Parts(input)) <==> Share(input, m).Some?
    ensures m in ModsOf(Parts(input)) ==> Share(input, m).value in Parts(input)
  {
    hide Share, ModOf, Selected, PartsUpTo;
    PartsAreGiven(input, 7);
    SelectedHas(Given(input), 7, m);
    PartsAreProper(input, 7);
  }

  /** After every write succeeded, each modality holds its share, or what it held. */
  lemma AllStored(s: Stores, id: Id, input: Input, env: Env, m: Mod)
    requires Populated(s, id, Parts(input), env).count == |Parts(input)| && m != Temporal
    ensures var s' := Populated(s, id, Parts(input), env).stores;
      if Share(input, m).Some? then Stored(s, s', id, Share(input, m).value)
      else Lookup(s'.data, (m, id)) == Lookup(s.data, (m, id)) && (m == Provenance ==> s'.chains == s.chains)
  {
    hide Stored, Share, Populated, Proper, Distinct;
    var parts := Parts(input);
    ShareAmongParts(input, m);
    if Share(input, m).Some? {
      var k :| 0 <= k < |parts| && parts[k] == Share(input, m).value;
      PartsDiffer(input);
      PartsAreProper(input, 7);
      PopulatedStores(s, id, parts, env, k);
    } else {
      PopulatedElsewhere(s, id, parts, env, m);
    }
  }

  lemma AttemptSucceeded(h: State, id: Id, input: Input, t: TxnId, version: nat, base: set<Mod>, env: Env)
    ensures var a, p := Attempted(h, id, input, t, version, base, env), Populated(h.stores, id, Parts(input), env);
      a.error.None? ==>
      && p.count == |Parts(input)| && a.stores == p.stores.(history := a.stores.history)
      && |Entries(a.stores.history, id)| == |Entries(h.stores.history, id)| + 1
      && (forall m :: m in a.written <==> m == Temporal || Share(input, m).Some?)
  {
    hide Parts, Populated, Locked, Noted, AfterCommit, AfterRollback, CommitResult, ModsOf, Share, OnlyGrows;
    var p := Populated(h.stores, id, Parts(input), env);
    PopulatedGrows(h.stores, id, Parts(input), env);
    SnappedGrows(p.stores, id, Snapshot(input, base + Range(ModsOf(Parts(input)))), env.writes(Temporal));
    forall m | m != Temporal ensures m in ModsOf(Parts(input)) <==> Share(input, m).Some? {
      ShareAmongParts(input, m);
    }
    TemporalHasNoShare(input);
  }

  lemma TemporalHasNoShare(input: Input)
    ensures Share(input, Temporal).None?
  {
  }

  function Newer<T>(given: Option<T>, before: Option<T>): Option<T> {
    if given.Some? then given else before
  }

  /** An entity as read when every store can be. */
  function Read(h: State, id: Id): Option<Hexad> {
    var r := Loaded(h, id, m => true);
    if r.Ok? then r.value else None
  }

  lemma ReadMeans(h: State, id: Id)
    ensures Loaded(h, id, m => true) == Ok(Read(h, id))
    ensures Read(h, id).Some? <==> id in h.registry
    ensures Read(h, id).Some? ==>
      var (v, s, f) := (Read(h, id).value, h.stores, h.registry[id].flags);
      && v.status == h.registry[id] && v.node == (Graph in f)
      && v.vector == Blobbed(s, id, Vector, f) && v.document == Blobbed(s, id, Document, f)
      && v.tensor == Blobbed(s, id, Tensor, f) && v.semantic == Blobbed(s, id, Semantic, f) && v.spatial == Blobbed(s, id, Spatial, f)
      && v.versionCount == Capped(|Entries(s.history, id)|)
      && v.chainLength == if Provenance in f then |Entries(s.chains, id)| else 0
  {
  }

  /** How a reader sees an entity before and after an input was written to it. */
  ghost predicate ReadsAs(before: Option<Hexad>, input: Input, s: Stores, id: Id, now: Hexad) {
    var was := if before.Some? then before.value else Hexad(now.status, false, None, None, None, None, 0, 0, None);
    && now.node == (was.node || input.graph.Some?)
    && now.vector == Newer(input.vector, was.vector) && now.document == Newer(input.document, was.document)
    && now.tensor == Newer(input.tensor, was.tensor) && now.semantic == Newer(input.semantic, was.semantic)
    && now.spatial == Newer(input.spatial, was.spatial)
    && now.versionCount == (if |Entries(s.history, id)| < 1000 then |Entries(s.history, id)| + 1 else 1000)
    && now.chainLength == if input.provenance.Some? then |Entries(s.chains, id)| + 1 else was.chainLength
  }

  lemma BlobAfter(s: Stores, s': Stores, id: Id, input: Input, env: Env, m: Mod, d: Option<Data>, flags: set<Mod>, flags': set<Mod>)
    requires Populated(s, id, Parts(input), env).count == |Parts(input)|
    requires s'.data == Populated(s, id, Parts(input), env).stores.data
    requires m != Temporal && Share(input, m) == if d.Some? then Some(Blob(m, d.value)) else None
    requires m in flags' <==> m in flags || d.Some?
    ensures Blobbed(s', id, m, flags') == Newer(d, Blobbed(s, id, m, flags))
  {
    hide Parts, Populated, Share;
    AllStored(s, id, input, env, m);
  }

  lemma ChainAfter(s: Stores, s': Stores, id: Id, input: Input, env: Env)
    requires Populated(s, id, Parts(input), env).count == |Parts(input)|
    requires s'.chains == Populated(s, id, Parts(input), env).stores.chains
    ensures |Entries(s'.chains, id)| == |Entries(s.chains, id)| + if input.provenance.Some? then 1 else 0
  {
    hide Parts, Populated;
    AllStored(s, id, input, env, Provenance);
  }

  lemma UpdateAnswers(h: State, id: Id, input: Input, t: TxnId, now: int, env: Env)
    ensures var (h', r) := Updated(h, id, input, t, now, env);
      r.Ok? ==>
      && id in h.registry
      && r.value.status == Status(id, h.registry[id].createdAt, now, |Entries(h.stores.history, id)| + 1,
                                  h.registry[id].flags + Given(input) + {Temporal})
      && r.value == Hexad(r.value.status, input.graph.Some?, input.vector, input.document, input.tensor, input.semantic,
                          |Entries(h.stores.history, id)| + 1,
                          if input.provenance.Some? then |Entries(h.stores.chains, id)| + 1 else 0, input.spatial)
  {
    hide Populated, Attempted, Parts;
    if id in h.registry {
      AttemptSucceeded(h, id, input, t, h.registry[id].version, h.registry[id].flags, env);
      var a := Attempted(h, id, input, t, h.registry[id].version, h.registry[id].flags, env);
      if a.error.None? {
        ChainAfter(h.stores, a.stores, id, input, env);
        assert h.registry[id].flags + a.written == h.registry[id].flags + Given(input) + {Temporal};
      }
    }
  }

  /**
   * A successful update answers with what was given and the new counts; a
   * reader sees what was given, and elsewhere what was there.
   */
  lemma UpdateThenGet(h: State, id: Id, input: Input, t: TxnId, now: int, env: Env)
    ensures var (h', r) := Updated(h, id, input, t, now, env);
      r.Ok? ==>
      && id in h.registry && Read(h', id).Some? && Read(h', id).value.status == r.value.status
      && r.value.status == Status(id, h.registry[id].createdAt, now, |Entries(h.stores.history, id)| + 1,
                                  h.registry[id].flags + Given(input) + {Temporal})
      && r.value == Hexad(r.value.status, input.graph.Some?, input.vector, input.document, input.tensor, input.semantic,
                          |Entries(h.stores.history, id)| + 1,
                          if input.provenance.Some? then |Entries(h.stores.chains, id)| + 1 else 0, input.spatial)
      && ReadsAs(Read(h, id), input, h.stores, id, Read(h', id).value)
  {
    UpdateAnswers(h, id, input, t, now, env);
    UpdateIsRead(h, id, input, t, now, env);
  }

  lemma UpdateIsRead(h: State, id: Id, input: Input, t: TxnId, now: int, env: Env)
    ensures var (h', r) := Updated(h, id, input, t, now, env);
      r.Ok? ==>
      && Read(h', id).Some? && Read(h', id).value.status == r.value.status
      && ReadsAs(Read(h, id), input, h.stores, id, Read(h', id).value)
  {
    hide Populated, Attempted, Parts, Blobbed, Loaded;
    if Updated(h, id, input, t, now, env).1.Err? {
      return;
    }
    var h', flags := Updated(h, id, input, t, now, env).0, h.registry[id].flags;
    var flags' := h'.registry[id].flags;
    AttemptSucceeded(h, id, input, t, h.registry[id].version, flags, env);
    ReadMeans(h, id);
    ReadMeans(h', id);
    BlobAfter(h.stores, h'.stores, id, input, env, Vector, input.vector, flags, flags');
    BlobAfter(h.stores, h'.stores, id, input, env, Document, input.document, flags, flags');
    BlobAfter(h.stores, h'.stores, id, input, env, Tensor, input.tensor, flags, flags');
    BlobAfter(h.stores, h'.stores, id, input, env, Semantic, input.semantic, flags, flags');
    BlobAfter(h.stores, h'.stores, id, input, env, Spatial, input.spatial, flags, flags');
    ChainAfter(h.stores, h'.stores, id, input, env);
  }

  /** After a successful create a reader sees exactly what the create answered: what was given, in one version. */
  lemma CreateThenGet(h: State, used: set<Id>, id: Id, input: Input, t: TxnId, now: int, env: Env)
    requires Within(h, used) && id !in used
    ensures var (h', r) := Created(h, id, input, t, now, env);
      r.Ok? ==>
      && Read(h', id) == Some(r.value) && r.value.status == Status(id, now, now, 1, Given(input) + {Temporal})
      && r.value == Hexad(r.value.status, input.graph.Some?, input.vector, input.document, input.tensor, input.semantic,
                          1, if input.provenance.Some? then 1 else 0, input.spatial)
  {
    hide Populated, Attempted, Parts, Blobbed, Loaded;
    if Created(h, id, input, t, now, env).1.Err? {
      return;
    }
    var h' := Created(h, id, input, t, now, env).0;
    var flags' := h'.registry[id].flags;
    AttemptSucceeded(h, id, input, t, 0, {}, env);
    ReadMeans(h', id);
    NothingBlobbed(h.stores, id);
    BlobAfter(h.stores, h'.stores, id, input, env, Vector, input.vector, {}, flags');
    BlobAfter(h.stores, h'.stores, id, input, env, Document, input.document, {}, flags');
    BlobAfter(h.stores, h'.stores, id, input, env, Tensor, input.tensor, {}, flags');
    BlobAfter(h.stores, h'.stores, id, input, env, Semantic, input.semantic, {}, flags');
    BlobAfter(h.stores, h'.stores, id, input, env, Spatial, input.spatial, {}, flags');
    ChainAfter(h.stores, h'.stores, id, input, env);
  }

  lemma NothingBlobbed(s: Stores, id: Id)
    ensures forall m :: Blobbed(s, id, m, {}) == None
  {
  }

  /** A deleted entity is gone for readers; what cannot be deleted by id stays in the stores. */
  lemma DeleteForgets(h: State, id: Id, t: TxnId, env: Env)
    ensures var (h', r) := Deleted(h, id, t, env);
      r.Ok? ==>
      && Read(h', id) == None && h'.registry == h.registry - {id}
      && (forall m, i :: Lookup(h'.stores.data, (m, i)) ==
            if i == id && m in {Vector, Document, Tensor} && env.deletes(m) then None else Lookup(h.stores.data, (m, i)))
      && h'.stores.links == h.stores.links && h'.stores.chains == h.stores.chains && h'.stores.history == h.stores.history
  {
    hide Locked, Noted, AfterCommit, CommitResult, Listed;
  }

  // ---- What failure leaves --------------------------------------------------------------------------

  predicate AllProper(parts: seq<Part>) {
    forall k :: 0 <= k < |parts| ==> Proper(parts[k])
  }

  lemma WriteErasable(s: Stores, id: Id, p: Part, o: Outcome, m: Mod)
    requires m in ERASABLE && Proper(p)
    ensures (m, id) in Write(s, id, p, o).data <==> (m, id) in s.data || (ModOf(p) == m && (o.Done? || o.landed > 0))
  {
  }

  /** An erasable modality has data if it had, if it was written, or if the failing write landed there. */
  lemma {:induction false} PopulatedErasable(s: Stores, id: Id, parts: seq<Part>, env: Env, m: Mod)
    requires m in ERASABLE && AllProper(parts)
    ensures var p := Populated(s, id, parts, env);
      p.count <= |parts|
      && ((m, id) in p.stores.data <==>
            || (m, id) in s.data || m in ModsOf(parts[..p.count])
            || (p.count < |parts| && ModOf(parts[p.count]) == m && env.writes(m).Failed? && env.writes(m).landed > 0))
    decreases |parts|
  {
    hide Write, Proper;
    if parts != [] {
      var o := env.writes(ModOf(parts[0]));
      var s1 := Write(s, id, parts[0], o);
      WriteErasable(s, id, parts[0], o, m);
      if o.Done? {
        PopulatedErasable(s1, id, parts[1..], env, m);
        FirstAndRest(parts, Populated(s1, id, parts[1..], env).count, m);
      }
    }
  }

  lemma FirstAndRest(parts: seq<Part>, n: nat, m: Mod)
    requires parts != [] && n <= |parts| - 1
    ensures m in ModsOf(parts[..n + 1]) <==> ModOf(parts[0]) == m || m in ModsOf(parts[1..][..n])
  {
    var all, rest := ModsOf(parts[..n + 1]), ModsOf(parts[1..][..n]);
    assert all[0] == ModOf(parts[0]);
    assert forall k :: 0 <= k < n ==> rest[k] == all[k + 1];
  }

  /** The first modality given, in order from the `n`-th on, whose write fails; without one, the history. */
  function FailingFrom(input: Input, env: Env, n: nat): Mod
    requires n <= 7
    decreases 7 - n
  {
    if n == 7 then Temporal
    else if Share(input, ORDER[n]).Some? && env.writes(ORDER[n]).Failed? then ORDER[n]
    else FailingFrom(input, env, n + 1)
  }

  function Failing(input: Input, env: Env): Mod {
    FailingFrom(input, env, 0)
  }

  /** It is the one that fails after everything given before it was written. */
  lemma {:induction false} FailingIs(input: Input, env: Env, m: Mod, n: nat)
    requires n <= Place(m)
    requires m != Temporal ==> Share(input, m).Some? && env.writes(m).Failed?
    requires forall b :: Share(input, b).Some? && Place(b) < Place(m) ==> env.writes(b).Done?
    ensures FailingFrom(input, env, n) == m
    decreases 7 - n
  {
    hide Share;
    if n < 7 {
      assert Place(ORDER[n]) == n;
      if n < Place(m) {
        FailingIs(input, env, m, n + 1);
      } else {
        SamePlace(m, ORDER[n]);
      }
    } else {
      SamePlace(m, Temporal);
    }
  }

  lemma SamePlace(a: Mod, b: Mod)
    requires Place(a) == Place(b)
    ensures a == b
  {
  }

  /** Data of `m` stays behind: it was written before the failing modality and cannot be deleted, or its own failing write landed. */
  predicate Stuck(input: Input, env: Env, m: Mod) {
    && Share(input, m).Some?
    && (if m == Failing(input, env) then env.writes(m).Failed? && env.writes(m).landed > 0
        else Place(m) < Place(Failing(input, env)) && !env.deletes(m))
  }

  /** What was counted as written did not fail. */
  lemma {:induction false} CountedAreDone(s: Stores, id: Id, parts: seq<Part>, env: Env, k: nat)
    requires k < Populated(s, id, parts, env).count && k < |parts|
    ensures env.writes(ModOf(parts[k])).Done?
    decreases |parts|
  {
    hide Write;
    if k > 0 {
      CountedAreDone(Write(s, id, parts[0], env.writes(ModOf(parts[0]))), id, parts[1..], env, k - 1);
    }
  }

  lemma EarlierAreDone(s: Stores, id: Id, input: Input, env: Env, b: Mod)
    requires var p := Populated(s, id, Parts(input), env);
      Share(input, b).Some? && p.count <= |Parts(input)|
      && Place(b) < if p.count < |Parts(input)| then Place(ModOf(Parts(input)[p.count])) else Place(Temporal)
    ensures env.writes(b).Done?
  {
    hide Parts, Populated, Share, Place;
    var p := Populated(s, id, Parts(input), env);
    TemporalHasNoShare(input);
    BeforeFailing(input, p.count, b);
    ModsOfPrefix(Parts(input), p.count, b);
    var k :| 0 <= k < p.count && ModOf(Parts(input)[k]) == b;
    CountedAreDone(s, id, Parts(input), env, k);
  }

  /** A failed write is reported for just that modality. */
  lemma FailingIsReported(h: State, id: Id, input: Input, t: TxnId, version: nat, base: set<Mod>, env: Env)
    ensures var e := Attempted(h, id, input, t, version, base, env).error;
      e.Some? && e.value.WriteFailed? ==> e.value.m == Failing(input, env)
  {
    hide Parts, Locked, Noted, AfterCommit, AfterRollback, CommitResult, ModsOf, Share, Place, Populated;
    var e := Attempted(h, id, input, t, version, base, env).error;
    if e.Some? && e.value.WriteFailed? {
      var p := Populated(h.stores, id, Parts(input), env);
      PopulatedGrows(h.stores, id, Parts(input), env);
      var m := if p.count < |Parts(input)| then ModOf(Parts(input)[p.count]) else Temporal;
      assert e.value.m == m;
      if p.count < |Parts(input)| {
        FailingHasShare(input, p.count);
      }
      forall b | Share(input, b).Some? && Place(b) < Place(m) ensures env.writes(b).Done? {
        EarlierAreDone(h.stores, id, input, env, b);
      }
      FailingIs(input, env, m, 0);
    }
  }

  lemma BeforeFailing(input: Input, count: nat, m: Mod)
    requires count <= |Parts(input)| && m != Temporal
    ensures m in ModsOf(Parts(input)[..count]) <==>
      Share(input, m).Some? && Place(m) < if count < |Parts(input)| then Place(ModOf(Parts(input)[count])) else Place(Temporal)
  {
    hide Share, ModOf, Place, Selected, PartsUpTo, Ascending;
    var parts := Parts(input);
    ShareAmongParts(input, m);
    PartsAreGiven(input, 7);
    SelectedAscends(Given(input), 7);
    PlaceOfTemporal();
    assert ModsOf(parts[..count]) == ModsOf(parts)[..count];
    PrefixByPlace(ModsOf(parts), count, m);
  }

  lemma PrefixByPlace(ms: seq<Mod>, count: nat, m: Mod)
    requires Ascending(ms, 7) && count <= |ms|
    ensures m in ms[..count] <==> m in ms && Place(m) < if count < |ms| then Place(ms[count]) else 7
  {
    hide Place;
    if m in ms {
      var k :| 0 <= k < |ms| && ms[k] == m;
      assert k < count ==> ms[..count][k] == m;
      assert count < |ms| && k > count ==> Place(ms[count]) < Place(ms[k]);
    }
  }

  lemma PlaceOfTemporal()
    ensures Place(Temporal) == 7
  {
  }

  ghost predicate StoreUnchanged(s: Stores, s': Stores, m: Mod) {
    forall i :: Lookup(s'.data, (m, i)) == Lookup(s.data, (m, i))
  }

  lemma FailingHasShare(input: Input, count: nat)
    requires count < |Parts(input)|
    ensures Share(input, ModOf(Parts(input)[count])) == Some(Parts(input)[count])
  {
    PartsAreProper(input, 7);
  }

  /** What a failed attempt leaves in an erasable store, deletions counted. */
  lemma FailedAttempt(h: State, id: Id, input: Input, t: TxnId, env: Env, m: Mod)
    requires m in ERASABLE && (m, id) !in h.stores.data
    requires var e := Attempted(h, id, input, t, 0, {}, env).error; e.Some? && e.value.WriteFailed?
    ensures var a := Attempted(h, id, input, t, 0, {}, env);
      (m, id) in a.stores.data && !(m in a.written && env.deletes(m)) <==> Stuck(input, env, m)
  {
    hide Parts, Populated, Locked, Noted, AfterCommit, AfterRollback, CommitResult, ModsOf, Share, Proper, Place, Failing;
    FailingIsReported(h, id, input, t, 0, {}, env);
    var parts, p := Parts(input), Populated(h.stores, id, Parts(input), env);
    PartsAreProper(input, 7);
    assert AllProper(parts) by { PartsAllProper(input); }
    PopulatedErasable(h.stores, id, parts, env, m);
    PopulatedGrows(h.stores, id, parts, env);
    BeforeFailing(input, p.count, m);
    assert parts[..|parts|] == parts;
    TemporalHasNoShare(input);
    if p.count < |parts| {
      FailingHasShare(input, p.count);
    }
  }

  lemma PartsAllProper(input: Input)
    ensures AllProper(Parts(input))
  {
    PartsAreProper(input, 7);
  }

  /**
   * A failed create leaves the registry unchanged, and the vector, document, and
   * tensor stores too, except exactly where data is stuck. With all-or-nothing
   * writes and working deletes nothing is.
   */
  lemma FailedCreateIsUndone(h: State, used: set<Id>, id: Id, input: Input, t: TxnId, now: int, env: Env)
    requires Within(h, used) && id !in used && Unknown(h.manager, t)
    ensures var (h', r) := Created(h, id, input, t, now, env);
      r.Err? ==>
      && h'.registry == h.registry
      && (!r.error.WriteFailed? ==> h'.stores == h.stores)
      && (r.error.WriteFailed? ==>
            && r.error.m == Failing(input, env)
            && forall m :: m in ERASABLE ==> (StoreUnchanged(h.stores, h'.stores, m) <==> !Stuck(input, env, m)))
  {
    hide Attempted, Unknown, Stuck, LeftClean, RaisedOnce, Failing;
    FailingIsReported(h, id, input, t, 0, {}, env);
    var h', r := Created(h, id, input, t, now, env).0, Created(h, id, input, t, now, env).1;
    if r.Ok? {
      return;
    }
    CreateLeavesClean(h, id, input, t, now, env);
    if r.error.WriteFailed? {
      var a := Attempted(h, id, input, t, 0, {}, env);
      AttemptedOk(h, id, input, t, 0, {}, env);
      forall m | m in ERASABLE ensures StoreUnchanged(h.stores, h'.stores, m) <==> !Stuck(input, env, m) {
        FailedAttempt(h, id, input, t, env, m);
        ErasedAt(h.stores, a.stores, id, a.written, env, m);
      }
    } else {
      RefusedCreateWritesNothing(h, id, input, t, now, env);
    }
  }

  lemma ErasedAt(s: Stores, s1: Stores, id: Id, written: set<Mod>, env: Env, m: Mod)
    requires m in ERASABLE && (m, id) !in s.data && OnlyGrows(s, s1, id)
    ensures StoreUnchanged(s, Erased(s1, id, written, env), m) <==> !((m, id) in s1.data && !(m in written && env.deletes(m)))
  {
    var s' := Erased(s1, id, written, env);
    assert (m, id) in s'.data <==> (m, id) in s1.data && !(m in written && env.deletes(m));
    if StoreUnchanged(s, s', m) {
      assert Lookup(s'.data, (m, id)) == Lookup(s.data, (m, id));
    }
    forall i | i != id ensures Lookup(s'.data, (m, i)) == Lookup(s.data, (m, i)) {
      assert Lookup(s1.data, (m, i)) == Lookup(s.data, (m, i));
    }
  }

  lemma RefusedCreateWritesNothing(h: State, id: Id, input: Input, t: TxnId, now: int, env: Env)
    requires Created(h, id, input, t, now, env).1.Err? && !Created(h, id, input, t, now, env).1.error.WriteFailed?
    requires Created(h, id, input, t, now, env).1 != Err(CommitFailed)
    ensures Created(h, id, input, t, now, env).0.stores == h.stores
  {
    hide Parts, Populated, Locked, Noted, AfterCommit, AfterRollback, CommitResult, ModsOf;
    assert Erased(h.stores, id, {}, env).data == h.stores.data;
  }

  /** After a create, the graph flag is backed exactly when the input lists a relation. */
  lemma GraphBackedExactly(h: State, used: set<Id>, id: Id, input: Input, t: TxnId, now: int, env: Env)
    requires Within(h, used) && id !in used && input.graph.Some?
    ensures var (h', r) := Created(h, id, input, t, now, env);
      r.Ok? ==> id in h'.registry && Graph in h'.registry[id].flags && (Has(h'.stores, Graph, id) <==> input.graph.value != [])
  {
    hide Attempted, Parts;
    if Created(h, id, input, t, now, env).1.Err? {
      return;
    }
    AttemptSucceeded(h, id, input, t, 0, {}, env);
    AttemptedOk(h, id, input, t, 0, {}, env);
    if input.graph.value == [] {
      LinksPartIsGraph(input);
      NoLinksWritten(h.stores, id, Parts(input), env);
    }
  }

  lemma LinksPartIsGraph(input: Input)
    ensures forall k :: 0 <= k < |Parts(input)| && Parts(input)[k].Links? ==>
      input.graph == Some(Parts(input)[k].relations)
  {
    PartsAreProper(input, 7);
  }

  /** Parts that list no relation write no link. */
  lemma {:induction false} NoLinksWritten(s: Stores, id: Id, parts: seq<Part>, env: Env)
    requires forall k :: 0 <= k < |parts| && parts[k].Links? ==> parts[k].relations == []
    ensures Populated(s, id, parts, env).stores.links == s.links
    decreases |parts|
  {
    if parts != [] {
      NoLinksWritten(Write(s, id, parts[0], env.writes(ModOf(parts[0]))), id, parts[1..], env);
    }
  }
}
