/**
 * The plan cache with its prepares cut in two: a prepare looks for its statement
 * under one lock and touches or enters it under another, so that others act in
 * between. Every other operation holds its locks throughout.
 */
module PlanCacheSections {
  import opened PlanCaches
  import opened PlanCacheRuns

  type Caller = nat

  /** What a caller in the middle of a prepare has found. */
  datatype Call = Hit(query: string, plan: Plan) | Miss(query: string, plan: Plan)

  datatype World = World(cache: Cache, calls: map<Caller, Call>)

  datatype Section =
    | Check(c: Caller, query: string, plan: Plan)
    | TouchHit(c: Caller, now: int)
    | EnterMiss(c: Caller, now: int)
    | Whole(op: Op)

  const FRESH := World(EMPTY, map[])

  predicate HasHit(w: World, c: Caller) {
    c in w.calls && w.calls[c].Hit?
  }

  predicate HasMiss(w: World, c: Caller) {
    c in w.calls && w.calls[c].Miss?
  }

  function Found(cfg: Config, w: World, query: string, plan: Plan): Call {
    if Fingerprint(cfg, query) in w.cache.statements then Hit(query, plan) else Miss(query, plan)
  }

  /** Room is made whenever the cache is full, also for a statement that has been entered since. */
  ghost predicate Enters(cfg: Config, c: Cache, query: string, plan: Plan, now: int, c': Cache) {
    exists room :: (if |c.statements| >= cfg.maxEntries then EvictedOne(cfg, c, room) else room == c)
                   && c' == Insert(cfg, room, NewStmt(cfg, query, plan, now))
  }

  /** What a section may do; one that is not enabled changes nothing. */
  ghost predicate Moves(cfg: Config, w: World, section: Section, w': World) {
    match section
    case Check(c, query, plan) =>
      w' == if c in w.calls then w else w.(calls := w.calls[c := Found(cfg, w, query, plan)])
    case TouchHit(c, now) =>
      if !HasHit(w, c) then w' == w
      else
        var id := Fingerprint(cfg, w.calls[c].query);
        w' == World(if id in w.cache.statements then Touch(w.cache, id, now) else w.cache, w.calls - {c})
    case EnterMiss(c, now) =>
      if !HasMiss(w, c) then w' == w
      else Enters(cfg, w.cache, w.calls[c].query, w.calls[c].plan, now, w'.cache) && w'.calls == w.calls - {c}
    case Whole(op) =>
      !op.Prepare? && Next(cfg, w.cache, op, w'.cache) && w'.calls == w.calls
  }

  ghost predicate IsInterleaving(cfg: Config, worlds: seq<World>, sections: seq<Section>) {
    && |worlds| == |sections| + 1 && worlds[0] == FRESH
    && forall i :: 0 <= i < |sections| ==> Moves(cfg, worlds[i], sections[i], worlds[i + 1])
  }

  lemma ShorterInterleaving(cfg: Config, worlds: seq<World>, sections: seq<Section>)
    requires IsInterleaving(cfg, worlds, sections) && sections != []
    ensures IsInterleaving(cfg, worlds[..|sections|], sections[..|sections| - 1])
  {
  }

  /** Run without interruption, the two sections are a prepare. */
  lemma SectionsOfPrepare(cfg: Config, w: World, c: Caller, query: string, plan: Plan, now: int, w1: World, w2: World)
    requires c !in w.calls && Moves(cfg, w, Check(c, query, plan), w1)
    requires Moves(cfg, w1, if HasHit(w1, c) then TouchHit(c, now) else EnterMiss(c, now), w2)
    ensures Next(cfg, w.cache, Prepare(query, plan, now), w2.cache) && w2.calls == w.calls
  {
    hide Fingerprint, NewStmt, EvictedOne, Insert, Touch;
    assert w.calls[c := Found(cfg, w, query, plan)] - {c} == w.calls;
  }

  // ---- Index agreement ------------------------------------------------------------------

  /** How each section changes the dangling ids. */
  function DanglingAfterSection(cfg: Config, w: World, section: Section, before: set<Id>): set<Id> {
    match section
    case EnterMiss(c, _) => if HasMiss(w, c) then before - {Fingerprint(cfg, w.calls[c].query)} else before
    case Whole(op) => DanglingAfter(cfg, w.cache, op, before)
    case _ => before
  }

  function LeftBySections(cfg: Config, worlds: seq<World>, sections: seq<Section>): set<Id>
    requires |worlds| == |sections| + 1
    decreases |sections|
  {
    if sections == [] then {}
    else
      var n := |sections| - 1;
      DanglingAfterSection(cfg, worlds[n], sections[n], LeftBySections(cfg, worlds[..n + 1], sections[..n]))
  }

  lemma EnterKeepsIndex(cfg: Config, c: Cache, query: string, plan: Plan, now: int, c': Cache)
    requires IndexInv(cfg, c) && Enters(cfg, c, query, plan, now, c')
    ensures IndexInv(cfg, c') && Dangling(c') == Dangling(c) - {Fingerprint(cfg, query)}
  {
    hide IndexInv, Dangling, EvictedOne, Insert, NewStmt, Fingerprint;
    var room :| (if |c.statements| >= cfg.maxEntries then EvictedOne(cfg, c, room) else room == c)
                && c' == Insert(cfg, room, NewStmt(cfg, query, plan, now));
    if |c.statements| >= cfg.maxEntries {
      EvictedOneKeepsIndex(cfg, c, room);
    }
    InsertKeepsIndex(cfg, room, query, plan, now);
  }

  lemma SectionKeepsIndex(cfg: Config, w: World, section: Section, w': World)
    requires IndexInv(cfg, w.cache) && Moves(cfg, w, section, w')
    ensures IndexInv(cfg, w'.cache) && Dangling(w'.cache) == DanglingAfterSection(cfg, w, section, Dangling(w.cache))
  {
    hide IndexInv, Next, Dangling, DanglingAfter, Enters, Fingerprint;
    match section {
      case TouchHit(c, now) =>
        if HasHit(w, c) && Fingerprint(cfg, w.calls[c].query) in w.cache.statements {
          var id := Fingerprint(cfg, w.calls[c].query);
          RewriteKeepsIndex(cfg, w.cache, id, w.cache.statements[id].(lastUsed := now));
        }
      case EnterMiss(c, now) =>
        if HasMiss(w, c) {
          EnterKeepsIndex(cfg, w.cache, w.calls[c].query, w.calls[c].plan, now, w'.cache);
        }
      case Whole(op) => StepKeepsIndex(cfg, w.cache, op, w'.cache);
      case _ =>
    }
  }

  lemma {:induction false} InterleavingKeepsIndex(cfg: Config, worlds: seq<World>, sections: seq<Section>)
    requires IsInterleaving(cfg, worlds, sections)
    ensures var c := worlds[|sections|].cache; IndexInv(cfg, c) && Dangling(c) == LeftBySections(cfg, worlds, sections)
    decreases |sections|
  {
    hide IndexInv, Moves, Dangling, DanglingAfterSection;
    if sections == [] {
      EmptyIndex(cfg);
    } else {
      var n := |sections| - 1;
      ShorterInterleaving(cfg, worlds, sections);
      InterleavingKeepsIndex(cfg, worlds[..n + 1], sections[..n]);
      SectionKeepsIndex(cfg, worlds[n], sections[n], worlds[n + 1]);
    }
  }

  /**
   * In every interleaving of the sections each resident id is the fingerprint of
   * its query and mapped to itself, and the ids mapped but not resident are
   * exactly those the run left dangling.
   */
  lemma MapsAgreeInterleaved(cfg: Config, worlds: seq<World>, sections: seq<Section>)
    requires IsInterleaving(cfg, worlds, sections)
    ensures var c := worlds[|sections|].cache;
      && (forall id :: id in c.statements ==>
            Fingerprint(cfg, c.statements[id].query) == id && id in c.fingerprints && c.fingerprints[id] == id)
      && c.fingerprints.Keys - c.statements.Keys == LeftBySections(cfg, worlds, sections)
  {
    InterleavingKeepsIndex(cfg, worlds, sections);
  }

  // ---- Size ---------------------------------------------------------------------------------

  /** The ids an entering prepare takes out. */
  function Lost(c: Cache, c': Cache): set<Id> {
    c.statements.Keys - c'.statements.Keys
  }

  /** What entering does to the number of statements: at most one goes, only when the cache is full. */
  lemma EnterSize(cfg: Config, c: Cache, query: string, plan: Plan, now: int, c': Cache)
    requires Enters(cfg, c, query, plan, now, c')
    ensures var id := Fingerprint(cfg, query);
      && id in c'.statements && c'.statements[id] == NewStmt(cfg, query, plan, now)
      && |Lost(c, c')| <= 1 && (Lost(c, c') != {} ==> |c.statements| >= cfg.maxEntries)
      && |c'.statements| == |c.statements| - |Lost(c, c')| + (if id in c.statements then 0 else 1)
      && (id !in c.statements && |c.statements| >= cfg.maxEntries && c.statements != map[] ==> |Lost(c, c')| == 1)
  {
    hide Fingerprint, LeastRecentlyUsed, NewStmt, Insert, Drop, Lost;
    var id, stmt := Fingerprint(cfg, query), NewStmt(cfg, query, plan, now);
    assert stmt.id == id by { NewStmtId(cfg, query, plan, now); }
    var room :| (if |c.statements| >= cfg.maxEntries then EvictedOne(cfg, c, room) else room == c) && c' == Insert(cfg, room, stmt);
    if |c.statements| >= cfg.maxEntries && c.statements != map[] {
      var out :| LeastRecentlyUsed(c, out) && room == Drop(cfg, c, out);
      LruIsResident(c, out);
      InsertAfterDrop(cfg, c, out, stmt);
    } else {
      InsertOnly(cfg, c, stmt);
    }
  }

  lemma NewStmtId(cfg: Config, query: string, plan: Plan, now: int)
    ensures NewStmt(cfg, query, plan, now).id == Fingerprint(cfg, query)
  {
  }

  lemma InsertAfterDrop(cfg: Config, c: Cache, out: Id, stmt: Stmt)
    requires out in c.statements
    ensures var c' := Insert(cfg, Drop(cfg, c, out), stmt);
      && stmt.id in c'.statements && c'.statements[stmt.id] == stmt && Lost(c, c') == (if out == stmt.id then {} else {out})
      && |c'.statements| == |c.statements| - |Lost(c, c')| + (if stmt.id in c.statements then 0 else 1)
  {
    hide Fingerprint;
    var c' := Insert(cfg, Drop(cfg, c, out), stmt);
    assert c'.statements == (c.statements - {out})[stmt.id := stmt];
    KeysAfterDrop(c.statements, out, stmt.id, stmt);
    CountKeys(c.statements.Keys, c'.statements.Keys, stmt.id, Lost(c, c'));
  }

  lemma KeysAfterDrop(m: map<Id, Stmt>, out: Id, id: Id, stmt: Stmt)
    requires out in m
    ensures var (m', lost) := ((m - {out})[id := stmt], if out == id then {} else {out});
      m.Keys - m'.Keys == lost && m'.Keys == m.Keys - lost + {id}
  {
    var m' := (m - {out})[id := stmt];
    assert m'.Keys == m.Keys - {out} + {id};
    assert m.Keys - {id} == m.Keys - {id} + {};
  }

  lemma InsertOnly(cfg: Config, c: Cache, stmt: Stmt)
    ensures var c' := Insert(cfg, c, stmt);
      && stmt.id in c'.statements && c'.statements[stmt.id] == stmt && Lost(c, c') == {}
      && |c'.statements| == |c.statements| + (if stmt.id in c.statements then 0 else 1)
  {
    var c' := Insert(cfg, c, stmt);
    CountKeys(c.statements.Keys, c'.statements.Keys, stmt.id, {});
  }

  lemma LruIsResident(c: Cache, id: Id)
    requires LeastRecentlyUsed(c, id)
    ensures id in c.statements
  {
  }

  lemma CountKeys(keys: set<Id>, keys': set<Id>, id: Id, lost: set<Id>)
    requires lost <= keys && id !in lost && keys' == keys - lost + {id}
    ensures |keys'| == |keys| - |lost| + if id in keys then 0 else 1
  {
    assert |keys - lost| == |keys| - |lost|;
    if id in keys {
      assert keys' == keys - lost;
    }
  }

  lemma SectionKeepsSize(cfg: Config, w: World, section: Section, w': World)
    requires |w.cache.statements| <= Bound(cfg) && Moves(cfg, w, section, w')
    ensures |w'.cache.statements| <= Bound(cfg)
  {
    hide Next, Enters, Fingerprint, Lost;
    match section {
      case TouchHit(c, now) =>
        if HasHit(w, c) && Fingerprint(cfg, w.calls[c].query) in w.cache.statements {
          assert w'.cache.statements.Keys == w.cache.statements.Keys;
          FewerKeys(w'.cache.statements, w.cache.statements);
        }
      case EnterMiss(c, now) =>
        if HasMiss(w, c) {
          EnterSize(cfg, w.cache, w.calls[c].query, w.calls[c].plan, now, w'.cache);
        }
      case Whole(op) => StepKeepsSize(cfg, w.cache, op, w'.cache);
      case _ =>
    }
  }

  /** In every interleaving the cache stays within its bound. */
  lemma {:induction false} SizeIsBoundedInterleaved(cfg: Config, worlds: seq<World>, sections: seq<Section>)
    requires IsInterleaving(cfg, worlds, sections)
    ensures |worlds[|sections|].cache.statements| <= Bound(cfg)
    decreases |sections|
  {
    hide Moves;
    if sections != [] {
      var n := |sections| - 1;
      ShorterInterleaving(cfg, worlds, sections);
      SizeIsBoundedInterleaved(cfg, worlds[..n + 1], sections[..n]);
      SectionKeepsSize(cfg, worlds[n], sections[n], worlds[n + 1]);
    }
  }

  // ---- Late entries ----------------------------------------------------------------------------

  /** A prepare is about to enter a statement that is there by now. */
  predicate IsLate(cfg: Config, w: World, section: Section) {
    section.EnterMiss? && HasMiss(w, section.c) && Fingerprint(cfg, w.calls[section.c].query) in w.cache.statements
  }

  predicate IsFull(cfg: Config, c: Cache) {
    |c.statements| >= cfg.maxEntries
  }

  /** Some statement other than `id` is least recently used. */
  ghost predicate OtherIsOldest(c: Cache, id: Id) {
    exists out :: out != id && LeastRecentlyUsed(c, out)
  }

  /** Entering a statement that is there shrinks a full cache when another is taken out for it. */
  lemma LateEntrySize(cfg: Config, c: Cache, query: string, plan: Plan, now: int, c': Cache)
    requires Enters(cfg, c, query, plan, now, c') && Fingerprint(cfg, query) in c.statements
    ensures var id := Fingerprint(cfg, query);
      && (|c'.statements| < |c.statements| ==> IsFull(cfg, c) && OtherIsOldest(c, id))
      && (IsFull(cfg, c) && !LeastRecentlyUsed(c, id) ==> |c'.statements| < |c.statements|)
  {
    hide Fingerprint, LeastRecentlyUsed, NewStmt, Insert, Drop;
    var id, stmt := Fingerprint(cfg, query), NewStmt(cfg, query, plan, now);
    assert stmt.id == id by { NewStmtId(cfg, query, plan, now); }
    var room :| (if |c.statements| >= cfg.maxEntries then EvictedOne(cfg, c, room) else room == c) && c' == Insert(cfg, room, stmt);
    if IsFull(cfg, c) {
      var out :| LeastRecentlyUsed(c, out) && room == Drop(cfg, c, out);
      LruIsResident(c, out);
      InsertAfterDrop(cfg, c, out, stmt);
    } else {
      InsertOnly(cfg, c, stmt);
    }
  }

  /**
   * What an entry does: in time, it adds one statement and takes one out only
   * when the cache is full; late, it puts the statement that is there back to
   * what a first prepare makes, and shrinks a full cache unless that statement
   * is the least recently used.
   */
  lemma EntryExactly(cfg: Config, w: World, section: Section, w': World)
    requires section.EnterMiss? && HasMiss(w, section.c) && Moves(cfg, w, section, w')
    ensures var (c, c', call) := (w.cache, w'.cache, w.calls[section.c]);
      var id := Fingerprint(cfg, call.query);
      && id in c'.statements && c'.statements[id] == NewStmt(cfg, call.query, call.plan, section.now)
      && |Lost(c, c')| <= 1 && (Lost(c, c') != {} ==> IsFull(cfg, c))
      && (|c'.statements| < |c.statements| <==> IsLate(cfg, w, section) && Lost(c, c') != {})
      && (|c'.statements| < |c.statements| ==> IsLate(cfg, w, section) && IsFull(cfg, c) && OtherIsOldest(c, id))
      && (IsLate(cfg, w, section) && IsFull(cfg, c) && !LeastRecentlyUsed(c, id) ==> |c'.statements| < |c.statements|)
      && (!IsLate(cfg, w, section) && IsFull(cfg, c) && cfg.maxEntries >= 1 ==> |c'.statements| == |c.statements|)
  {
    hide Fingerprint, Enters, NewStmt, Lost, LeastRecentlyUsed, OtherIsOldest;
    var call := w.calls[section.c];
    EnterSize(cfg, w.cache, call.query, call.plan, section.now, w'.cache);
    if IsLate(cfg, w, section) {
      LateEntrySize(cfg, w.cache, call.query, call.plan, section.now, w'.cache);
    }
  }

  /** A cache that is not empty has a least recently used statement. */
  lemma {:induction false} OldestAmong(c: Cache, ids: set<Id>) returns (oldest: Id)
    requires ids != {} && ids <= c.statements.Keys
    ensures oldest in ids && forall id :: id in ids ==> c.statements[oldest].lastUsed <= c.statements[id].lastUsed
  {
    var id :| id in ids;
    if ids == {id} {
      oldest := id;
    } else {
      var rest := OldestAmong(c, ids - {id});
      oldest := if c.statements[id].lastUsed < c.statements[rest].lastUsed then id else rest;
    }
  }

  lemma EntersAfter(cfg: Config, c: Cache, query: string, plan: Plan, now: int, out: Id)
    requires |c.statements| >= cfg.maxEntries && LeastRecentlyUsed(c, out)
    ensures Enters(cfg, c, query, plan, now, Insert(cfg, Drop(cfg, c, out), NewStmt(cfg, query, plan, now)))
  {
  }

  /** Entering with `out` taken out, from a full cache. */
  lemma EntersWithout(cfg: Config, w: World, section: Section, out: Id) returns (w': World)
    requires section.EnterMiss? && HasMiss(w, section.c) && IsFull(cfg, w.cache) && LeastRecentlyUsed(w.cache, out)
    ensures var id := Fingerprint(cfg, w.calls[section.c].query);
      && Moves(cfg, w, section, w')
      && |w'.cache.statements| == |w.cache.statements| - (if out == id then 0 else 1) + (if id in w.cache.statements then 0 else 1)
  {
    hide Fingerprint, LeastRecentlyUsed, NewStmt, Insert, Drop, Enters;
    var call := w.calls[section.c];
    var stmt := NewStmt(cfg, call.query, call.plan, section.now);
    NewStmtId(cfg, call.query, call.plan, section.now);
    w' := World(Insert(cfg, Drop(cfg, w.cache, out), stmt), w.calls - {section.c});
    EntersAfter(cfg, w.cache, call.query, call.plan, section.now, out);
    LruIsResident(w.cache, out);
    InsertAfterDrop(cfg, w.cache, out, stmt);
  }

  /** Some entry of a miss is always possible. */
  lemma SomeEntry(cfg: Config, w: World, section: Section) returns (w': World)
    requires section.EnterMiss? && HasMiss(w, section.c)
    ensures Moves(cfg, w, section, w')
  {
    hide Fingerprint, NewStmt, Insert, Drop, Enters;
    var call := w.calls[section.c];
    if IsFull(cfg, w.cache) && w.cache.statements != map[] {
      var out := OldestAmong(w.cache, w.cache.statements.Keys);
      w' := EntersWithout(cfg, w, section, out);
    } else {
      w' := World(Insert(cfg, w.cache, NewStmt(cfg, call.query, call.plan, section.now)), w.calls - {section.c});
      EntersPlainly(cfg, w.cache, call.query, call.plan, section.now);
    }
  }

  lemma EntersPlainly(cfg: Config, c: Cache, query: string, plan: Plan, now: int)
    requires !IsFull(cfg, c) || c.statements == map[]
    ensures Enters(cfg, c, query, plan, now, Insert(cfg, c, NewStmt(cfg, query, plan, now)))
  {
    hide Insert, NewStmt;
    assert EvictedOne(cfg, c, c) || !IsFull(cfg, c);
  }

  /**
   * Seen from the cache before: an entry can shrink it if and only if it is
   * late, the cache is full, and another statement is least recently used; and
   * it cannot help shrinking it if and only if it is late, the cache is full, and
   * its own statement is not.
   */
  lemma ShrinksExactly(cfg: Config, w: World, section: Section)
    requires section.EnterMiss? && HasMiss(w, section.c)
    ensures var id := Fingerprint(cfg, w.calls[section.c].query);
      && ((exists w' :: Moves(cfg, w, section, w') && |w'.cache.statements| < |w.cache.statements|) <==>
            IsLate(cfg, w, section) && IsFull(cfg, w.cache) && OtherIsOldest(w.cache, id))
      && ((forall w' :: Moves(cfg, w, section, w') ==> |w'.cache.statements| < |w.cache.statements|) <==>
            IsLate(cfg, w, section) && IsFull(cfg, w.cache) && !LeastRecentlyUsed(w.cache, id))
  {
    hide Fingerprint, LeastRecentlyUsed, Moves;
    var id := Fingerprint(cfg, w.calls[section.c].query);
    forall w' | Moves(cfg, w, section, w')
      ensures |w'.cache.statements| < |w.cache.statements| ==>
                IsLate(cfg, w, section) && IsFull(cfg, w.cache) && OtherIsOldest(w.cache, id)
      ensures IsLate(cfg, w, section) && IsFull(cfg, w.cache) && !LeastRecentlyUsed(w.cache, id) ==>
                |w'.cache.statements| < |w.cache.statements|
    {
      EntryExactly(cfg, w, section, w');
    }
    if IsLate(cfg, w, section) && IsFull(cfg, w.cache) && OtherIsOldest(w.cache, id) {
      var out :| out != id && LeastRecentlyUsed(w.cache, out);
      var w' := EntersWithout(cfg, w, section, out);
    }
    if IsLate(cfg, w, section) && IsFull(cfg, w.cache) && LeastRecentlyUsed(w.cache, id) {
      var w' := EntersWithout(cfg, w, section, id);
    }
    var w' := SomeEntry(cfg, w, section);
  }

  /** The call of `c` found nothing at `j`, and another prepare of the same statement entered it at `k`. */
  ghost predicate Overtaken(cfg: Config, worlds: seq<World>, sections: seq<Section>, c: Caller, id: Id, j: nat, k: nat)
    requires |worlds| == |sections| + 1
  {
    && j < k < |sections|
    && sections[j].Check? && sections[j].c == c && Fingerprint(cfg, sections[j].query) == id && id !in worlds[j].cache.statements
    && sections[k].EnterMiss? && sections[k].c != c && HasMiss(worlds[k], sections[k].c)
    && Fingerprint(cfg, worlds[k].calls[sections[k].c].query) == id
  }

  /** A miss under way was found at some check since, and if its statement is there now, another entered it in between. */
  ghost predicate MissTold(cfg: Config, worlds: seq<World>, sections: seq<Section>, c: Caller)
    requires |worlds| == |sections| + 1
  {
    var w := worlds[|sections|];
    HasMiss(w, c) ==>
      var id := Fingerprint(cfg, w.calls[c].query);
      && (exists j :: 0 <= j < |sections| && sections[j].Check? && sections[j].c == c
                      && Fingerprint(cfg, sections[j].query) == id && id !in worlds[j].cache.statements)
      && (id in w.cache.statements ==> exists j, k :: Overtaken(cfg, worlds, sections, c, id, j, k))
  }

  /** Only an entry of it makes a statement resident. */
  lemma OnlyEntriesAdd(cfg: Config, w: World, section: Section, w': World, id: Id)
    requires Moves(cfg, w, section, w') && id !in w.cache.statements && id in w'.cache.statements
    ensures section.EnterMiss? && HasMiss(w, section.c) && Fingerprint(cfg, w.calls[section.c].query) == id
  {
    hide Fingerprint, NewStmt, Next, EvictedOne;
    match section {
      case EnterMiss(c, now) =>
        if HasMiss(w, c) {
          EntryAddsOne(cfg, w.cache, w.calls[c].query, w.calls[c].plan, now, w'.cache, id);
        }
      case Whole(op) => WholeAddsNone(cfg, w.cache, op, w'.cache, id);
      case _ =>
    }
  }

  lemma EntryAddsOne(cfg: Config, c: Cache, query: string, plan: Plan, now: int, c': Cache, id: Id)
    requires Enters(cfg, c, query, plan, now, c') && id in c'.statements
    ensures id in c.statements || id == Fingerprint(cfg, query)
  {
    hide Fingerprint, LeastRecentlyUsed;
  }

  lemma WholeAddsNone(cfg: Config, c: Cache, op: Op, c': Cache, id: Id)
    requires !op.Prepare? && Next(cfg, c, op, c') && id in c'.statements
    ensures id in c.statements
  {
    hide Fingerprint, LeastRecentlyUsed, Mismatch;
  }

  /** A miss that is under way after a section was before, or that section found it. */
  lemma MissBefore(cfg: Config, w: World, section: Section, w': World, c: Caller)
    requires Moves(cfg, w, section, w') && HasMiss(w', c)
    ensures (HasMiss(w, c) && w.calls[c] == w'.calls[c] && !(section.EnterMiss? && section.c == c)) ||
            (section.Check? && section.c == c && section.query == w'.calls[c].query && w'.cache == w.cache
             && Fingerprint(cfg, section.query) !in w.cache.statements)
  {
    hide Fingerprint, Next, Enters;
  }

  lemma {:induction false} MissIsTold(cfg: Config, worlds: seq<World>, sections: seq<Section>, c: Caller)
    requires IsInterleaving(cfg, worlds, sections)
    ensures MissTold(cfg, worlds, sections, c)
    decreases |sections|
  {
    hide Moves, Fingerprint, HasMiss, IsInterleaving;
    if sections == [] {
      assert !HasMiss(worlds[0], c) by { FreshHasNoMiss(cfg, worlds, c); }
    } else {
      var n := |sections| - 1;
      assert |worlds| == n + 2 && Moves(cfg, worlds[n], sections[n], worlds[n + 1]) by { LastMove(cfg, worlds, sections); }
      var (ws, ss) := (worlds[..n + 1], sections[..n]);
      assert IsInterleaving(cfg, ws, ss) by { ShorterInterleaving(cfg, worlds, sections); }
      MissIsTold(cfg, ws, ss, c);
      if HasMiss(worlds[n + 1], c) {
        MissStep(cfg, worlds, sections, c);
      }
    }
  }

  lemma FreshHasNoMiss(cfg: Config, worlds: seq<World>, c: Caller)
    requires IsInterleaving(cfg, worlds, [])
    ensures !HasMiss(worlds[0], c) && |worlds| == 1
  {
  }

  lemma LastMove(cfg: Config, worlds: seq<World>, sections: seq<Section>)
    requires IsInterleaving(cfg, worlds, sections) && sections != []
    ensures |worlds| == |sections| + 1 && Moves(cfg, worlds[|sections| - 1], sections[|sections| - 1], worlds[|sections|])
  {
  }

  lemma MissStep(cfg: Config, worlds: seq<World>, sections: seq<Section>, c: Caller)
    requires |worlds| == |sections| + 1 && sections != [] && HasMiss(worlds[|sections|], c)
    requires var n := |sections| - 1; Moves(cfg, worlds[n], sections[n], worlds[n + 1]) && MissTold(cfg, worlds[..n + 1], sections[..n], c)
    ensures MissTold(cfg, worlds, sections, c)
  {
    hide Moves, Fingerprint;
    var n := |sections| - 1;
    var (ws, ss) := (worlds[..n + 1], sections[..n]);
    var (w, w') := (worlds[n], worlds[n + 1]);
    var id := Fingerprint(cfg, w'.calls[c].query);
    MissBefore(cfg, w, sections[n], w', c);
    if HasMiss(w, c) && w.calls[c] == w'.calls[c] && !(sections[n].EnterMiss? && sections[n].c == c) {
      var j :| 0 <= j < n && ss[j].Check? && ss[j].c == c && Fingerprint(cfg, ss[j].query) == id && id !in ws[j].cache.statements;
      assert sections[j] == ss[j] && worlds[j] == ws[j];
      if id in w'.cache.statements {
        if id in w.cache.statements {
          var i: nat, k: nat :| Overtaken(cfg, ws, ss, c, id, i, k);
          assert sections[i] == ss[i] && worlds[i] == ws[i] && sections[k] == ss[k] && worlds[k] == ws[k];
          assert Overtaken(cfg, worlds, sections, c, id, i, k);
        } else {
          OnlyEntriesAdd(cfg, w, sections[n], w', id);
          assert Overtaken(cfg, worlds, sections, c, id, j, n);
        }
      }
    } else {
      assert sections[n].Check? && id !in worlds[n].cache.statements;
    }
  }

  /** In every interleaving an entry is late only when another caller entered the statement since its own looked for it. */
  lemma LateEntryHasAuthor(cfg: Config, worlds: seq<World>, sections: seq<Section>, section: Section)
    requires IsInterleaving(cfg, worlds, sections) && IsLate(cfg, worlds[|sections|], section)
    ensures var id := Fingerprint(cfg, worlds[|sections|].calls[section.c].query);
      exists j, k :: Overtaken(cfg, worlds, sections, section.c, id, j, k)
  {
    MissIsTold(cfg, worlds, sections, section.c);
  }

  // ---- Without late entries ---------------------------------------------------------------------

  /** The operation a section amounts to: a prepare takes place where it touches or enters. */
  function Amounts(cfg: Config, w: World, section: Section): Op {
    match section
    case Check(_, query, _) => LookupQuery(query)
    case TouchHit(c, now) =>
      if HasHit(w, c) && Fingerprint(cfg, w.calls[c].query) in w.cache.statements then Prepare(w.calls[c].query, w.calls[c].plan, now)
      else LookupQuery("")
    case EnterMiss(c, now) =>
      if HasMiss(w, c) then Prepare(w.calls[c].query, w.calls[c].plan, now) else LookupQuery("")
    case Whole(op) => op
  }

  lemma InTimeIsWhole(cfg: Config, w: World, section: Section, w': World)
    requires Moves(cfg, w, section, w') && !IsLate(cfg, w, section)
    ensures Next(cfg, w.cache, Amounts(cfg, w, section), w'.cache)
  {
    hide Fingerprint, NewStmt, EvictedOne, Insert, Touch;
  }

  function CachesOf(worlds: seq<World>): seq<Cache> {
    seq(|worlds|, i requires 0 <= i < |worlds| => worlds[i].cache)
  }

  function OpsOf(cfg: Config, worlds: seq<World>, sections: seq<Section>): seq<Op>
    requires |worlds| == |sections| + 1
  {
    seq(|sections|, i requires 0 <= i < |sections| => Amounts(cfg, worlds[i], sections[i]))
  }

  /**
   * Without late entries every interleaving is a run of whole operations through
   * the same caches, each prepare taking place where it touches or enters its
   * statement; whatever holds of those runs then holds of it.
   */
  lemma InTimeRunsAreWhole(cfg: Config, worlds: seq<World>, sections: seq<Section>)
    requires IsInterleaving(cfg, worlds, sections)
    requires forall i :: 0 <= i < |sections| ==> !IsLate(cfg, worlds[i], sections[i])
    ensures IsRun(cfg, CachesOf(worlds), OpsOf(cfg, worlds, sections)) && Last(CachesOf(worlds)) == worlds[|sections|].cache
  {
    hide Moves, Next, Amounts, IsLate;
    forall i | 0 <= i < |sections| ensures Next(cfg, worlds[i].cache, Amounts(cfg, worlds[i], sections[i]), worlds[i + 1].cache) {
      InTimeIsWhole(cfg, worlds[i], sections[i], worlds[i + 1]);
    }
  }

  // ---- Two prepares of one query --------------------------------------------------------------------

  /** A statement is prepared; then two callers prepare another, both looking before either enters. */
  function TwoPrepares(a: string, b: string, plan: Plan): seq<Section> {
    [Check(0, b, plan), EnterMiss(0, 1), Check(1, a, plan), Check(2, a, plan), EnterMiss(1, 2), EnterMiss(2, 3)]
  }

  /** The first prepare, uninterrupted, and the two looks at the other statement. */
  lemma BothMiss(cfg: Config, worlds: seq<World>, a: string, b: string, plan: Plan)
    requires cfg.maxEntries == 2 && Fingerprint(cfg, a) != Fingerprint(cfg, b)
    requires IsInterleaving(cfg, worlds, TwoPrepares(a, b, plan))
    ensures |worlds| == 7 && worlds[4].cache.statements == map[Fingerprint(cfg, b) := NewStmt(cfg, b, plan, 1)]
    ensures worlds[4].calls == map[1 := Miss(a, plan), 2 := Miss(a, plan)]
  {
    hide Fingerprint, Enters, IsInterleaving, NewStmt;
    var sections := TwoPrepares(a, b, plan);
    EachMoves(cfg, worlds, sections);
    StartsFresh(cfg, worlds, sections);
    assert Moves(cfg, worlds[0], sections[0], worlds[1]) && Moves(cfg, worlds[1], sections[1], worlds[2]);
    assert worlds[1] == World(EMPTY, map[0 := Miss(b, plan)]);
    EntersRoom(cfg, EMPTY, b, plan, 1, worlds[2].cache);
    NewStmtId(cfg, b, plan, 1);
    assert worlds[2].cache.statements == map[Fingerprint(cfg, b) := NewStmt(cfg, b, plan, 1)];
    assert worlds[2].calls == map[];
    assert Moves(cfg, worlds[2], sections[2], worlds[3]) && Moves(cfg, worlds[3], sections[3], worlds[4]);
    assert worlds[3].calls == map[1 := Miss(a, plan)];
  }

  /** With room for two, the second entry takes the other statement out, and one is left. */
  lemma TwoPreparesEvict(cfg: Config, worlds: seq<World>, a: string, b: string, plan: Plan)
    requires cfg.maxEntries == 2 && Fingerprint(cfg, a) != Fingerprint(cfg, b)
    requires IsInterleaving(cfg, worlds, TwoPrepares(a, b, plan))
    ensures |worlds| == 7 && worlds[5].cache.statements.Keys == {Fingerprint(cfg, a), Fingerprint(cfg, b)}
    ensures worlds[6].cache.statements.Keys == {Fingerprint(cfg, a)}
  {
    hide Fingerprint, Enters, IsInterleaving, NewStmt;
    var sections := TwoPrepares(a, b, plan);
    BothMiss(cfg, worlds, a, b, plan);
    EachMoves(cfg, worlds, sections);
    assert Moves(cfg, worlds[4], sections[4], worlds[5]) && Moves(cfg, worlds[5], sections[5], worlds[6]);
    assert |worlds[4].cache.statements| == 1;
    EntersRoom(cfg, worlds[4].cache, a, plan, 2, worlds[5].cache);
    NewStmtId(cfg, a, plan, 2);
    assert worlds[5].calls == map[2 := Miss(a, plan)];
    assert worlds[5].cache.statements ==
             map[Fingerprint(cfg, b) := NewStmt(cfg, b, plan, 1), Fingerprint(cfg, a) := NewStmt(cfg, a, plan, 2)];
    EntersFull(cfg, worlds[5].cache, a, b, plan, worlds[6].cache);
  }

  lemma EachMoves(cfg: Config, worlds: seq<World>, sections: seq<Section>)
    requires IsInterleaving(cfg, worlds, sections)
    ensures |worlds| == |sections| + 1 && forall i :: 0 <= i < |sections| ==> Moves(cfg, worlds[i], sections[i], worlds[i + 1])
  {
  }

  lemma StartsFresh(cfg: Config, worlds: seq<World>, sections: seq<Section>)
    requires IsInterleaving(cfg, worlds, sections)
    ensures |worlds| == |sections| + 1 && worlds[0] == FRESH
  {
  }

  lemma EntersRoom(cfg: Config, c: Cache, query: string, plan: Plan, now: int, c': Cache)
    requires Enters(cfg, c, query, plan, now, c') && |c.statements| < cfg.maxEntries
    ensures c' == Insert(cfg, c, NewStmt(cfg, query, plan, now))
  {
  }

  lemma EntersFull(cfg: Config, c: Cache, a: string, b: string, plan: Plan, c': Cache)
    requires cfg.maxEntries == 2 && Fingerprint(cfg, a) != Fingerprint(cfg, b) && Enters(cfg, c, a, plan, 3, c')
    requires c.statements == map[Fingerprint(cfg, b) := NewStmt(cfg, b, plan, 1), Fingerprint(cfg, a) := NewStmt(cfg, a, plan, 2)]
    ensures c'.statements.Keys == {Fingerprint(cfg, a)}
  {
    hide Fingerprint;
    var (x, y) := (Fingerprint(cfg, a), Fingerprint(cfg, b));
    assert c.statements.Keys == {x, y} && |{x, y}| == 2;
    var room :| EvictedOne(cfg, c, room) && c' == Insert(cfg, room, NewStmt(cfg, a, plan, 3));
    var out :| LeastRecentlyUsed(c, out) && room == Drop(cfg, c, out);
    assert out == y by { assert c.statements[out].lastUsed <= c.statements[y].lastUsed; }
  }

  lemma Misses(cfg: Config, w: World, c: Caller, query: string, plan: Plan)
    requires c !in w.calls && Fingerprint(cfg, query) !in w.cache.statements
    ensures Moves(cfg, w, Check(c, query, plan), World(w.cache, w.calls[c := Miss(query, plan)]))
  {
  }

  lemma EntersMiss(cfg: Config, w: World, c: Caller, now: int, cache: Cache)
    requires HasMiss(w, c) && Enters(cfg, w.cache, w.calls[c].query, w.calls[c].plan, now, cache)
    ensures Moves(cfg, w, EnterMiss(c, now), World(cache, w.calls - {c}))
  {
  }

  /** The cache after the first and after the second statement is entered. */
  function WithOne(cfg: Config, b: string, plan: Plan): Cache {
    Insert(cfg, EMPTY, NewStmt(cfg, b, plan, 1))
  }

  function WithTwo(cfg: Config, a: string, b: string, plan: Plan): Cache {
    Insert(cfg, WithOne(cfg, b, plan), NewStmt(cfg, a, plan, 2))
  }

  lemma OneThenTwo(cfg: Config, a: string, b: string, plan: Plan)
    requires cfg.maxEntries == 2 && Fingerprint(cfg, a) != Fingerprint(cfg, b)
    ensures Fingerprint(cfg, a) !in WithOne(cfg, b, plan).statements
    ensures Enters(cfg, EMPTY, b, plan, 1, WithOne(cfg, b, plan))
    ensures Enters(cfg, WithOne(cfg, b, plan), a, plan, 2, WithTwo(cfg, a, b, plan))
    ensures Enters(cfg, WithTwo(cfg, a, b, plan), a, plan, 3,
                   Insert(cfg, Drop(cfg, WithTwo(cfg, a, b, plan), Fingerprint(cfg, b)), NewStmt(cfg, a, plan, 3)))
  {
    hide Fingerprint, Enters, NewStmt, Drop, LeastRecentlyUsed;
    NewStmtId(cfg, a, plan, 2);
    NewStmtId(cfg, b, plan, 1);
    var c1, c2 := WithOne(cfg, b, plan), WithTwo(cfg, a, b, plan);
    assert c1.statements.Keys == {Fingerprint(cfg, b)} && |{Fingerprint(cfg, b)}| == 1;
    assert c2.statements.Keys == {Fingerprint(cfg, b), Fingerprint(cfg, a)};
    assert |c2.statements.Keys| == 2;
    EntersPlainly(cfg, EMPTY, b, plan, 1);
    EntersPlainly(cfg, c1, a, plan, 2);
    FirstIsOldest(cfg, a, b, plan);
    EntersAfter(cfg, c2, a, plan, 3, Fingerprint(cfg, b));
  }

  /** The run happens. */
  lemma TwoPreparesHappen(cfg: Config, a: string, b: string, plan: Plan)
    requires cfg.maxEntries == 2 && Fingerprint(cfg, a) != Fingerprint(cfg, b)
    ensures exists worlds :: IsInterleaving(cfg, worlds, TwoPrepares(a, b, plan))
  {
    hide Fingerprint, Enters, NewStmt, Drop, Moves, Insert, WithOne, WithTwo, IsInterleaving;
    OneThenTwo(cfg, a, b, plan);
    var c1, c2 := WithOne(cfg, b, plan), WithTwo(cfg, a, b, plan);
    var c3 := Insert(cfg, Drop(cfg, c2, Fingerprint(cfg, b)), NewStmt(cfg, a, plan, 3));
    var (ma, mb) := (Miss(a, plan), Miss(b, plan));
    var w1 := World(EMPTY, map[0 := mb]);
    var w2 := World(c1, w1.calls - {0});
    var w3 := World(c1, w2.calls[1 := ma]);
    var w4 := World(c1, w3.calls[2 := ma]);
    var w5 := World(c2, w4.calls - {1});
    var w6 := World(c3, w5.calls - {2});
    NoMove(cfg);
    Misses(cfg, FRESH, 0, b, plan);
    OneMoreMove(cfg, [FRESH], [], Check(0, b, plan), w1);
    EntersMiss(cfg, w1, 0, 1, c1);
    OneMoreMove(cfg, [FRESH] + [w1], [] + [Check(0, b, plan)], EnterMiss(0, 1), w2);
    Misses(cfg, w2, 1, a, plan);
    var (ws, ss) := ([FRESH] + [w1] + [w2], [] + [Check(0, b, plan)] + [EnterMiss(0, 1)]);
    OneMoreMove(cfg, ws, ss, Check(1, a, plan), w3);
    Misses(cfg, w3, 2, a, plan);
    OneMoreMove(cfg, ws + [w3], ss + [Check(1, a, plan)], Check(2, a, plan), w4);
    EntersMiss(cfg, w4, 1, 2, c2);
    var (ws', ss') := (ws + [w3] + [w4], ss + [Check(1, a, plan)] + [Check(2, a, plan)]);
    OneMoreMove(cfg, ws', ss', EnterMiss(1, 2), w5);
    EntersMiss(cfg, w5, 2, 3, c3);
    OneMoreMove(cfg, ws' + [w5], ss' + [EnterMiss(1, 2)], EnterMiss(2, 3), w6);
    assert ss' + [EnterMiss(1, 2)] + [EnterMiss(2, 3)] == TwoPrepares(a, b, plan);
  }

  lemma NoMove(cfg: Config)
    ensures IsInterleaving(cfg, [FRESH], [])
  {
  }

  lemma OneMoreMove(cfg: Config, worlds: seq<World>, sections: seq<Section>, section: Section, w: World)
    requires IsInterleaving(cfg, worlds, sections) && Moves(cfg, worlds[|sections|], section, w)
    ensures IsInterleaving(cfg, worlds + [w], sections + [section])
  {
    hide Moves;
  }

  lemma FirstIsOldest(cfg: Config, a: string, b: string, plan: Plan)
    requires Fingerprint(cfg, a) != Fingerprint(cfg, b)
    ensures LeastRecentlyUsed(Insert(cfg, Insert(cfg, EMPTY, NewStmt(cfg, b, plan, 1)), NewStmt(cfg, a, plan, 2)), Fingerprint(cfg, b))
  {
    hide Fingerprint;
  }
}
