/** What every run of the plan cache keeps: index agreement, bounded size, and recency order. */
module PlanCacheRuns {
  import opened Wrappers
  import opened QueryText
  import opened PlanCaches

  ghost predicate IsRun(cfg: Config, states: seq<Cache>, ops: seq<Op>) {
    && |states| == |ops| + 1 && states[0] == EMPTY
    && forall i :: 0 <= i < |ops| ==> Next(cfg, states[i], ops[i], states[i + 1])
  }

  function Last(states: seq<Cache>): Cache
    requires states != []
  {
    states[|states| - 1]
  }

  // ---- Index agreement ---------------------------------------------------------------

  /** Every resident id is the fingerprint of its query and is mapped; every mapping is to itself. */
  ghost predicate IndexInv(cfg: Config, c: Cache) {
    && (forall id :: id in c.statements ==>
          c.statements[id].id == id && Fingerprint(cfg, c.statements[id].query) == id && id in c.fingerprints)
    && (forall fp :: fp in c.fingerprints ==> c.fingerprints[fp] == fp)
  }

  /** Mapped ids whose statement is gone. */
  function Dangling(c: Cache): set<Id> {
    c.fingerprints.Keys - c.statements.Keys
  }

  predicate ExpiredExecute(cfg: Config, c: Cache, op: Op) {
    op.Execute? && op.id in c.statements && IsExpired(cfg, c.statements[op.id], op.now)
  }

  lemma EvictedOneKeepsIndex(cfg: Config, c: Cache, c': Cache)
    requires IndexInv(cfg, c) && EvictedOne(cfg, c, c')
    ensures IndexInv(cfg, c') && Dangling(c') == Dangling(c)
  {
    if c.statements != map[] {
      var id :| LeastRecentlyUsed(c, id) && c' == Drop(cfg, c, id);
      DropKeepsIndex(cfg, c, id);
    }
  }

  lemma InsertKeepsIndex(cfg: Config, c: Cache, query: string, plan: Plan, now: int)
    requires IndexInv(cfg, c)
    ensures IndexInv(cfg, Insert(cfg, c, NewStmt(cfg, query, plan, now)))
    ensures Dangling(Insert(cfg, c, NewStmt(cfg, query, plan, now))) == Dangling(c) - {Fingerprint(cfg, query)}
  {
  }

  /** How each operation changes the dangling ids: only an expired execution adds one. */
  function DanglingAfter(cfg: Config, c: Cache, op: Op, before: set<Id>): set<Id> {
    if ExpiredExecute(cfg, c, op) then before + {op.id}
    else if op.InvalidateAll? then {}
    else if op.Prepare? then before - {Fingerprint(cfg, op.query)}
    else before
  }

  /** The ids left dangling by a run: expired when executed, and since then neither prepared again nor cleared with the rest. */
  function LeftDangling(cfg: Config, states: seq<Cache>, ops: seq<Op>): set<Id>
    requires |states| == |ops| + 1
    decreases |ops|
  {
    if ops == [] then {}
    else
      var n := |ops| - 1;
      DanglingAfter(cfg, states[n], ops[n], LeftDangling(cfg, states[..n + 1], ops[..n]))
  }

  lemma PrepareKeepsIndex(cfg: Config, c: Cache, op: Op, c': Cache)
    requires IndexInv(cfg, c) && Next(cfg, c, op, c') && op.Prepare?
    ensures IndexInv(cfg, c') && Dangling(c') == DanglingAfter(cfg, c, op, Dangling(c))
  {
    var id := Fingerprint(cfg, op.query);
    if id in c.statements {
      RewriteKeepsIndex(cfg, c, id, c.statements[id].(lastUsed := op.now));
    } else {
      var room :| (if |c.statements| >= cfg.maxEntries then EvictedOne(cfg, c, room) else room == c)
                  && c' == Insert(cfg, room, NewStmt(cfg, op.query, op.plan, op.now));
      if |c.statements| >= cfg.maxEntries {
        EvictedOneKeepsIndex(cfg, c, room);
      }
      InsertKeepsIndex(cfg, room, op.query, op.plan, op.now);
    }
  }

  lemma DropAllKeepsIndex(cfg: Config, c: Cache, ids: set<Id>)
    requires IndexInv(cfg, c) && ids <= c.statements.Keys
    ensures IndexInv(cfg, DropAll(cfg, c, ids)) && Dangling(DropAll(cfg, c, ids)) == Dangling(c)
  {
    var fps := set id | id in ids && id in c.statements :: Fingerprint(cfg, c.statements[id].query);
    assert fps == ids by {
      forall id | id in ids ensures id in fps {
        assert Fingerprint(cfg, c.statements[id].query) == id;
      }
    }
  }

  /** A rewritten statement that keeps its id and its query keeps the index. */
  lemma RewriteKeepsIndex(cfg: Config, c: Cache, id: Id, stmt: Stmt)
    requires IndexInv(cfg, c) && id in c.statements
    requires stmt.id == c.statements[id].id && stmt.query == c.statements[id].query
    ensures IndexInv(cfg, c.(statements := c.statements[id := stmt]))
    ensures Dangling(c.(statements := c.statements[id := stmt])) == Dangling(c)
  {
    hide Fingerprint;
    var statements := c.statements[id := stmt];
    assert statements.Keys == c.statements.Keys;
    forall i | i in statements
      ensures statements[i].id == i && Fingerprint(cfg, statements[i].query) == i && i in c.fingerprints
    {
      assert i in c.statements;
    }
  }

  lemma DropKeepsIndex(cfg: Config, c: Cache, id: Id)
    requires IndexInv(cfg, c)
    ensures IndexInv(cfg, Drop(cfg, c, id)) && Dangling(Drop(cfg, c, id)) == Dangling(c)
  {
  }

  /** An expired statement goes without its mapping, which stays behind. */
  lemma ExpireKeepsIndex(cfg: Config, c: Cache, id: Id)
    requires IndexInv(cfg, c) && id in c.statements
    ensures IndexInv(cfg, c.(statements := c.statements - {id}))
    ensures Dangling(c.(statements := c.statements - {id})) == Dangling(c) + {id}
  {
  }

  lemma CachePlanKeepsIndex(cfg: Config, c: Cache, id: Id, plan: Plan, c': Cache)
    requires IndexInv(cfg, c) && Next(cfg, c, Op.CachePlan(id, plan), c')
    ensures IndexInv(cfg, c') && Dangling(c') == Dangling(c)
  {
    if id in c.statements {
      RewriteKeepsIndex(cfg, c, id, c.statements[id].(physicalPlan := Some(plan)));
    }
  }

  lemma ExecuteKeepsIndex(cfg: Config, c: Cache, op: Op, c': Cache)
    requires IndexInv(cfg, c) && Next(cfg, c, op, c') && op.Execute?
    ensures IndexInv(cfg, c') && Dangling(c') == DanglingAfter(cfg, c, op, Dangling(c))
  {
    hide IndexInv, Mismatch;
    var id := op.id;
    if ExpiredExecute(cfg, c, op) {
      ExpireKeepsIndex(cfg, c, id);
    } else if id in c.statements && !Mismatch(c.statements[id], op.provided) {
      RewriteKeepsIndex(cfg, c, id, c.statements[id].(useCount := c.statements[id].useCount + 1, lastUsed := op.now));
    }
  }

  lemma StepKeepsIndex(cfg: Config, c: Cache, op: Op, c': Cache)
    requires IndexInv(cfg, c) && Next(cfg, c, op, c')
    ensures IndexInv(cfg, c') && Dangling(c') == DanglingAfter(cfg, c, op, Dangling(c))
  {
    match op {
      case Prepare(_, _, _) => PrepareKeepsIndex(cfg, c, op, c');
      case EvictExpired(now) => DropAllKeepsIndex(cfg, c, ExpiredIds(cfg, c, now));
      case EvictLru =>
        if |c.statements| > cfg.maxEntries {
          EvictedOneKeepsIndex(cfg, c, c');
        }
      case Execute(id, _, _) => ExecuteKeepsIndex(cfg, c, op, c');
      case Invalidate(id) => DropKeepsIndex(cfg, c, id);
      case CachePlan(id, plan) => CachePlanKeepsIndex(cfg, c, id, plan, c');
      case Get(_, _) =>
      case LookupQuery(_) =>
      case InvalidateAll =>
    }
  }

  lemma EmptyIndex(cfg: Config)
    ensures IndexInv(cfg, EMPTY) && Dangling(EMPTY) == {}
  {
  }

  lemma {:induction false} RunKeepsIndex(cfg: Config, states: seq<Cache>, ops: seq<Op>)
    requires IsRun(cfg, states, ops)
    ensures IndexInv(cfg, Last(states)) && Dangling(Last(states)) == LeftDangling(cfg, states, ops)
    decreases |ops|
  {
    hide IndexInv, Next, Dangling, DanglingAfter;
    if ops == [] {
      EmptyIndex(cfg);
    } else {
      var n := |ops| - 1;
      RunKeepsIndex(cfg, states[..n + 1], ops[..n]);
      StepKeepsIndex(cfg, states[n], ops[n], states[n + 1]);
    }
  }

  /**
   * In every run each resident id is the fingerprint of its stored query and is
   * mapped to itself, and the two maps have the same keys exactly when the run
   * left no id dangling.
   */
  lemma MapsAgreeInEveryRun(cfg: Config, states: seq<Cache>, ops: seq<Op>)
    requires IsRun(cfg, states, ops)
    ensures var c := Last(states);
      && (forall id :: id in c.statements ==>
            Fingerprint(cfg, c.statements[id].query) == id && id in c.fingerprints && c.fingerprints[id] == id)
      && c.fingerprints.Keys - c.statements.Keys == LeftDangling(cfg, states, ops)
      && (c.statements.Keys == c.fingerprints.Keys <==> LeftDangling(cfg, states, ops) == {})
  {
    RunKeepsIndex(cfg, states, ops);
    var c := Last(states);
    assert c.statements.Keys <= c.fingerprints.Keys;
    if Dangling(c) == {} {
      forall fp | fp in c.fingerprints ensures fp in c.statements {
        assert fp !in Dangling(c);
      }
    }
  }

  lemma {:induction false} NoExpiredNoDangling(cfg: Config, states: seq<Cache>, ops: seq<Op>)
    requires |states| == |ops| + 1 && forall i :: 0 <= i < |ops| ==> !ExpiredExecute(cfg, states[i], ops[i])
    ensures LeftDangling(cfg, states, ops) == {}
    decreases |ops|
  {
    if ops != [] {
      var n := |ops| - 1;
      NoExpiredNoDangling(cfg, states[..n + 1], ops[..n]);
    }
  }

  /**
   * What a dangling id costs: looking up its query still finds it, and exactly
   * then the id found is refused as unknown, by execution and by reading.
   */
  lemma FoundButUnknownExactly(cfg: Config, states: seq<Cache>, ops: seq<Op>, query: string, provided: set<string>, now: int)
    requires IsRun(cfg, states, ops)
    ensures var (c, fp) := (Last(states), Fingerprint(cfg, query));
      var found := Lookup(c.fingerprints, fp);
      && (found.Some? ==> found.value == fp)
      && (found.Some? && Refusal(cfg, c, fp, provided, now) == Some(NotFound(fp)) <==> fp in LeftDangling(cfg, states, ops))
      && (fp in LeftDangling(cfg, states, ops) ==> fp !in c.statements)
  {
    RunKeepsIndex(cfg, states, ops);
    var c, fp := Last(states), Fingerprint(cfg, query);
    assert fp in Dangling(c) <==> fp in c.fingerprints && fp !in c.statements;
  }

  /** With a hash without collisions, two queries share an id exactly when they have the same words, keywords taken in lower case. */
  lemma SharedIdExactly(cfg: Config, a: string, b: string)
    requires forall s, t :: cfg.hash(s) == cfg.hash(t) ==> s == t
    ensures Fingerprint(cfg, a) == Fingerprint(cfg, b) <==> SameQuery(a, b)
  {
    NormalizeIdentifiesExactly(a, b);
  }

  // ---- Size -------------------------------------------------------------------------

  /** The bound: one statement is kept even when the configured capacity is zero. */
  function Bound(cfg: Config): nat {
    if cfg.maxEntries == 0 then 1 else cfg.maxEntries
  }

  lemma FewerKeys<V>(m: map<Id, V>, n: map<Id, V>)
    requires m.Keys <= n.Keys
    ensures |m| <= |n|
  {
    SubsetIsSmaller(m.Keys, n.Keys);
  }

  lemma EvictedOneSize(cfg: Config, c: Cache, c': Cache)
    requires EvictedOne(cfg, c, c')
    ensures |c'.statements| == if c.statements == map[] then 0 else |c.statements| - 1
  {
    if c.statements != map[] {
      var id :| LeastRecentlyUsed(c, id) && c' == Drop(cfg, c, id);
      assert c'.statements.Keys == c.statements.Keys - {id};
    }
  }

  lemma InsertSize(cfg: Config, c: Cache, stmt: Stmt)
    requires stmt.id !in c.statements
    ensures |Insert(cfg, c, stmt).statements| == |c.statements| + 1
  {
    assert Insert(cfg, c, stmt).statements.Keys == c.statements.Keys + {stmt.id};
  }

  lemma StepKeepsSize(cfg: Config, c: Cache, op: Op, c': Cache)
    requires |c.statements| <= Bound(cfg) && Next(cfg, c, op, c')
    ensures |c'.statements| <= Bound(cfg)
  {
    if op.Prepare? && Fingerprint(cfg, op.query) !in c.statements {
      var room :| (if |c.statements| >= cfg.maxEntries then EvictedOne(cfg, c, room) else room == c)
                  && c' == Insert(cfg, room, NewStmt(cfg, op.query, op.plan, op.now));
      if |c.statements| >= cfg.maxEntries {
        EvictedOneSize(cfg, c, room);
      }
      InsertSize(cfg, room, NewStmt(cfg, op.query, op.plan, op.now));
    } else if op.EvictLru? && |c.statements| > cfg.maxEntries {
      EvictedOneSize(cfg, c, c');
    } else {
      assert c'.statements.Keys <= c.statements.Keys;
      FewerKeys(c'.statements, c.statements);
    }
  }

  /** In every run the cache stays within its capacity, or within one statement when that is zero. */
  lemma {:induction false} SizeIsBounded(cfg: Config, states: seq<Cache>, ops: seq<Op>)
    requires IsRun(cfg, states, ops)
    ensures |Last(states).statements| <= Bound(cfg)
    decreases |ops|
  {
    if ops != [] {
      var n := |ops| - 1;
      SizeIsBounded(cfg, states[..n + 1], ops[..n]);
      StepKeepsSize(cfg, states[n], ops[n], states[n + 1]);
    }
  }

  /** A capacity of zero is exceeded by the first prepare. */
  lemma ZeroCapacityHoldsOne(cfg: Config, query: string, plan: Plan, now: int, c': Cache)
    requires Next(cfg, EMPTY, Op.Prepare(query, plan, now), c')
    ensures |c'.statements| == 1
  {
    assert c'.statements.Keys == {Fingerprint(cfg, query)};
  }

  // ---- Least recently used -----------------------------------------------------------

  function Clock(op: Op): Option<int> {
    match op
    case Prepare(_, _, now) => Some(now)
    case Get(_, now) => Some(now)
    case Execute(_, _, now) => Some(now)
    case EvictExpired(now) => Some(now)
    case _ => None
  }

  predicate StrictlyIncreasing(ops: seq<Op>) {
    forall i, j :: 0 <= i < j < |ops| && Clock(ops[i]).Some? && Clock(ops[j]).Some? ==> Clock(ops[i]).value < Clock(ops[j]).value
  }

  /** Neither expires nor invalidates a resident statement. */
  predicate Clean(cfg: Config, c: Cache, op: Op) {
    match op
    case Execute(_, _, _) => !ExpiredExecute(cfg, c, op)
    case Invalidate(id) => id !in c.statements
    case InvalidateAll => c.statements == map[]
    case EvictExpired(now) => ExpiredIds(cfg, c, now) == {}
    case _ => true
  }

  /** The id an operation touches: a prepare touches its id, and so does a successful execution. */
  function Touched(cfg: Config, c: Cache, op: Op): Option<Id> {
    match op
    case Prepare(query, _, _) => Some(Fingerprint(cfg, query))
    case Execute(id, provided, now) => if Refusal(cfg, c, id, provided, now).None? then Some(id) else None
    case _ => None
  }

  /** When each id was last touched in the run. */
  function LastTouch(cfg: Config, states: seq<Cache>, ops: seq<Op>): map<Id, int>
    requires |states| == |ops| + 1
    decreases |ops|
  {
    if ops == [] then map[]
    else
      var n := |ops| - 1;
      TouchBy(cfg, states[n], ops[n], LastTouch(cfg, states[..n + 1], ops[..n]))
  }

  function TouchBy(cfg: Config, c: Cache, op: Op, touch: map<Id, int>): map<Id, int> {
    var t := Touched(cfg, c, op);
    if t.Some? then touch[t.value := Clock(op).value] else touch
  }

  predicate Distinct(touch: map<Id, int>) {
    forall a, b :: a in touch && b in touch && touch[a] == touch[b] ==> a == b
  }

  predicate Stamped(c: Cache, touch: map<Id, int>) {
    forall id :: id in c.statements ==> id in touch && c.statements[id].lastUsed == touch[id]
  }

  /** Everything touched and gone was touched before everything kept. */
  predicate Newest(kept: set<Id>, touch: map<Id, int>) {
    forall r, y :: r in kept && y in touch && y !in kept && r in touch ==> touch[y] < touch[r]
  }

  predicate Before(touch: map<Id, int>, now: int) {
    forall id :: id in touch ==> touch[id] < now
  }

  /** The residents are the most recently touched ids, as many as fit. */
  ghost predicate Recent(cfg: Config, c: Cache, touch: map<Id, int>) {
    && Stamped(c, touch) && Distinct(touch) && Newest(c.statements.Keys, touch)
    && |c.statements| <= cfg.maxEntries
    && (|c.statements| < cfg.maxEntries ==> touch.Keys <= c.statements.Keys)
  }

  lemma TouchLater(kept: set<Id>, touch: map<Id, int>, id: Id, now: int)
    requires Distinct(touch) && Before(touch, now)
    ensures Distinct(touch[id := now])
    ensures Newest(kept, touch) && id in kept ==> Newest(kept, touch[id := now])
  {
  }

  lemma TouchResident(cfg: Config, c: Cache, touch: map<Id, int>, id: Id, stmt: Stmt)
    requires Recent(cfg, c, touch) && id in c.statements && Before(touch, stmt.lastUsed)
    ensures Recent(cfg, c.(statements := c.statements[id := stmt]), touch[id := stmt.lastUsed])
  {
    assert c.statements[id := stmt].Keys == c.statements.Keys;
    TouchLater(c.statements.Keys, touch, id, stmt.lastUsed);
  }

  /** Evicting the least recently used and then adding the newcomer keeps the most recent. */
  lemma EvictThenAdd(c: Cache, touch: map<Id, int>, out: Id, id: Id, now: int)
    requires Stamped(c, touch) && Distinct(touch) && Newest(c.statements.Keys, touch) && Before(touch, now)
    requires LeastRecentlyUsed(c, out) && id !in c.statements
    ensures Newest(c.statements.Keys - {out} + {id}, touch[id := now])
  {
    var kept := c.statements.Keys - {out} + {id};
    forall r, y | r in kept && y in touch && y !in kept && r in touch && r != id ensures touch[y] < touch[r] {
      assert c.statements[out].lastUsed <= c.statements[r].lastUsed;
    }
  }

  lemma InsertStamped(cfg: Config, c: Cache, touch: map<Id, int>, stmt: Stmt)
    requires Stamped(c, touch)
    ensures Stamped(Insert(cfg, c, stmt), touch[stmt.id := stmt.lastUsed])
  {
  }

  lemma DropStamped(cfg: Config, c: Cache, touch: map<Id, int>, id: Id)
    requires Stamped(c, touch)
    ensures Stamped(Drop(cfg, c, id), touch)
  {
  }

  lemma TouchNewInRoom(cfg: Config, c: Cache, touch: map<Id, int>, stmt: Stmt)
    requires Recent(cfg, c, touch) && stmt.id !in c.statements && Before(touch, stmt.lastUsed)
    requires |c.statements| < cfg.maxEntries
    ensures Recent(cfg, Insert(cfg, c, stmt), touch[stmt.id := stmt.lastUsed])
  {
    var kept := c.statements.Keys + {stmt.id};
    assert Insert(cfg, c, stmt).statements.Keys == kept;
    assert touch[stmt.id := stmt.lastUsed].Keys <= kept;
    InsertStamped(cfg, c, touch, stmt);
    TouchLater(c.statements.Keys, touch, stmt.id, stmt.lastUsed);
    InsertSize(cfg, c, stmt);
  }

  lemma TouchNewWhenFull(cfg: Config, c: Cache, touch: map<Id, int>, stmt: Stmt, out: Id)
    requires Recent(cfg, c, touch) && stmt.id !in c.statements && Before(touch, stmt.lastUsed)
    requires |c.statements| == cfg.maxEntries && LeastRecentlyUsed(c, out)
    ensures Recent(cfg, Insert(cfg, Drop(cfg, c, out), stmt), touch[stmt.id := stmt.lastUsed])
  {
    var room := Drop(cfg, c, out);
    assert Insert(cfg, room, stmt).statements.Keys == c.statements.Keys - {out} + {stmt.id};
    EvictThenAdd(c, touch, out, stmt.id, stmt.lastUsed);
    DropStamped(cfg, c, touch, out);
    InsertStamped(cfg, room, touch, stmt);
    TouchLater(c.statements.Keys, touch, stmt.id, stmt.lastUsed);
    assert room.statements.Keys == c.statements.Keys - {out};
    InsertSize(cfg, room, stmt);
  }

  lemma PrepareKeepsRecent(cfg: Config, c: Cache, op: Op, c': Cache, touch: map<Id, int>)
    requires cfg.maxEntries >= 1 && Recent(cfg, c, touch)
    requires op.Prepare? && Next(cfg, c, op, c') && Before(touch, op.now)
    ensures Recent(cfg, c', touch[Fingerprint(cfg, op.query) := op.now])
  {
    var id := Fingerprint(cfg, op.query);
    if id in c.statements {
      TouchResident(cfg, c, touch, id, c.statements[id].(lastUsed := op.now));
    } else {
      var stmt := NewStmt(cfg, op.query, op.plan, op.now);
      var room :| (if |c.statements| >= cfg.maxEntries then EvictedOne(cfg, c, room) else room == c)
                  && c' == Insert(cfg, room, stmt);
      if |c.statements| < cfg.maxEntries {
        TouchNewInRoom(cfg, c, touch, stmt);
      } else {
        var out :| LeastRecentlyUsed(c, out) && room == Drop(cfg, c, out);
        TouchNewWhenFull(cfg, c, touch, stmt, out);
      }
    }
  }

  /** Rewriting a resident without touching it. */
  lemma RewriteKeepsRecent(cfg: Config, c: Cache, touch: map<Id, int>, id: Id, stmt: Stmt)
    requires Recent(cfg, c, touch) && id in c.statements && stmt.lastUsed == c.statements[id].lastUsed
    ensures Recent(cfg, c.(statements := c.statements[id := stmt]), touch)
  {
    assert c.statements[id := stmt].Keys == c.statements.Keys;
  }

  lemma ExecuteKeepsRecent(cfg: Config, c: Cache, op: Op, c': Cache, touch: map<Id, int>)
    requires Recent(cfg, c, touch)
    requires op.Execute? && Next(cfg, c, op, c') && Clean(cfg, c, op)
    requires Touched(cfg, c, op).Some? ==> Before(touch, op.now)
    ensures Recent(cfg, c', TouchBy(cfg, c, op, touch))
  {
    hide Recent, Before;
    if Refusal(cfg, c, op.id, op.provided, op.now).None? {
      TouchResident(cfg, c, touch, op.id, c.statements[op.id].(useCount := c.statements[op.id].useCount + 1, lastUsed := op.now));
    }
  }

  lemma IdleKeepsRecent(cfg: Config, c: Cache, op: Op, c': Cache, touch: map<Id, int>)
    requires Recent(cfg, c, touch) && Next(cfg, c, op, c') && Clean(cfg, c, op)
    requires !op.Prepare? && !op.Execute? && !op.CachePlan?
    ensures Recent(cfg, c', touch)
  {
    assert c'.statements == c.statements;
  }

  lemma StepKeepsRecent(cfg: Config, c: Cache, op: Op, c': Cache, touch: map<Id, int>)
    requires cfg.maxEntries >= 1 && Recent(cfg, c, touch)
    requires Next(cfg, c, op, c') && Clean(cfg, c, op)
    requires Touched(cfg, c, op).Some? ==> Before(touch, Clock(op).value)
    ensures Recent(cfg, c', TouchBy(cfg, c, op, touch))
  {
    hide Recent, Before, EvictedOne, LeastRecentlyUsed;
    match op {
      case Prepare(_, _, _) => PrepareKeepsRecent(cfg, c, op, c', touch);
      case Execute(_, _, _) => ExecuteKeepsRecent(cfg, c, op, c', touch);
      case CachePlan(id, plan) =>
        if id in c.statements {
          RewriteKeepsRecent(cfg, c, touch, id, c.statements[id].(physicalPlan := Some(plan)));
        }
      case _ => IdleKeepsRecent(cfg, c, op, c', touch);
    }
  }

  lemma {:induction false} TouchesArePast(cfg: Config, states: seq<Cache>, ops: seq<Op>, id: Id)
    requires |states| == |ops| + 1 && id in LastTouch(cfg, states, ops)
    ensures exists i :: 0 <= i < |ops| && Clock(ops[i]) == Some(LastTouch(cfg, states, ops)[id])
    decreases |ops|
  {
    var n := |ops| - 1;
    if Touched(cfg, states[n], ops[n]) != Some(id) {
      TouchesArePast(cfg, states[..n + 1], ops[..n], id);
      var i :| 0 <= i < n && Clock(ops[..n][i]) == Some(LastTouch(cfg, states[..n + 1], ops[..n])[id]);
      assert Clock(ops[i]) == Some(LastTouch(cfg, states, ops)[id]);
    } else {
      assert Clock(ops[n]) == Some(LastTouch(cfg, states, ops)[id]);
    }
  }

  ghost predicate IsCleanRun(cfg: Config, states: seq<Cache>, ops: seq<Op>) {
    && IsRun(cfg, states, ops) && StrictlyIncreasing(ops)
    && forall i :: 0 <= i < |ops| ==> Clean(cfg, states[i], ops[i])
  }

  lemma {:induction false} RunKeepsRecent(cfg: Config, states: seq<Cache>, ops: seq<Op>)
    requires cfg.maxEntries >= 1 && IsCleanRun(cfg, states, ops)
    ensures Recent(cfg, Last(states), LastTouch(cfg, states, ops))
    decreases |ops|
  {
    if ops != [] {
      var n := |ops| - 1;
      var touch := LastTouch(cfg, states[..n + 1], ops[..n]);
      RunKeepsRecent(cfg, states[..n + 1], ops[..n]);
      if Touched(cfg, states[n], ops[n]).Some? {
        forall id | id in touch ensures touch[id] < Clock(ops[n]).value {
          TouchesArePast(cfg, states[..n + 1], ops[..n], id);
          var i :| 0 <= i < n && Clock(ops[..n][i]) == Some(touch[id]);
          assert Clock(ops[i]).value < Clock(ops[n]).value;
        }
      }
      StepKeepsRecent(cfg, states[n], ops[n], states[n + 1], touch);
    }
  }

  /** The ids touched later than `id`. */
  function TouchedLater(touch: map<Id, int>, id: Id): set<Id>
    requires id in touch
  {
    set y | y in touch && touch[y] > touch[id]
  }

  /** Among distinct touch times, the kept newest are those with fewer than `n` later ones. */
  lemma NewestByRank(kept: set<Id>, touch: map<Id, int>, n: nat, id: Id)
    requires kept <= touch.Keys && Distinct(touch) && Newest(kept, touch) && id in touch
    requires |kept| <= n && (|kept| < n ==> touch.Keys <= kept)
    ensures id in kept <==> |TouchedLater(touch, id)| < n
  {
    var later := TouchedLater(touch, id);
    if id in kept {
      assert later <= kept - {id};
      SubsetIsSmaller(later, kept - {id});
    } else {
      assert kept <= later;
      SubsetIsSmaller(kept, later);
    }
  }

  /**
   * Least recently used, over a whole run: with a strictly increasing clock, a
   * capacity of at least one, and no expiry or invalidation, an id is resident
   * exactly when it has been touched and fewer than `maxEntries` ids were
   * touched after it.
   */
  lemma ResidentExactlyWhenRecent(cfg: Config, states: seq<Cache>, ops: seq<Op>, id: Id)
    requires cfg.maxEntries >= 1 && IsCleanRun(cfg, states, ops)
    ensures var touch := LastTouch(cfg, states, ops);
      id in Last(states).statements <==> id in touch && |TouchedLater(touch, id)| < cfg.maxEntries
  {
    var touch := LastTouch(cfg, states, ops);
    RunKeepsRecent(cfg, states, ops);
    if id in touch {
      NewestByRank(Last(states).statements.Keys, touch, cfg.maxEntries, id);
    }
  }
}
