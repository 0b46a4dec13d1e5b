/**
 * What a resident statement tells of the run that led to it: the prepare that
 * brought it in, the touches since, and from which moment its time to live runs.
 */
module PlanCacheLives {
  import opened Wrappers
  import opened QueryText
  import opened PlanCaches
  import opened PlanCacheRuns

  // ---- Told from the operations ----------------------------------------------------------

  predicate Prepares(cfg: Config, op: Op, id: Id) {
    op.Prepare? && cfg.hash(Normalize(op.query)) == id
  }

  /** Operation `i` is a prepare that brought `id` into the cache, which has held it since. */
  ghost predicate BornAt(cfg: Config, states: seq<Cache>, ops: seq<Op>, i: nat, id: Id) {
    && i < |ops| && |states| == |ops| + 1
    && Prepares(cfg, ops[i], id) && id !in states[i].statements
    && forall j :: i < j <= |ops| ==> id in states[j].statements
  }

  /** More than the time to live has passed since the prepare. */
  predicate Outlived(cfg: Config, born: Op, now: int)
    requires born.Prepare?
  {
    now > born.now + cfg.ttl
  }

  /** The names given are those in the query; a query without parameters takes anything. */
  ghost predicate Fits(cfg: Config, born: Op, provided: set<string>)
    requires born.Prepare?
  {
    var ps := Parameters(cfg.alphanumeric, born.query);
    ps == [] || forall p :: p in ps <==> p in provided
  }

  /** An execution in time and with the right names. */
  ghost predicate Serves(cfg: Config, born: Op, op: Op, id: Id)
    requires born.Prepare?
  {
    op.Execute? && op.id == id && !Outlived(cfg, born, op.now) && Fits(cfg, born, op.provided)
  }

  ghost predicate Renews(cfg: Config, born: Op, op: Op, id: Id)
    requires born.Prepare?
  {
    Prepares(cfg, op, id) || Serves(cfg, born, op, id)
  }

  /** `time` is the reading of the last operation from the `i`-th on that used the statement. */
  ghost predicate LastUse(cfg: Config, ops: seq<Op>, i: nat, id: Id, time: int)
    requires i < |ops| && ops[i].Prepare?
  {
    exists k :: i <= k < |ops| && Renews(cfg, ops[i], ops[k], id) && Clock(ops[k]) == Some(time)
                && forall j :: k < j < |ops| ==> !Renews(cfg, ops[i], ops[j], id)
  }

  predicate Plans(op: Op, id: Id) {
    op.CachePlan? && op.id == id
  }

  /** `plan` is the last physical plan cached for the statement since the `i`-th operation, if one was. */
  ghost predicate LastPlan(ops: seq<Op>, i: nat, id: Id, plan: Option<Plan>) {
    match plan
    case None => forall j :: i < j < |ops| ==> !Plans(ops[j], id)
    case Some(p) => exists k :: i < k < |ops| && ops[k] == Op.CachePlan(id, p) && forall j :: k < j < |ops| ==> !Plans(ops[j], id)
  }

  ghost function Servings(cfg: Config, ops: seq<Op>, i: nat, id: Id): set<nat>
    requires i < |ops| && ops[i].Prepare?
  {
    set j: nat | i < j < |ops| && Serves(cfg, ops[i], ops[j], id)
  }

  /** Everything a statement holds, told from the prepare that brought it in and the operations since. */
  ghost predicate Lived(cfg: Config, ops: seq<Op>, i: nat, id: Id, stmt: Stmt)
    requires i < |ops| && ops[i].Prepare?
  {
    && stmt.id == id && stmt.query == ops[i].query && stmt.plan == ops[i].plan
    && stmt.params == Parameters(cfg.alphanumeric, ops[i].query)
    && stmt.createdAt == ops[i].now
    && stmt.useCount == |Servings(cfg, ops, i, id)|
    && LastUse(cfg, ops, i, id, stmt.lastUsed)
    && LastPlan(ops, i, id, stmt.physicalPlan)
  }

  // ---- One operation ------------------------------------------------------------------------

  /** What an operation makes of a statement that stays. */
  ghost predicate Passes(cfg: Config, op: Op, id: Id, was: Stmt, now: Stmt) {
    && now.id == was.id && now.query == was.query && now.params == was.params && now.plan == was.plan && now.createdAt == was.createdAt
    && (Prepares(cfg, op, id) ==> now == was.(lastUsed := op.now))
    && (Plans(op, id) ==> now == was.(physicalPlan := Some(op.plan)))
    && (!Prepares(cfg, op, id) && !Plans(op, id) && !(op.Execute? && op.id == id) ==> now == was)
  }

  lemma EvictedOneSpares(cfg: Config, c: Cache, c': Cache, id: Id)
    requires EvictedOne(cfg, c, c') && id in c'.statements
    ensures id in c.statements && c'.statements[id] == c.statements[id]
  {
  }

  lemma StatementPasses(cfg: Config, c: Cache, op: Op, c': Cache, id: Id)
    requires Next(cfg, c, op, c') && id in c.statements && id in c'.statements
    ensures Passes(cfg, op, id, c.statements[id], c'.statements[id])
  {
    hide EvictedOne;
    if op.Prepare? && Fingerprint(cfg, op.query) !in c.statements {
      var room :| (if |c.statements| >= cfg.maxEntries then EvictedOne(cfg, c, room) else room == c)
                  && c' == Insert(cfg, room, NewStmt(cfg, op.query, op.plan, op.now));
      if |c.statements| >= cfg.maxEntries {
        EvictedOneSpares(cfg, c, room, id);
      }
    } else if op.EvictLru? && |c.statements| > cfg.maxEntries {
      EvictedOneSpares(cfg, c, c', id);
    }
  }

  /** The names differ as sorted lists exactly when they differ at all: each name of a query is listed once. */
  lemma FitsExactly(cfg: Config, born: Op, stmt: Stmt, provided: set<string>)
    requires born.Prepare? && stmt.params == Parameters(cfg.alphanumeric, born.query)
    ensures Mismatch(stmt, provided) <==> !Fits(cfg, born, provided)
  {
    var ps := stmt.params;
    ParametersExactly(cfg.alphanumeric, born.query);
    OnceEach(ps);
    if forall p :: p in ps <==> p in provided {
      assert multiset(ps) == multiset(provided);
    } else {
      var p :| !(p in ps <==> p in provided);
      assert multiset(ps)[p] != multiset(provided)[p];
    }
  }

  lemma {:induction false} OnceEach(ps: seq<string>)
    requires forall i, j :: 0 <= i < j < |ps| ==> ps[i] != ps[j]
    ensures forall p :: multiset(ps)[p] == if p in ps then 1 else 0
  {
    if ps != [] {
      OnceEach(ps[1..]);
      assert ps == [ps[0]] + ps[1..];
    }
  }

  /** An execution by a statement that lived so far: counted and stamped exactly when in time and fitting. */
  lemma ExecutionPasses(cfg: Config, born: Op, c: Cache, op: Op, c': Cache, id: Id)
    requires Next(cfg, c, op, c') && id in c.statements && op.Execute? && op.id == id
    requires born.Prepare? && c.statements[id].params == Parameters(cfg.alphanumeric, born.query) && c.statements[id].createdAt == born.now
    ensures id in c'.statements <==> !Outlived(cfg, born, op.now)
    ensures id in c'.statements ==>
      var was := c.statements[id];
      c'.statements[id] == if Serves(cfg, born, op, id) then was.(useCount := was.useCount + 1, lastUsed := op.now) else was
  {
    hide Mismatch, Fits;
    FitsExactly(cfg, born, c.statements[id], op.provided);
  }

  // ---- Over a run -----------------------------------------------------------------------------

  lemma PrefixIsRun(cfg: Config, states: seq<Cache>, ops: seq<Op>)
    requires IsRun(cfg, states, ops) && ops != []
    ensures IsRun(cfg, states[..|ops|], ops[..|ops| - 1]) && Next(cfg, states[|ops| - 1], ops[|ops| - 1], states[|ops|])
  {
    hide Next;
  }

  /** A statement that comes in is as its prepare makes it. */
  lemma NewbornLives(cfg: Config, c: Cache, ops: seq<Op>, c': Cache, id: Id)
    requires ops != [] && Next(cfg, c, ops[|ops| - 1], c') && id !in c.statements && id in c'.statements
    ensures Prepares(cfg, ops[|ops| - 1], id) && Lived(cfg, ops, |ops| - 1, id, c'.statements[id])
  {
    var n := |ops| - 1;
    var op := ops[n];
    ComesByPrepare(cfg, c, op, c', id);
    assert Renews(cfg, ops[n], ops[n], id);
    assert Servings(cfg, ops, n, id) == {};
  }

  lemma ComesByPrepare(cfg: Config, c: Cache, op: Op, c': Cache, id: Id)
    requires Next(cfg, c, op, c') && id !in c.statements && id in c'.statements
    ensures Prepares(cfg, op, id) && c'.statements[id] == NewStmt(cfg, op.query, op.plan, op.now)
  {
    hide EvictedOne;
    if op.Prepare? && Fingerprint(cfg, op.query) !in c.statements {
      var room :| (if |c.statements| >= cfg.maxEntries then EvictedOne(cfg, c, room) else room == c)
                  && c' == Insert(cfg, room, NewStmt(cfg, op.query, op.plan, op.now));
      if |c.statements| >= cfg.maxEntries && id in room.statements {
        EvictedOneSpares(cfg, c, room, id);
      }
    } else if op.EvictLru? && |c.statements| > cfg.maxEntries {
      EvictedOneSpares(cfg, c, c', id);
    }
  }

  /** A statement that stays lives on. */
  lemma LivesOn(cfg: Config, c: Cache, ops: seq<Op>, c': Cache, i: nat, id: Id)
    requires i < |ops| - 1 && Next(cfg, c, ops[|ops| - 1], c') && id in c.statements && id in c'.statements
    requires Prepares(cfg, ops[i], id) && Lived(cfg, ops[..|ops| - 1], i, id, c.statements[id])
    ensures Lived(cfg, ops, i, id, c'.statements[id])
  {
    var n, op, born := |ops| - 1, ops[|ops| - 1], ops[i];
    var was, now := c.statements[id], c'.statements[id];
    StatementPasses(cfg, c, op, c', id);
    if op.Execute? && op.id == id {
      ExecutionPasses(cfg, born, c, op, c', id);
    }
    assert ops[..n][i] == born;
    UsesGrow(cfg, ops, i, id, was.lastUsed, now.lastUsed);
    PlansGrow(ops, i, id, was.physicalPlan, now.physicalPlan);
    ServingsGrow(cfg, ops, i, id);
  }

  lemma ServingsGrow(cfg: Config, ops: seq<Op>, i: nat, id: Id)
    requires i < |ops| - 1 && ops[i].Prepare?
    ensures var n := |ops| - 1;
      |Servings(cfg, ops, i, id)| == |Servings(cfg, ops[..n], i, id)| + if Serves(cfg, ops[i], ops[n], id) then 1 else 0
  {
    var n := |ops| - 1;
    assert Servings(cfg, ops, i, id) == Servings(cfg, ops[..n], i, id) + if Serves(cfg, ops[i], ops[n], id) then {n} else {};
  }

  lemma UsesGrow(cfg: Config, ops: seq<Op>, i: nat, id: Id, was: int, now: int)
    requires i < |ops| - 1 && ops[i].Prepare? && LastUse(cfg, ops[..|ops| - 1], i, id, was)
    requires var op := ops[|ops| - 1];
      if Renews(cfg, ops[i], op, id) then Clock(op) == Some(now) else now == was
    ensures LastUse(cfg, ops, i, id, now)
  {
    hide Renews;
    var n := |ops| - 1;
    if !Renews(cfg, ops[i], ops[n], id) {
      var k :| i <= k < n && Renews(cfg, ops[..n][i], ops[..n][k], id) && Clock(ops[..n][k]) == Some(was)
               && forall j :: k < j < n ==> !Renews(cfg, ops[..n][i], ops[..n][j], id);
      forall j | k < j < |ops| ensures !Renews(cfg, ops[i], ops[j], id) {
        assert j < n ==> ops[..n][j] == ops[j];
      }
      assert Renews(cfg, ops[i], ops[k], id);
    }
  }

  lemma PlansGrow(ops: seq<Op>, i: nat, id: Id, was: Option<Plan>, now: Option<Plan>)
    requires i < |ops| - 1 && LastPlan(ops[..|ops| - 1], i, id, was)
    requires var op := ops[|ops| - 1];
      now == if Plans(op, id) then Some(op.plan) else was
    ensures LastPlan(ops, i, id, now)
  {
    var n := |ops| - 1;
    if !Plans(ops[n], id) && was.Some? {
      var k :| i < k < n && ops[..n][k] == Op.CachePlan(id, was.value) && forall j :: k < j < n ==> !Plans(ops[..n][j], id);
      forall j | k < j < |ops| ensures !Plans(ops[j], id) {
        assert j < n ==> ops[..n][j] == ops[j];
      }
      assert ops[k] == Op.CachePlan(id, was.value);
    } else if !Plans(ops[n], id) {
      forall j | i < j < |ops| ensures !Plans(ops[j], id) {
        assert j < n ==> ops[..n][j] == ops[j];
      }
    }
  }

  /**
   * In every run each resident statement was brought in by one prepare and
   * holds exactly what that prepare and the operations since say: the query,
   * the plan, and the creation time of the prepare, one use for each execution
   * in time with the right names, the time of the last use, and the last
   * physical plan cached for it.
   */
  lemma {:induction false} StatementsLived(cfg: Config, states: seq<Cache>, ops: seq<Op>, id: Id) returns (i: nat)
    requires IsRun(cfg, states, ops) && id in Last(states).statements
    ensures BornAt(cfg, states, ops, i, id) && Lived(cfg, ops, i, id, Last(states).statements[id])
    decreases |ops|
  {
    hide Next, Lived;
    var n := |ops| - 1;
    PrefixIsRun(cfg, states, ops);
    if id in states[n].statements {
      i := StatementsLived(cfg, states[..n + 1], ops[..n], id);
      assert Prepares(cfg, ops[i], id);
      LivesOn(cfg, states[n], ops, states[n + 1], i, id);
    } else {
      NewbornLives(cfg, states[n], ops, states[n + 1], id);
      i := n;
    }
  }

  lemma BornOnce(cfg: Config, states: seq<Cache>, ops: seq<Op>, i: nat, j: nat, id: Id)
    requires BornAt(cfg, states, ops, i, id) && BornAt(cfg, states, ops, j, id)
    ensures i == j
  {
  }

  lemma BornLived(cfg: Config, states: seq<Cache>, ops: seq<Op>, i: nat, id: Id)
    requires IsRun(cfg, states, ops) && BornAt(cfg, states, ops, i, id)
    ensures id in Last(states).statements && Lived(cfg, ops, i, id, Last(states).statements[id])
  {
    var j := StatementsLived(cfg, states, ops, id);
    BornOnce(cfg, states, ops, i, j, id);
  }

  /**
   * The time to live runs from the prepare that brought the statement in,
   * whatever touched it since: an execution is refused as expired, a reading
   * finds nothing, and both an execution and the sweep take the statement out,
   * exactly when more than that time has passed.
   */
  lemma TimeToLiveRunsFromPrepare(cfg: Config, states: seq<Cache>, ops: seq<Op>, i: nat, id: Id, provided: set<string>, now: int, c': Cache)
    requires IsRun(cfg, states, ops) && BornAt(cfg, states, ops, i, id)
    ensures var (c, late) := (Last(states), Outlived(cfg, ops[i], now));
      && (Refusal(cfg, c, id, provided, now) == Some(Expired(id)) <==> late)
      && (Reading(cfg, c, id, now) == if late then None else Some(c.statements[id]))
      && (Next(cfg, c, Op.Execute(id, provided, now), c') ==> (id !in c'.statements <==> late))
      && (Next(cfg, c, Op.EvictExpired(now), c') ==> (id !in c'.statements <==> late))
  {
    BornLived(cfg, states, ops, i, id);
  }

  /** An execution of a resident statement succeeds exactly when it is in time and fits; otherwise age is reported before names. */
  lemma ExecutionAnswers(cfg: Config, states: seq<Cache>, ops: seq<Op>, i: nat, id: Id, provided: set<string>, now: int)
    requires IsRun(cfg, states, ops) && BornAt(cfg, states, ops, i, id)
    ensures Refusal(cfg, Last(states), id, provided, now) ==
              if Outlived(cfg, ops[i], now) then Some(Expired(id))
              else if Fits(cfg, ops[i], provided) then None
              else Some(ParameterMismatch(Parameters(cfg.alphanumeric, ops[i].query), provided))
  {
    hide Fits, Mismatch;
    BornLived(cfg, states, ops, i, id);
    FitsExactly(cfg, ops[i], Last(states).statements[id], provided);
  }

  /** No statement of the cache was used before this one was last. */
  ghost predicate LongestUnused(c: Cache, id: Id) {
    id in c.statements && forall other :: other in c.statements ==> c.statements[other].lastUsed >= c.statements[id].lastUsed
  }

  /**
   * What takes a resident statement out: its own late execution, its own
   * invalidation, that of all, a sweep when it is late, and, for want of room
   * only, a new statement or an eviction when none was unused for longer.
   */
  lemma LostExactly(cfg: Config, states: seq<Cache>, ops: seq<Op>, i: nat, id: Id, op: Op, c': Cache)
    requires IsRun(cfg, states, ops) && BornAt(cfg, states, ops, i, id) && Next(cfg, Last(states), op, c')
    ensures var (c, lost) := (Last(states), id !in c'.statements);
      match op
      case Execute(x, _, now) => lost <==> x == id && Outlived(cfg, ops[i], now)
      case Invalidate(x) => lost <==> x == id
      case InvalidateAll => lost
      case EvictExpired(now) => lost <==> Outlived(cfg, ops[i], now)
      case Prepare(query, _, _) =>
        lost ==> cfg.hash(Normalize(query)) !in c.statements && |c.statements| >= cfg.maxEntries && LongestUnused(c, id)
      case EvictLru => lost ==> |c.statements| > cfg.maxEntries && LongestUnused(c, id)
      case _ => !lost
  {
    hide Mismatch;
    BornLived(cfg, states, ops, i, id);
  }
}
