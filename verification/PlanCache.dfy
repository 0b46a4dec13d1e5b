/** The plan cache: two maps, least-recently-used eviction, and a time to live. */
module PlanCaches {
  import opened Wrappers
  import opened QueryText

  type Id = string

  /** Plans are carried, not inspected. */
  type Plan = string

  datatype Stmt = Stmt(
    id: Id, query: string, params: seq<string>, plan: Plan, physicalPlan: Option<Plan>,
    createdAt: int, lastUsed: int, useCount: nat)

  /** `hash` stands for SHA-256 in hex, `alphanumeric` for the library's test; times are readings of one clock. */
  datatype Config = Config(maxEntries: nat, ttl: nat, hash: string -> string, alphanumeric: char -> bool)

  datatype CacheError =
    | NotFound(id: Id)
    | ParameterMismatch(expected: seq<string>, provided: set<string>)
    | Expired(id: Id)

  datatype Cache = Cache(statements: map<Id, Stmt>, fingerprints: map<string, Id>)

  datatype Op =
    | Prepare(query: string, plan: Plan, now: int)
    | Get(id: Id, now: int)
    | Execute(id: Id, provided: set<string>, now: int)
    | Invalidate(id: Id)
    | InvalidateAll
    | LookupQuery(query: string)
    | CachePlan(id: Id, plan: Plan)
    | EvictExpired(now: int)
    | EvictLru

  const EMPTY := Cache(map[], map[])

  function Fingerprint(cfg: Config, query: string): string {
    cfg.hash(Normalize(query))
  }

  predicate IsExpired(cfg: Config, stmt: Stmt, now: int) {
    now - stmt.createdAt > cfg.ttl
  }

  /** The sorted name lists differ: the same names, each as often. */
  predicate Mismatch(stmt: Stmt, provided: set<string>) {
    stmt.params != [] && multiset(stmt.params) != multiset(provided)
  }

  function NewStmt(cfg: Config, query: string, plan: Plan, now: int): Stmt {
    Stmt(Fingerprint(cfg, query), query, Parameters(cfg.alphanumeric, query), plan, None, now, now, 0)
  }

  function Insert(cfg: Config, c: Cache, stmt: Stmt): Cache {
    Cache(c.statements[stmt.id := stmt], c.fingerprints[stmt.id := stmt.id])
  }

  function Drop(cfg: Config, c: Cache, id: Id): Cache {
    if id !in c.statements then c
    else Cache(c.statements - {id}, c.fingerprints - {Fingerprint(cfg, c.statements[id].query)})
  }

  predicate LeastRecentlyUsed(c: Cache, id: Id) {
    id in c.statements && forall other :: other in c.statements ==> c.statements[id].lastUsed <= c.statements[other].lastUsed
  }

  /** One least-recently-used statement is dropped; ties may fall either way. */
  ghost predicate EvictedOne(cfg: Config, c: Cache, c': Cache) {
    if c.statements == map[] then c' == c
    else exists id :: LeastRecentlyUsed(c, id) && c' == Drop(cfg, c, id)
  }

  function ExpiredIds(cfg: Config, c: Cache, now: int): set<Id> {
    set id | id in c.statements && IsExpired(cfg, c.statements[id], now)
  }

  function DropAll(cfg: Config, c: Cache, ids: set<Id>): Cache {
    Cache(c.statements - ids,
          c.fingerprints - (set id | id in ids && id in c.statements :: Fingerprint(cfg, c.statements[id].query)))
  }

  function Touch(c: Cache, id: Id, now: int): Cache
    requires id in c.statements
  {
    c.(statements := c.statements[id := c.statements[id].(lastUsed := now)])
  }

  /** What an operation may do to the cache. */
  ghost predicate Next(cfg: Config, c: Cache, op: Op, c': Cache) {
    match op
    case Prepare(query, plan, now) =>
      var id := Fingerprint(cfg, query);
      if id in c.statements then c' == Touch(c, id, now)
      else exists room :: (if |c.statements| >= cfg.maxEntries then EvictedOne(cfg, c, room) else room == c)
                          && c' == Insert(cfg, room, NewStmt(cfg, query, plan, now))
    case Get(_, _) | LookupQuery(_) => c' == c
    case Execute(id, provided, now) =>
      if id !in c.statements then c' == c
      else if IsExpired(cfg, c.statements[id], now) then c' == c.(statements := c.statements - {id})
      else if Mismatch(c.statements[id], provided) then c' == c
      else c' == Touch(c, id, now).(statements := c.statements[id :=
                   c.statements[id].(useCount := c.statements[id].useCount + 1, lastUsed := now)])
    case Invalidate(id) => c' == Drop(cfg, c, id)
    case InvalidateAll => c' == EMPTY
    case CachePlan(id, plan) =>
      c' == if id !in c.statements then c
            else c.(statements := c.statements[id := c.statements[id].(physicalPlan := Some(plan))])
    case EvictExpired(now) => c' == DropAll(cfg, c, ExpiredIds(cfg, c, now))
    case EvictLru => if |c.statements| <= cfg.maxEntries then c' == c else EvictedOne(cfg, c, c')
  }

  /** Why an execution is refused, if it is. */
  function Refusal(cfg: Config, c: Cache, id: Id, provided: set<string>, now: int): Option<CacheError> {
    if id !in c.statements then Some(NotFound(id))
    else if IsExpired(cfg, c.statements[id], now) then Some(Expired(id))
    else if Mismatch(c.statements[id], provided) then Some(ParameterMismatch(c.statements[id].params, provided))
    else None
  }

  /** What a reading finds. */
  function Reading(cfg: Config, c: Cache, id: Id, now: int): Option<Stmt> {
    if id in c.statements && !IsExpired(cfg, c.statements[id], now) then Some(c.statements[id]) else None
  }

  lemma DropOneMore(cfg: Config, c: Cache, done: set<Id>, id: Id)
    requires id in c.statements && id !in done
    ensures id in DropAll(cfg, c, done).statements && DropAll(cfg, c, done).statements[id] == c.statements[id]
    ensures DropAll(cfg, c, done + {id}) ==
              Cache(DropAll(cfg, c, done).statements - {id},
                    DropAll(cfg, c, done).fingerprints - {Fingerprint(cfg, c.statements[id].query)})
  {
    var fps := set i | i in done && i in c.statements :: Fingerprint(cfg, c.statements[i].query);
    var fps' := set i | i in done + {id} && i in c.statements :: Fingerprint(cfg, c.statements[i].query);
    assert fps' == fps + {Fingerprint(cfg, c.statements[id].query)};
  }

  class PlanCache {
    const cfg: Config
    var statements: map<Id, Stmt>
    var fingerprints: map<string, Id>

    ghost function View(): Cache
      reads this
    {
      Cache(statements, fingerprints)
    }

    constructor (cfg: Config)
      ensures View() == EMPTY && this.cfg == cfg
    {
      this.cfg := cfg;
      statements, fingerprints := map[], map[];
    }

    method Prepare(query: string, plan: Plan, now: int) returns (id: Id)
      modifies this
      ensures Next(cfg, old(View()), Op.Prepare(query, plan, now), View())
      ensures id == Fingerprint(cfg, query) && id in statements
    {
      id := Fingerprint(cfg, query);
      if id in statements {
        statements := statements[id := statements[id].(lastUsed := now)];
        return;
      }
      if |statements| >= cfg.maxEntries {
        EvictLruInner();
      }
      ghost var room := View();
      assert if |old(statements)| >= cfg.maxEntries then EvictedOne(cfg, old(View()), room) else room == old(View());
      var params := ExtractParameters(cfg.alphanumeric, query);
      statements := statements[id := Stmt(id, query, params, plan, None, now, now, 0)];
      fingerprints := fingerprints[id := id];
      assert View() == Insert(cfg, room, NewStmt(cfg, query, plan, now));
    }

    /** Present and not expired; an expired statement stays where it is. */
    method Get(id: Id, now: int) returns (r: Option<Stmt>)
      ensures Next(cfg, View(), Op.Get(id, now), View())
      ensures r == Reading(cfg, View(), id, now)
    {
      r := if id in statements && !IsExpired(cfg, statements[id], now) then Some(statements[id]) else None;
    }

    method Execute(id: Id, provided: set<string>, now: int) returns (r: Result<Stmt, CacheError>)
      modifies this
      ensures Next(cfg, old(View()), Op.Execute(id, provided, now), View())
      ensures r.Ok? ==> id in statements && r.value == statements[id] && r.value.lastUsed == now
      ensures Refusal(cfg, old(View()), id, provided, now) == if r.Err? then Some(r.error) else None
    {
      if id !in statements {
        return Err(NotFound(id));
      }
      var stmt := statements[id];
      if IsExpired(cfg, stmt, now) {
        statements := statements - {id};
        return Err(Expired(id));
      }
      if Mismatch(stmt, provided) {
        return Err(ParameterMismatch(stmt.params, provided));
      }
      statements := statements[id := stmt.(useCount := stmt.useCount + 1, lastUsed := now)];
      return Ok(statements[id]);
    }

    method Invalidate(id: Id) returns (removed: bool)
      modifies this
      ensures Next(cfg, old(View()), Op.Invalidate(id), View())
      ensures removed <==> id in old(statements)
    {
      removed := id in statements;
      if removed {
        fingerprints := fingerprints - {Fingerprint(cfg, statements[id].query)};
        statements := statements - {id};
      }
    }

    method InvalidateAll()
      modifies this
      ensures Next(cfg, old(View()), Op.InvalidateAll, View())
    {
      statements, fingerprints := map[], map[];
    }

    method LookupByQuery(query: string) returns (r: Option<Id>)
      ensures r == Lookup(fingerprints, Fingerprint(cfg, query))
    {
      var fp := Fingerprint(cfg, query);
      r := if fp in fingerprints then Some(fingerprints[fp]) else None;
    }

    method CachePlan(id: Id, plan: Plan)
      modifies this
      ensures Next(cfg, old(View()), Op.CachePlan(id, plan), View())
    {
      if id in statements {
        statements := statements[id := statements[id].(physicalPlan := Some(plan))];
      }
    }

    method EvictExpired(now: int) returns (count: nat)
      modifies this
      ensures Next(cfg, old(View()), Op.EvictExpired(now), View())
      ensures count == |ExpiredIds(cfg, old(View()), now)|
    {
      var ids := set id | id in statements && IsExpired(cfg, statements[id], now);
      count := |ids|;
      var rest := ids;
      while rest != {}
        invariant rest <= ids == ExpiredIds(cfg, old(View()), now)
        invariant View() == DropAll(cfg, old(View()), ids - rest)
      {
        var id :| id in rest;
        DropOneMore(cfg, old(View()), ids - rest, id);
        assert ids - (rest - {id}) == (ids - rest) + {id};
        rest := rest - {id};
        fingerprints := fingerprints - {Fingerprint(cfg, statements[id].query)};
        statements := statements - {id};
      }
      assert ids - rest == ids;
    }

    method EvictLru() returns (count: nat)
      modifies this
      ensures Next(cfg, old(View()), Op.EvictLru, View())
      ensures count == |old(statements)| - |statements|
    {
      if |statements| <= cfg.maxEntries {
        return 0;
      }
      EvictLruInner();
      count := 1;
    }

    method EvictLruInner()
      modifies this
      ensures EvictedOne(cfg, old(View()), View())
      ensures |statements| == if old(statements) == map[] then 0 else |old(statements)| - 1
    {
      if statements == map[] {
        return;
      }
      var oldest :| oldest in statements;
      var rest := statements.Keys - {oldest};
      while rest != {}
        invariant oldest in statements && rest <= statements.Keys
        invariant forall id :: id in statements.Keys - rest ==> statements[oldest].lastUsed <= statements[id].lastUsed
      {
        var id :| id in rest;
        rest := rest - {id};
        if statements[id].lastUsed < statements[oldest].lastUsed {
          oldest := id;
        }
      }
      assert LeastRecentlyUsed(View(), oldest);
      assert |statements.Keys - {oldest}| == |statements| - 1;
      assert (statements - {oldest}).Keys == statements.Keys - {oldest};
      fingerprints := fingerprints - {Fingerprint(cfg, statements[oldest].query)};
      statements := statements - {oldest};
    }
  }
}
