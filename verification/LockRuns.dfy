/**
 * Who waits for whom, and who holds what, over every run of the manager.
 *
 * Both are told from the steps of the run alone: what each request found in the
 * table when it was decided, and which transactions were released since.
 */
module LockRuns {
  import opened WaitForGraph
  import opened Wrappers
  import opened LockTables
  import opened LockSafety
  import opened Transactions
  import opened Interleaving

  // ---- What one step decides ---------------------------------------------------

  /** The step puts `t`'s request for `key` to the lock table. */
  predicate Asks(s: Sys, step: Step, t: TxnId, key: Key, kind: LockType) {
    step == TakeLock(t) && t in s.pending && s.pending[t] == Checked(key, kind)
  }

  /** The first holder of `key` is `b`, and `t` can share the key with it no more than it can take it over. */
  predicate BlockedBy(holders: seq<LockInfo>, t: TxnId, kind: LockType, b: TxnId) {
    holders != [] && holders[0].holder == b && b != t && (kind == Exclusive || holders[0].kind == Exclusive)
  }

  ghost predicate Reaches(g: Graph, b: TxnId, t: TxnId) {
    exists p :: Walk(g, p) && p[0] == b && p[|p| - 1] == t
  }

  /** The step refuses `a` a lock because of `b`, and `b` does not wait, directly or through others, for `a`. */
  ghost predicate Refuses(s: Sys, step: Step, a: TxnId, b: TxnId) {
    exists key, kind :: Asks(s, step, a, key, kind) && BlockedBy(HoldersOf(s.m.table, key), a, kind, b)
                        && !Reaches(s.m.table.waitFor, b, a)
  }

  /** The step tells `a` of a deadlock: some `b` in its way waits, directly or through others, for `a`. */
  ghost predicate TellsOfDeadlock(s: Sys, step: Step, a: TxnId) {
    exists key, kind, b :: Asks(s, step, a, key, kind) && BlockedBy(HoldersOf(s.m.table, key), a, kind, b)
                           && Reaches(s.m.table.waitFor, b, a)
  }

  /** `t` does not hold the key, and everyone who does can share it; or `t` alone holds it Shared and wants more. */
  ghost predicate Free(holders: seq<LockInfo>, t: TxnId, kind: LockType) {
    || (forall info :: info in holders ==> info.holder != t && info.kind == Shared && kind == Shared)
    || (holders == [LockInfo(t, Shared)] && kind == Exclusive)
  }

  /** The step gives `t` a lock it did not have, or raises one. */
  ghost predicate Gives(s: Sys, step: Step, t: TxnId, key: Key, kind: LockType) {
    Asks(s, step, t, key, kind) && Free(HoldersOf(s.m.table, key), t, kind)
  }

  predicate Frees(s: Sys, step: Step, t: TxnId) {
    step == Release && s.guard == Some(t)
  }

  /** The step ends whatever waiting of `a` for `b` there was. */
  ghost predicate EndsWait(s: Sys, step: Step, a: TxnId, b: TxnId) {
    TellsOfDeadlock(s, step, a) || (exists key, kind :: Gives(s, step, a, key, kind)) || Frees(s, step, a) || Frees(s, step, b)
  }

  // ---- One request -------------------------------------------------------------

  /** The four cases of a request, told from the holders and the edges there are. */
  lemma RequestMeaning(tb: Table, t: TxnId, key: Key, kind: LockType)
    requires TableOk(tb)
    ensures var holders := HoldersOf(tb, key);
      var a := Decide(holders, t, kind);
      && ((a == Grant || a == Upgrade) <==> Free(holders, t, kind))
      && (a.Conflict? <==> holders != [] && BlockedBy(holders, t, kind, holders[0].holder))
      && (a.Conflict? ==> a.blocker == holders[0].holder)
      && (a.Conflict? ==> (OnCycle(AddEdge(tb.waitFor, t, a.blocker), t) <==> Reaches(tb.waitFor, a.blocker, t)))
  {
    var holders := HoldersOf(tb, key);
    DecisionMeaning(holders, t, kind);
    if Decide(holders, t, kind).Conflict? {
      CycleThroughNewEdge(tb.waitFor, t, holders[0].holder);
    }
    if holders != [] {
      assert holders[0] in holders;
    }
  }

  /** A transaction that got a new lock, or a stronger one, waits for nobody. */
  lemma GrantEndsWaiting(tb: Table, t: TxnId, key: Key, kind: LockType, b: TxnId)
    requires TableOk(tb) && Free(HoldersOf(tb, key), t, kind)
    ensures !Edge(AfterAcquire(tb, t, key, kind).waitFor, t, b)
  {
    RequestMeaning(tb, t, key, kind);
  }

  lemma RequestMovesEdge(tb: Table, t: TxnId, key: Key, kind: LockType, a: TxnId, b: TxnId)
    requires TableOk(tb)
    ensures var holders := HoldersOf(tb, key);
      Edge(AfterAcquire(tb, t, key, kind).waitFor, a, b) <==>
        if a != t then Edge(tb.waitFor, a, b)
        else if Free(holders, t, kind) then false
        else if holders != [] && BlockedBy(holders, t, kind, holders[0].holder) then
          !Reaches(tb.waitFor, holders[0].holder, t) && (b == holders[0].holder || Edge(tb.waitFor, t, b))
        else Edge(tb.waitFor, t, b)
  {
    hide OnCycle, Reaches, TableOk, HoldersOf, Free;
    RequestMeaning(tb, t, key, kind);
  }

  lemma StepMovesEdge(s: Sys, step: Step, a: TxnId, b: TxnId)
    requires CallersInv(s) && LocksInv(s)
    ensures Edge(Do(s, step).m.table.waitFor, a, b) <==>
              Refuses(s, step, a, b) || (Edge(s.m.table.waitFor, a, b) && !EndsWait(s, step, a, b))
  {
    if step.TakeLock? && step.t in s.pending && s.pending[step.t].Checked? {
      TakeLockMovesEdge(s, step.t, s.pending[step.t].key, s.pending[step.t].kind, a, b);
    } else {
      OtherStepMovesEdge(s, step, a, b);
    }
  }

  lemma OtherStepMovesEdge(s: Sys, step: Step, a: TxnId, b: TxnId)
    requires TableOk(s.m.table)
    requires step.TakeLock? ==> step.t !in s.pending || !s.pending[step.t].Checked?
    ensures Edge(Do(s, step).m.table.waitFor, a, b) <==>
              Refuses(s, step, a, b) || (Edge(s.m.table.waitFor, a, b) && !EndsWait(s, step, a, b))
  {
    hide TableOk, BlockedBy, Reaches, Free;
    assert !Refuses(s, step, a, b) && !TellsOfDeadlock(s, step, a) && forall key, kind :: !Gives(s, step, a, key, kind);
    if step.Release? && s.guard.Some? {
      ReleaseDropsOnly(s.m.table, s.guard.value);
    } else {
      TableStays(s, step);
    }
  }

  /** Only a request that is decided and a release touch the lock table. */
  lemma TableStays(s: Sys, step: Step)
    requires step.TakeLock? ==> step.t !in s.pending || !s.pending[step.t].Checked?
    requires step.Release? ==> s.guard.None?
    ensures Do(s, step).m.table == s.m.table
  {
    hide WithStamp, AfterAcquire, Record;
  }

  lemma TakeLockMovesEdge(s: Sys, t: TxnId, key: Key, kind: LockType, a: TxnId, b: TxnId)
    requires TableOk(s.m.table)
    requires t in s.pending && s.pending[t] == Checked(key, kind)
    ensures var step := TakeLock(t);
      Edge(Do(s, step).m.table.waitFor, a, b) <==>
        Refuses(s, step, a, b) || (Edge(s.m.table.waitFor, a, b) && !EndsWait(s, step, a, b))
  {
    hide TableOk, Free, BlockedBy, Reaches, Edge, AfterAcquire, HoldersOf, Granted;
    var step := TakeLock(t);
    var holders := HoldersOf(s.m.table, key);
    RequestMovesEdge(s.m.table, t, key, kind, a, b);
    NotBoth(holders, t, kind);
    assert Asks(s, step, t, key, kind);
    assert Gives(s, step, t, key, kind) <==> Free(holders, t, kind);
    if holders != [] && BlockedBy(holders, t, kind, holders[0].holder) {
      assert Reaches(s.m.table.waitFor, holders[0].holder, t) <==> TellsOfDeadlock(s, step, t) by {
        BlockersAreFirst(holders, t, kind);
      }
      BlockersAreFirst(holders, t, kind);
    } else {
      BlockersAreFirst(holders, t, kind);
    }
  }

  lemma BlockersAreFirst(holders: seq<LockInfo>, t: TxnId, kind: LockType)
    ensures forall b :: BlockedBy(holders, t, kind, b) ==> holders != [] && b == holders[0].holder
  {
  }

  lemma NotBoth(holders: seq<LockInfo>, t: TxnId, kind: LockType)
    ensures forall b :: BlockedBy(holders, t, kind, b) ==> !Free(holders, t, kind)
  {
    if holders != [] {
      assert holders[0] in holders;
    }
  }

  // ---- Waiting over a run ------------------------------------------------------

  /** The state in which step `i` of the run was taken. */
  ghost function Before(base: Versions, steps: seq<Step>, i: nat): Sys
    requires i < |steps|
  {
    Exec(Start(base), steps[..i])
  }

  /** Step `i` refused `a` a lock because of `b`, and nothing since ended that. */
  ghost predicate WaitsSince(base: Versions, steps: seq<Step>, i: nat, a: TxnId, b: TxnId) {
    && i < |steps|
    && Refuses(Before(base, steps, i), steps[i], a, b)
    && forall j :: i < j < |steps| ==> !EndsWait(Before(base, steps, j), steps[j], a, b)
  }

  ghost predicate Waits(base: Versions, steps: seq<Step>, a: TxnId, b: TxnId) {
    exists i: nat :: WaitsSince(base, steps, i, a, b)
  }

  /** The run before its last step shows the same steps in the same states. */
  lemma SameBefore(base: Versions, steps: seq<Step>)
    requires steps != []
    ensures forall i :: 0 <= i < |steps| - 1 ==>
              Before(base, steps[..|steps| - 1], i) == Before(base, steps, i) && steps[..|steps| - 1][i] == steps[i]
  {
    forall i | 0 <= i < |steps| - 1 ensures Before(base, steps[..|steps| - 1], i) == Before(base, steps, i) {
      assert steps[..|steps| - 1][..i] == steps[..i];
    }
  }

  /**
   * In every run `a` has an edge to `b` exactly when some request of `a` was
   * refused because of `b` and since then `a` was not granted a new lock or an
   * upgrade, was not told of a deadlock, and neither of the two was released.
   */
  lemma {:induction false} EdgesAreWaits(base: Versions, steps: seq<Step>, a: TxnId, b: TxnId)
    ensures Edge(Exec(Start(base), steps).m.table.waitFor, a, b) <==> Waits(base, steps, a, b)
  {
    if steps != [] {
      var n := |steps| - 1;
      var s := Exec(Start(base), steps[..n]);
      EdgesAreWaits(base, steps[..n], a, b);
      RunKeepsLocks(base, steps[..n]);
      StepMovesEdge(s, steps[n], a, b);
      WaitsGrow(base, steps, a, b);
    }
  }

  lemma WaitsGrow(base: Versions, steps: seq<Step>, a: TxnId, b: TxnId)
    requires steps != []
    ensures var n := |steps| - 1;
      var s := Exec(Start(base), steps[..n]);
      Waits(base, steps, a, b) <==> Refuses(s, steps[n], a, b) || (Waits(base, steps[..n], a, b) && !EndsWait(s, steps[n], a, b))
  {
    hide Refuses, EndsWait, Exec;
    var n := |steps| - 1;
    SameBefore(base, steps);
    if i: nat :| WaitsSince(base, steps, i, a, b) {
      if i < n {
        assert WaitsSince(base, steps[..n], i, a, b);
      }
    }
    if Refuses(Before(base, steps, n), steps[n], a, b) {
      assert WaitsSince(base, steps, n, a, b);
    }
    if i: nat :| WaitsSince(base, steps[..n], i, a, b) {
      if !EndsWait(Before(base, steps, n), steps[n], a, b) {
        assert WaitsSince(base, steps, i, a, b);
      }
    }
  }

  ghost predicate WaitChain(base: Versions, steps: seq<Step>, p: seq<TxnId>) {
    |p| >= 1 && forall i :: 0 <= i < |p| - 1 ==> Waits(base, steps, p[i], p[i + 1])
  }

  /** `t` alone of several holders has the key Shared and stands first, and wants it Exclusive. */
  predicate CannotUpgrade(holders: seq<LockInfo>, t: TxnId, kind: LockType) {
    |holders| > 1 && holders[0] == LockInfo(t, Shared) && kind == Exclusive
  }

  /** `t` has the key already, as strongly as it wants it. */
  predicate HasAlready(holders: seq<LockInfo>, t: TxnId, kind: LockType) {
    LockInfo(t, Exclusive) in holders || (kind == Shared && LockInfo(t, Shared) in holders)
  }

  /** In `p`, each waits for the next, and the last is `t`. */
  ghost predicate WaitChainTo(base: Versions, steps: seq<Step>, p: seq<TxnId>, t: TxnId) {
    WaitChain(base, steps, p) && p[|p| - 1] == t
  }

  /**
   * The answer to a request after any run: granted when the key is free for it
   * or had already; a deadlock when the first holder is in the way and waits,
   * through a chain of refusals still in force, for the requester; and otherwise
   * a conflict with that holder, or with the second one when the requester is
   * itself the first of several.
   */
  lemma AnsweredExactly(base: Versions, steps: seq<Step>, t: TxnId, key: Key, kind: LockType, r: LockResult)
    requires Answers(Exec(Start(base), steps).m.table, t, key, kind, r)
    ensures var holders := HoldersOf(Exec(Start(base), steps).m.table, key);
      && (r == Acquired <==> Free(holders, t, kind) || HasAlready(holders, t, kind))
      && (r.DeadlockDetected? <==>
            exists p :: WaitChainTo(base, steps, p, t) && BlockedBy(holders, t, kind, p[0]))
      && (r.LockConflict? ==>
            if CannotUpgrade(holders, t, kind) then r.heldBy == holders[1].holder else BlockedBy(holders, t, kind, r.heldBy))
  {
    var tb := Exec(Start(base), steps).m.table;
    RunKeepsLocks(base, steps);
    forall a, b ensures Edge(tb.waitFor, a, b) <==> Waits(base, steps, a, b) {
      EdgesAreWaits(base, steps, a, b);
    }
    WalksAreChains(base, steps, tb.waitFor);
    hide Waits, Edge, Exec, WaitChain, Walk;
    AnswerMeaning(tb, t, key, kind, r);
    DeadlockExactly(tb, t, key, kind, r);
  }

  lemma AnswerMeaning(tb: Table, t: TxnId, key: Key, kind: LockType, r: LockResult)
    requires TableOk(tb) && Answers(tb, t, key, kind, r)
    ensures var holders := HoldersOf(tb, key);
      && (r == Acquired <==> Free(holders, t, kind) || HasAlready(holders, t, kind))
      && (r.LockConflict? ==>
            if CannotUpgrade(holders, t, kind) then r.heldBy == holders[1].holder else BlockedBy(holders, t, kind, r.heldBy))
  {
    hide OnCycle, ShortestCycleAt, Free;
    DecisionMeaning(HoldersOf(tb, key), t, kind);
    RequestMeaning(tb, t, key, kind);
  }

  lemma WalksAreChains(base: Versions, steps: seq<Step>, g: Graph)
    requires forall a, b :: Edge(g, a, b) <==> Waits(base, steps, a, b)
    ensures forall p :: Walk(g, p) <==> WaitChain(base, steps, p)
  {
    hide Waits, Edge;
    forall p ensures Walk(g, p) <==> WaitChain(base, steps, p) {
      if Walk(g, p) {
        forall i | 0 <= i < |p| - 1 ensures Waits(base, steps, p[i], p[i + 1]) {
          assert Edge(g, p[i], p[i + 1]);
        }
      }
      if WaitChain(base, steps, p) {
        forall i | 0 <= i < |p| - 1 ensures Edge(g, p[i], p[i + 1]) {
          assert Waits(base, steps, p[i], p[i + 1]);
        }
      }
    }
  }

  // ---- Holding over a run ------------------------------------------------------

  /** The step ends `t`'s hold of `key`, or replaces it by a stronger one. */
  ghost predicate EndsHold(s: Sys, step: Step, t: TxnId, key: Key) {
    (exists kind :: Gives(s, step, t, key, kind)) || Frees(s, step, t)
  }

  /** Step `i` gave `t` the lock, and nothing since took it away or raised it. */
  ghost predicate HoldsSince(base: Versions, steps: seq<Step>, i: nat, t: TxnId, key: Key, kind: LockType) {
    && i < |steps|
    && Gives(Before(base, steps, i), steps[i], t, key, kind)
    && forall j :: i < j < |steps| ==> !EndsHold(Before(base, steps, j), steps[j], t, key)
  }

  ghost predicate HoldsOn(base: Versions, steps: seq<Step>, t: TxnId, key: Key, kind: LockType) {
    exists i: nat :: HoldsSince(base, steps, i, t, key, kind)
  }

  lemma StepMovesHolders(s: Sys, step: Step, key: Key)
    requires TableOk(s.m.table)
    ensures var (was, now) := (HoldersOf(s.m.table, key), HoldersOf(Do(s, step).m.table, key));
      && (forall t, kind :: Gives(s, step, t, key, kind) ==> now == Without(was, t) + [LockInfo(t, kind)])
      && (forall t :: Frees(s, step, t) ==> now == Without(was, t))
      && ((forall t :: !EndsHold(s, step, t, key)) ==> now == was)
  {
    if step.TakeLock? && step.t in s.pending && s.pending[step.t].Checked? {
      var (t, k, kind) := (step.t, s.pending[step.t].key, s.pending[step.t].kind);
      RequestMovesHolders(s.m.table, t, k, kind, key);
      if Free(HoldersOf(s.m.table, k), t, kind) {
        assert Gives(s, step, t, k, kind);
      }
      if k == key && Free(HoldersOf(s.m.table, k), t, kind) {
        assert EndsHold(s, step, t, key);
      }
    } else if step.Release? && s.guard.Some? {
      ReleaseDropsOnly(s.m.table, s.guard.value);
      assert EndsHold(s, step, s.guard.value, key);
    } else {
      TableStays(s, step);
    }
  }

  lemma RequestMovesHolders(tb: Table, t: TxnId, k: Key, kind: LockType, key: Key)
    requires TableOk(tb)
    ensures HoldersOf(AfterAcquire(tb, t, k, kind), key) ==
              if k == key && Free(HoldersOf(tb, k), t, kind) then Without(HoldersOf(tb, key), t) + [LockInfo(t, kind)]
              else HoldersOf(tb, key)
  {
    hide Free, OnCycle, TableOk;
    RequestMeaning(tb, t, k, kind);
  }

  /**
   * In every run `t` holds a key in a mode exactly when some request of `t`
   * for the key in that mode was given, and since then `t` was given no upgrade
   * of it and was not released.
   */
  lemma {:induction false} HeldAsGiven(base: Versions, steps: seq<Step>, t: TxnId, key: Key, kind: LockType)
    ensures LockInfo(t, kind) in HoldersOf(Exec(Start(base), steps).m.table, key) <==> HoldsOn(base, steps, t, key, kind)
  {
    if steps != [] {
      var n := |steps| - 1;
      HeldAsGiven(base, steps[..n], t, key, kind);
      RunKeepsLocks(base, steps[..n]);
      StepMovesHolders(Exec(Start(base), steps[..n]), steps[n], key);
      StepMovesHolder(Exec(Start(base), steps[..n]), steps[n], t, key, kind);
      HoldsGrow(base, steps, t, key, kind);
    }
  }

  lemma StepMovesHolder(s: Sys, step: Step, t: TxnId, key: Key, kind: LockType)
    requires TableOk(s.m.table)
    ensures LockInfo(t, kind) in HoldersOf(Do(s, step).m.table, key) <==>
              Gives(s, step, t, key, kind) || (LockInfo(t, kind) in HoldersOf(s.m.table, key) && !EndsHold(s, step, t, key))
  {
    hide TableOk, Free, Do, HoldersOf;
    StepMovesHolders(s, step, key);
  }

  lemma HoldsGrow(base: Versions, steps: seq<Step>, t: TxnId, key: Key, kind: LockType)
    requires steps != []
    ensures var n := |steps| - 1;
      var s := Exec(Start(base), steps[..n]);
      HoldsOn(base, steps, t, key, kind) <==>
        Gives(s, steps[n], t, key, kind) || (HoldsOn(base, steps[..n], t, key, kind) && !EndsHold(s, steps[n], t, key))
  {
    hide Gives, EndsHold, Exec;
    var n := |steps| - 1;
    SameBefore(base, steps);
    if i: nat :| HoldsSince(base, steps, i, t, key, kind) {
      if i < n {
        assert HoldsSince(base, steps[..n], i, t, key, kind);
      }
    }
    if Gives(Before(base, steps, n), steps[n], t, key, kind) {
      assert HoldsSince(base, steps, n, t, key, kind);
    }
    if i: nat :| HoldsSince(base, steps[..n], i, t, key, kind) {
      if !EndsHold(Before(base, steps, n), steps[n], t, key) {
        assert HoldsSince(base, steps, i, t, key, kind);
      }
    }
  }

  lemma WithoutHead(holders: seq<LockInfo>, t: TxnId)
    requires holders != []
    ensures Without(holders, t) == (if holders[0].holder == t then [] else [holders[0]]) + Without(holders[1..], t)
  {
  }

  /** Where the `x`-th holder that stays stood before. */
  function PlaceBefore(holders: seq<LockInfo>, t: TxnId, x: nat): nat {
    if holders == [] then 0
    else if holders[0].holder == t then 1 + PlaceBefore(holders[1..], t, x)
    else if x == 0 then 0
    else 1 + PlaceBefore(holders[1..], t, x - 1)
  }

  lemma {:induction false} StoodThere(holders: seq<LockInfo>, t: TxnId, x: nat)
    requires x < |Without(holders, t)|
    ensures PlaceBefore(holders, t, x) < |holders| && holders[PlaceBefore(holders, t, x)] == Without(holders, t)[x]
  {
    if holders != [] {
      WithoutHead(holders, t);
      hide Without;
      if holders[0].holder == t {
        StoodThere(holders[1..], t, x);
      } else if x > 0 {
        StoodThere(holders[1..], t, x - 1);
      }
    }
  }

  lemma {:induction false} PlacesKeepOrder(holders: seq<LockInfo>, t: TxnId, x: nat, y: nat)
    requires x < y && PlaceBefore(holders, t, y) < |holders|
    ensures PlaceBefore(holders, t, x) < PlaceBefore(holders, t, y)
  {
    if holders[0].holder == t {
      PlacesKeepOrder(holders[1..], t, x, y);
    } else if x > 0 {
      PlacesKeepOrder(holders[1..], t, x - 1, y - 1);
    }
  }

  /** Two neighbours in the list after a step that gave neither of them the key stood in that order before. */
  lemma OrderedBefore(s: Sys, step: Step, key: Key, x: nat, y: nat) returns (x': nat, y': nat)
    requires TableOk(s.m.table)
    requires var now := HoldersOf(Do(s, step).m.table, key);
      x < y < |now| && !Gives(s, step, now[y].holder, key, now[y].kind)
    ensures var (was, now) := (HoldersOf(s.m.table, key), HoldersOf(Do(s, step).m.table, key));
      x' < y' < |was| && was[x'] == now[x] && was[y'] == now[y]
  {
    hide TableOk, Gives, Do, HoldersOf;
    StepMovesHolders(s, step, key);
    var was := HoldersOf(s.m.table, key);
    if t :| EndsHold(s, step, t, key) {
      x', y' := PlaceBefore(was, t, x), PlaceBefore(was, t, y);
      StoodThere(was, t, x);
      StoodThere(was, t, y);
      PlacesKeepOrder(was, t, x, y);
    } else {
      x', y' := x, y;
    }
  }

  /**
   * The holders of a key stand in the order in which they were given it: the
   * one a request meets first is the oldest.
   */
  lemma {:induction false} HoldersAreOldestFirst(base: Versions, steps: seq<Step>, key: Key, x: nat, y: nat, i: nat, j: nat)
    requires var holders := HoldersOf(Exec(Start(base), steps).m.table, key);
      && x < y < |holders|
      && HoldsSince(base, steps, i, holders[x].holder, key, holders[x].kind)
      && HoldsSince(base, steps, j, holders[y].holder, key, holders[y].kind)
    ensures i < j
  {
    hide Gives, EndsHold, TableOk, HoldersOf, Do, CallersInv;
    var n := |steps| - 1;
    var s := Exec(Start(base), steps[..n]);
    var (was, now) := (HoldersOf(s.m.table, key), HoldersOf(Do(s, steps[n]).m.table, key));
    RunKeepsLocks(base, steps[..n]);
    SameBefore(base, steps);
    assert Before(base, steps, n) == s;
    NewestIsLast(s, steps[n], key, x, y);
    if i < n && j < n {
      NotGiven(s, steps[n], now[y], key);
      var x', y' := OrderedBefore(s, steps[n], key, x, y);
      assert HoldsSince(base, steps[..n], i, was[x'].holder, key, was[x'].kind);
      assert HoldsSince(base, steps[..n], j, was[y'].holder, key, was[y'].kind);
      HoldersAreOldestFirst(base, steps[..n], key, x', y', i, j);
    }
  }

  lemma NotGiven(s: Sys, step: Step, info: LockInfo, key: Key)
    requires !EndsHold(s, step, info.holder, key)
    ensures !Gives(s, step, info.holder, key, info.kind)
  {
  }

  lemma NewestIsLast(s: Sys, step: Step, key: Key, x: nat, y: nat)
    requires TableOk(s.m.table)
    requires x < y < |HoldersOf(Do(s, step).m.table, key)|
    ensures var now := HoldersOf(Do(s, step).m.table, key); !Gives(s, step, now[x].holder, key, now[x].kind)
  {
    hide TableOk, Gives, Do, HoldersOf;
    StepMovesHolders(s, step, key);
    var (was, now) := (HoldersOf(s.m.table, key), HoldersOf(Do(s, step).m.table, key));
    assert Gives(s, step, now[x].holder, key, now[x].kind) ==> now[x] in Without(was, now[x].holder);
  }

  // ---- What a transaction records ----------------------------------------------

  /** The step records the lock that `t`'s caller was granted. */
  predicate Notes(s: Sys, step: Step, t: TxnId, key: Key, kind: LockType) {
    step == NoteLock(t) && s.guard == None && t in s.pending && s.pending[t] == Taken(key, kind)
  }

  ghost predicate NotesKey(s: Sys, step: Step, t: TxnId, key: Key) {
    exists kind :: Notes(s, step, t, key, kind)
  }

  ghost predicate NotedSince(base: Versions, steps: seq<Step>, i: nat, t: TxnId, key: Key, kind: LockType) {
    && i < |steps|
    && Notes(Before(base, steps, i), steps[i], t, key, kind)
    && forall j :: i < j < |steps| ==> !NotesKey(Before(base, steps, j), steps[j], t, key)
  }

  ghost predicate NotedLast(base: Versions, steps: seq<Step>, t: TxnId, key: Key, kind: LockType) {
    exists i: nat :: NotedSince(base, steps, i, t, key, kind)
  }

  /** Only the recording of a granted lock touches what a transaction has recorded; a new one has recorded nothing. */
  lemma OtherStepKeepsRecord(s: Sys, step: Step, t: TxnId)
    requires CallersInv(s) && t in Do(s, step).m.txns
    requires !(step == NoteLock(t) && s.guard == None && t in s.pending && s.pending[t].Taken?)
    ensures if t in s.m.txns then Do(s, step).m.txns[t].locks == s.m.txns[t].locks
            else t !in s.pending && Do(s, step).m.txns[t].locks == []
  {
    hide AfterAcquire, FirstStale, IncrementAll, Record, DropKey;
  }

  lemma StepMovesRecord(s: Sys, step: Step, t: TxnId, key: Key, kind: LockType)
    requires CallersInv(s) && t in Do(s, step).m.txns
    ensures t in s.m.txns ==>
      (LockEntry(key, kind) in Do(s, step).m.txns[t].locks <==>
         Notes(s, step, t, key, kind) || (LockEntry(key, kind) in s.m.txns[t].locks && !NotesKey(s, step, t, key)))
    ensures t !in s.m.txns ==> t !in s.pending && Do(s, step).m.txns[t].locks == []
  {
    if step == NoteLock(t) && s.guard == None && t in s.pending && s.pending[t].Taken? {
      assert Notes(s, step, t, s.pending[t].key, s.pending[t].kind);
    } else {
      OtherStepKeepsRecord(s, step, t);
      hide Do, CallersInv;
      assert !NotesKey(s, step, t, key);
    }
  }

  lemma NotesGrow(base: Versions, steps: seq<Step>, t: TxnId, key: Key, kind: LockType)
    requires steps != []
    ensures var n := |steps| - 1;
      var s := Exec(Start(base), steps[..n]);
      NotedLast(base, steps, t, key, kind) <==>
        || Notes(s, steps[n], t, key, kind)
        || (NotedLast(base, steps[..n], t, key, kind) && !NotesKey(s, steps[n], t, key))
  {
    hide Notes, NotesKey, Exec;
    var n := |steps| - 1;
    SameBefore(base, steps);
    if i: nat :| NotedSince(base, steps, i, t, key, kind) {
      if i < n {
        assert NotedSince(base, steps[..n], i, t, key, kind);
      }
    }
    if Notes(Before(base, steps, n), steps[n], t, key, kind) {
      assert NotedSince(base, steps, n, t, key, kind);
    }
    if i: nat :| NotedSince(base, steps[..n], i, t, key, kind) {
      if !NotesKey(Before(base, steps, n), steps[n], t, key) {
        assert NotedSince(base, steps, i, t, key, kind);
      }
    }
  }

  lemma {:induction false} UnknownNotedNothing(base: Versions, steps: seq<Step>, t: TxnId, key: Key, kind: LockType)
    requires t !in Exec(Start(base), steps).pending
    ensures !NotedLast(base, steps, t, key, kind)
  {
    if steps != [] {
      var n := |steps| - 1;
      PendingGrows(Exec(Start(base), steps[..n]), steps[n]);
      UnknownNotedNothing(base, steps[..n], t, key, kind);
      NotesGrow(base, steps, t, key, kind);
    }
  }

  lemma PendingGrows(s: Sys, step: Step)
    ensures s.pending.Keys <= Do(s, step).pending.Keys
  {
    hide AfterAcquire, FirstStale, IncrementAll, Record, WithStamp;
  }

  /**
   * In every run a transaction's record of a key is the mode in which it last
   * asked for the key and was granted it, a weaker repetition included.
   */
  lemma {:induction false} RecordedAsAsked(base: Versions, steps: seq<Step>, t: TxnId, key: Key, kind: LockType)
    requires t in Exec(Start(base), steps).m.txns
    ensures LockEntry(key, kind) in Exec(Start(base), steps).m.txns[t].locks <==> NotedLast(base, steps, t, key, kind)
  {
    var n := |steps| - 1;
    var s := Exec(Start(base), steps[..n]);
    RunKeepsLocks(base, steps[..n]);
    StepMovesRecord(s, steps[n], t, key, kind);
    NotesGrow(base, steps, t, key, kind);
    if t in s.m.txns {
      RecordedAsAsked(base, steps[..n], t, key, kind);
    } else {
      UnknownNotedNothing(base, steps[..n], t, key, kind);
    }
  }
}
