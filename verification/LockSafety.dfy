/** What every sequence of lock requests and releases keeps true of the lock table. */
module LockSafety {
  import opened WaitForGraph
  import opened LockTables

  /** Distinct holders, either all Shared or a single Exclusive. */
  ghost predicate WellFormed(holders: seq<LockInfo>) {
    && (forall i, j :: 0 <= i < j < |holders| ==> holders[i].holder != holders[j].holder)
    && (forall i :: 0 <= i < |holders| && holders[i].kind == Exclusive ==> |holders| == 1)
  }

  ghost predicate Holds(tb: Table, t: TxnId, key: Key) {
    exists info :: info in HoldersOf(tb, key) && info.holder == t
  }

  ghost predicate HoldsExclusive(tb: Table, t: TxnId, key: Key) {
    LockInfo(t, Exclusive) in HoldersOf(tb, key)
  }

  ghost predicate HoldsSome(tb: Table, t: TxnId) {
    exists key :: Holds(tb, t, key)
  }

  ghost predicate TableOk(tb: Table) {
    && (forall k :: k in tb.locks ==> tb.locks[k] != [] && WellFormed(tb.locks[k]))
    && Acyclic(tb.waitFor)
    && (forall a, b :: Edge(tb.waitFor, a, b) ==> HoldsSome(tb, b))
  }

  // ---- Meaning of the holder scan -------------------------------------------

  /**
   * On a well-formed holder list the scan means what the two lock types say,
   * with one twist: a blocked upgrade is reported as `UpgradeConflict` only to
   * the first holder; a later holder gets an ordinary conflict with the first.
   */
  lemma DecisionMeaning(holders: seq<LockInfo>, t: TxnId, kind: LockType)
    requires WellFormed(holders)
    ensures var a := Decide(holders, t, kind);
      && (a == Grant <==> if kind == Shared then forall info :: info in holders ==> info.holder != t && info.kind == Shared
                          else holders == [])
      && (a == AlreadyHeld <==> LockInfo(t, Exclusive) in holders || (kind == Shared && LockInfo(t, Shared) in holders))
      && (a == Upgrade <==> kind == Exclusive && holders == [LockInfo(t, Shared)])
      && (a.UpgradeConflict? <==> kind == Exclusive && |holders| > 1 && holders[0] == LockInfo(t, Shared))
      && (a.UpgradeConflict? ==> a.other == holders[1].holder)
      && (a.Conflict? <==> |holders| > 0 && holders[0].holder != t && (kind == Exclusive || holders[0].kind == Exclusive))
      && (a.Conflict? ==> a.blocker == holders[0].holder)
  {
    var i := FirstStop(holders, t, kind);
    if kind == Exclusive && |holders| > 0 {
      assert i == 0;
      if |holders| > 1 && holders[0].holder == t {
        assert FirstOther(holders, t) == FirstOther(holders[1..], t);
      }
    }
    if kind == Shared && |holders| > 0 && holders[0].kind == Exclusive {
      assert Stops(holders[0], t, kind);
    }
  }

  lemma {:induction false} WithoutWellFormed(holders: seq<LockInfo>, t: TxnId)
    requires WellFormed(holders)
    ensures WellFormed(Without(holders, t)) && |Without(holders, t)| <= |holders|
  {
    if holders != [] {
      WithoutWellFormed(holders[1..], t);
    }
  }

  // ---- Requests ---------------------------------------------------------------

  /** A request changes at most `key`'s entry, and there only adds or raises `t`'s own lock. */
  lemma AcquireChangesOnlyRequester(tb: Table, t: TxnId, key: Key, kind: LockType)
    requires TableOk(tb)
    ensures var tb' := AfterAcquire(tb, t, key, kind);
      && (forall k :: k != key ==> HoldersOf(tb', k) == HoldersOf(tb, k))
      && (forall u, l :: u != t ==> (LockInfo(u, l) in HoldersOf(tb', key) <==> LockInfo(u, l) in HoldersOf(tb, key)))
      && (Holds(tb', t, key) <==> Holds(tb, t, key) || Granted(tb, t, key, kind))
      && (HoldsExclusive(tb, t, key) ==> HoldsExclusive(tb', t, key))
      && (Granted(tb, t, key, kind) && kind == Exclusive ==> HoldsExclusive(tb', t, key))
  {
    var holders := HoldersOf(tb, key);
    DecisionMeaning(holders, t, kind);
    var tb' := AfterAcquire(tb, t, key, kind);
    match Decide(holders, t, kind) {
      case Upgrade | Grant =>
        assert HoldersOf(tb', key) == Without(holders, t) + [LockInfo(t, kind)];
        assert LockInfo(t, kind) in HoldersOf(tb', key);
      case AlreadyHeld =>
      case _ =>
    }
  }

  lemma AcquireKeepsHolders(tb: Table, t: TxnId, key: Key, kind: LockType)
    requires TableOk(tb)
    ensures var tb' := AfterAcquire(tb, t, key, kind);
      && (forall k :: k in tb'.locks ==> tb'.locks[k] != [] && WellFormed(tb'.locks[k]))
      && (forall u :: HoldsSome(tb, u) ==> HoldsSome(tb', u))
  {
    AcquireKeepsWellFormed(tb, t, key, kind);
    AcquireLosesNobody(tb, t, key, kind);
  }

  lemma AcquireKeepsWellFormed(tb: Table, t: TxnId, key: Key, kind: LockType)
    requires TableOk(tb)
    ensures var tb' := AfterAcquire(tb, t, key, kind); forall k :: k in tb'.locks ==> tb'.locks[k] != [] && WellFormed(tb'.locks[k])
  {
    hide OnCycle, Edge;
    WithoutWellFormed(HoldersOf(tb, key), t);
    DecisionMeaning(HoldersOf(tb, key), t, kind);
  }

  lemma AcquireLosesNobody(tb: Table, t: TxnId, key: Key, kind: LockType)
    requires TableOk(tb)
    ensures forall u :: HoldsSome(tb, u) ==> HoldsSome(AfterAcquire(tb, t, key, kind), u)
  {
    hide AfterAcquire, TableOk, Holds;
    AcquireChangesOnlyRequester(tb, t, key, kind);
    forall u | HoldsSome(tb, u) ensures HoldsSome(AfterAcquire(tb, t, key, kind), u) {
      var k :| Holds(tb, u, k);
      StillHolds(tb, t, key, kind, u, k);
    }
  }

  lemma StillHolds(tb: Table, t: TxnId, key: Key, kind: LockType, u: TxnId, k: Key)
    requires TableOk(tb) && Holds(tb, u, k)
    ensures Holds(AfterAcquire(tb, t, key, kind), u, k)
  {
    AcquireChangesOnlyRequester(tb, t, key, kind);
  }

  /**
   * A request keeps each key's holders exclusive or all shared, and the
   * wait-for graph free of cycles: an edge stays only if it passed the search.
   */
  lemma AcquireKeepsTableOk(tb: Table, t: TxnId, key: Key, kind: LockType)
    requires TableOk(tb)
    ensures TableOk(AfterAcquire(tb, t, key, kind))
  {
    var tb' := AfterAcquire(tb, t, key, kind);
    AcquireKeepsHolders(tb, t, key, kind);
    match Decide(HoldersOf(tb, key), t, kind) {
      case Conflict(blocker) =>
        DecisionMeaning(HoldersOf(tb, key), t, kind);
        assert Holds(tb, blocker, key);
        var g := AddEdge(tb.waitFor, t, blocker);
        if OnCycle(g, t) {
          SubgraphAcyclic(tb.waitFor, tb'.waitFor);
        } else {
          NewEdgesCloseCyclesAtSource(tb.waitFor, g, t);
        }
        forall a, b | Edge(tb'.waitFor, a, b) ensures HoldsSome(tb', b) {
          assert Edge(tb.waitFor, a, b) || b == blocker;
        }
      case _ =>
        SubgraphAcyclic(tb.waitFor, tb'.waitFor);
        forall a, b | Edge(tb'.waitFor, a, b) ensures HoldsSome(tb', b) {
          assert Edge(tb.waitFor, a, b);
        }
    }
  }

  /** New wait-for edges start at the requester and end at a holder of the requested key. */
  lemma AcquireAddsOnlyRequesterEdges(tb: Table, t: TxnId, key: Key, kind: LockType, a: TxnId, b: TxnId)
    requires TableOk(tb)
    requires Edge(AfterAcquire(tb, t, key, kind).waitFor, a, b)
    ensures Edge(tb.waitFor, a, b) || (a == t && b != t && Holds(tb, b, key))
  {
    DecisionMeaning(HoldersOf(tb, key), t, kind);
  }

  /** A deadlock answer is given exactly when waiting for the first holder would close a cycle. */
  lemma DeadlockExactly(tb: Table, t: TxnId, key: Key, kind: LockType, r: LockResult)
    requires TableOk(tb) && Answers(tb, t, key, kind, r)
    ensures r.DeadlockDetected? <==>
      && HoldersOf(tb, key) != []
      && HoldersOf(tb, key)[0].holder != t
      && (kind == Exclusive || HoldersOf(tb, key)[0].kind == Exclusive)
      && exists p :: Walk(tb.waitFor, p) && p[0] == HoldersOf(tb, key)[0].holder && p[|p| - 1] == t
    ensures r.DeadlockDetected? ==> AfterAcquire(tb, t, key, kind).waitFor == tb.waitFor - {t}
  {
    var holders := HoldersOf(tb, key);
    DecisionMeaning(holders, t, kind);
    if Decide(holders, t, kind).Conflict? {
      CycleThroughNewEdge(tb.waitFor, t, holders[0].holder);
    }
  }

  /** The edge `t -> b` closes a cycle at `t` exactly when `t` can already be reached from `b`. */
  lemma CycleThroughNewEdge(g: Graph, t: TxnId, b: TxnId)
    requires Acyclic(g) && b != t
    ensures OnCycle(AddEdge(g, t, b), t) <==> exists p :: Walk(g, p) && p[0] == b && p[|p| - 1] == t
  {
    var h := AddEdge(g, t, b);
    if p :| Walk(g, p) && p[0] == b && p[|p| - 1] == t {
      var q := [t] + p;
      assert forall i :: 0 <= i < |q| - 1 ==> Edge(h, q[i], q[i + 1]) by {
        forall i | 0 <= i < |q| - 1 ensures Edge(h, q[i], q[i + 1]) {
          if i > 0 {
            assert q[i] == p[i - 1] && q[i + 1] == p[i];
          }
        }
      }
      assert CycleAt(h, t, q);
    }
    if q :| CycleAt(h, t, q) {
      LastReturn(g, t, b, q);
    }
  }

  /** A cycle at `t` in the extended graph leaves `t` for the last time by the new edge or by an old one. */
  lemma {:induction false} LastReturn(g: Graph, t: TxnId, b: TxnId, q: seq<TxnId>)
    requires CycleAt(AddEdge(g, t, b), t, q)
    ensures OnCycle(g, t) || exists p :: Walk(g, p) && p[0] == b && p[|p| - 1] == t
    decreases |q|
  {
    var h := AddEdge(g, t, b);
    if i :| 1 <= i < |q| - 1 && q[i] == t {
      LastReturn(g, t, b, q[i..]);
    } else {
      var p := q[1..];
      forall i | 0 <= i < |p| - 1 ensures Edge(g, p[i], p[i + 1]) {
        assert Edge(h, q[i + 1], q[i + 2]);
      }
      if q[1] != b {
        assert Edge(h, q[0], q[1]);
        assert forall i :: 1 <= i < |q| - 1 ==> Edge(g, p[i - 1], p[i]) && q[i] == p[i - 1] && q[i + 1] == p[i];
        assert CycleAt(g, t, q);
      }
    }
  }

  // ---- Release ----------------------------------------------------------------

  /** Releasing drops exactly `t`'s locks and every wait-for edge at `t`. */
  lemma ReleaseDropsOnly(tb: Table, t: TxnId)
    requires TableOk(tb)
    ensures forall k :: HoldersOf(AfterRelease(tb, t), k) == Without(HoldersOf(tb, k), t)
    ensures forall k :: !Holds(AfterRelease(tb, t), t, k)
    ensures forall a, b :: Edge(AfterRelease(tb, t).waitFor, a, b) <==> Edge(tb.waitFor, a, b) && a != t && b != t
  {
  }

  lemma ReleaseKeepsTableOk(tb: Table, t: TxnId)
    requires TableOk(tb)
    ensures TableOk(AfterRelease(tb, t))
  {
    var tb' := AfterRelease(tb, t);
    ReleaseDropsOnly(tb, t);
    SubgraphAcyclic(tb.waitFor, tb'.waitFor);
    forall k | k in tb'.locks ensures tb'.locks[k] != [] && WellFormed(tb'.locks[k]) {
      WithoutWellFormed(tb.locks[k], t);
    }
    forall a, b | Edge(tb'.waitFor, a, b) ensures HoldsSome(tb', b) {
      var k :| Holds(tb, b, k);
      assert Holds(tb', b, k);
    }
  }
}
