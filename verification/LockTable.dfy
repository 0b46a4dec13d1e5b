/** The global lock table: shared and exclusive locks, upgrades, and deadlock detection. */
module LockTables {
  import opened WaitForGraph

  datatype LockType = Shared | Exclusive

  /** An (entity, modality) pair. */
  datatype Key = Key(entity: string, modality: string)

  datatype LockInfo = LockInfo(holder: TxnId, kind: LockType)

  datatype Table = Table(locks: map<Key, seq<LockInfo>>, waitFor: Graph)

  /** What a request leads to, decided from the current holders alone. */
  datatype Action =
    | AlreadyHeld
    | Upgrade
    | UpgradeConflict(other: TxnId)
    | Conflict(blocker: TxnId)
    | Grant

  datatype LockResult =
    | Acquired
    | LockConflict(heldBy: TxnId)
    | DeadlockDetected(cycle: seq<TxnId>)

  const EMPTY_TABLE := Table(map[], map[])

  function HoldersOf(tb: Table, key: Key): seq<LockInfo> {
    if key in tb.locks then tb.locks[key] else []
  }

  predicate Compatible(a: LockType, b: LockType) {
    a == Shared && b == Shared
  }

  /** The scan for `t` stops at its own entry and at the first incompatible one. */
  predicate Stops(info: LockInfo, t: TxnId, kind: LockType) {
    info.holder == t || !Compatible(info.kind, kind)
  }

  function FirstStop(holders: seq<LockInfo>, t: TxnId, kind: LockType): (i: nat)
    ensures i <= |holders|
    ensures forall j :: 0 <= j < i ==> !Stops(holders[j], t, kind)
    ensures i < |holders| ==> Stops(holders[i], t, kind)
  {
    if holders == [] || Stops(holders[0], t, kind) then 0 else 1 + FirstStop(holders[1..], t, kind)
  }

  /** The first holder other than `t`, or `t` itself when there is none. */
  function FirstOther(holders: seq<LockInfo>, t: TxnId): TxnId {
    if holders == [] then t
    else if holders[0].holder != t then holders[0].holder
    else FirstOther(holders[1..], t)
  }

  function Decide(holders: seq<LockInfo>, t: TxnId, kind: LockType): Action {
    var i := FirstStop(holders, t, kind);
    if i == |holders| then Grant
    else if holders[i].holder != t then Conflict(holders[i].holder)
    else if holders[i].kind == Shared && kind == Exclusive then
      if |holders| == 1 then Upgrade else UpgradeConflict(FirstOther(holders, t))
    else AlreadyHeld
  }

  function Without(holders: seq<LockInfo>, t: TxnId): (rest: seq<LockInfo>)
    ensures forall info :: info in rest <==> info in holders && info.holder != t
  {
    if holders == [] then []
    else if holders[0].holder == t then Without(holders[1..], t)
    else [holders[0]] + Without(holders[1..], t)
  }

  function AddEdge(g: Graph, a: TxnId, b: TxnId): Graph {
    g[a := Successors(g, a) + {b}]
  }

  /** The table after `t` asked for `key`. */
  ghost function AfterAcquire(tb: Table, t: TxnId, key: Key, kind: LockType): Table {
    match Decide(HoldersOf(tb, key), t, kind)
    case AlreadyHeld | UpgradeConflict(_) => tb
    case Conflict(blocker) =>
      var g := AddEdge(tb.waitFor, t, blocker);
      tb.(waitFor := if OnCycle(g, t) then g - {t} else g)
    case Upgrade | Grant =>
      Table(tb.locks[key := Without(HoldersOf(tb, key), t) + [LockInfo(t, kind)]], tb.waitFor - {t})
  }

  predicate Granted(tb: Table, t: TxnId, key: Key, kind: LockType) {
    Decide(HoldersOf(tb, key), t, kind) in {AlreadyHeld, Upgrade, Grant}
  }

  /** The answers `t` may get: on a deadlock, any shortest cycle through `t`. */
  ghost predicate Answers(tb: Table, t: TxnId, key: Key, kind: LockType, r: LockResult) {
    match Decide(HoldersOf(tb, key), t, kind)
    case AlreadyHeld | Upgrade | Grant => r == Acquired
    case UpgradeConflict(other) => r == LockConflict(other)
    case Conflict(blocker) =>
      var g := AddEdge(tb.waitFor, t, blocker);
      if OnCycle(g, t) then r.DeadlockDetected? && ShortestCycleAt(g, t, r.cycle) else r == LockConflict(blocker)
  }

  /** The table after every lock of `t` was released. */
  function AfterRelease(tb: Table, t: TxnId): Table {
    Table(map k | k in tb.locks && Without(tb.locks[k], t) != [] :: Without(tb.locks[k], t),
          map a | a in tb.waitFor && a != t :: tb.waitFor[a] - {t})
  }

  class LockTable {
    var locks: map<Key, seq<LockInfo>>
    var waitFor: Graph

    ghost function View(): Table
      reads this
    {
      Table(locks, waitFor)
    }

    constructor ()
      ensures View() == EMPTY_TABLE
    {
      locks, waitFor := map[], map[];
    }

    method Acquire(t: TxnId, key: Key, kind: LockType) returns (r: LockResult)
      modifies this
      ensures View() == AfterAcquire(old(View()), t, key, kind)
      ensures Answers(old(View()), t, key, kind, r)
    {
      var holders := if key in locks then locks[key] else [];
      var action := Inspect(holders, t, kind);
      match action {
        case AlreadyHeld => return Acquired;
        case UpgradeConflict(other) => return LockConflict(other);
        case Conflict(blocker) =>
          waitFor := AddEdge(waitFor, t, blocker);
          var found, cycle := DetectCycle(t);
          if found {
            waitFor := waitFor - {t};
            return DeadlockDetected(cycle);
          }
          return LockConflict(blocker);
        case Upgrade =>
        case Grant =>
      }
      locks := locks[key := Without(holders, t) + [LockInfo(t, kind)]];
      waitFor := waitFor - {t};
      return Acquired;
    }

    /** The scan over the holders of one key. */
    method Inspect(holders: seq<LockInfo>, t: TxnId, kind: LockType) returns (action: Action)
      ensures action == Decide(holders, t, kind)
    {
      action := Grant;
      var i := 0;
      while i < |holders|
        invariant i <= |holders| && action == Grant
        invariant forall j :: 0 <= j < i ==> !Stops(holders[j], t, kind)
        invariant FirstStop(holders, t, kind) == i + FirstStop(holders[i..], t, kind)
      {
        var info := holders[i];
        if info.holder == t {
          if info.kind == Shared && kind == Exclusive {
            if |holders| == 1 {
              action := Upgrade;
            } else {
              action := UpgradeConflict(FirstOther(holders, t));
            }
          } else {
            action := AlreadyHeld;
          }
          break;
        }
        if !Compatible(info.kind, kind) {
          action := Conflict(info.holder);
          break;
        }
        i := i + 1;
      }
    }

    method ReleaseAll(t: TxnId)
      modifies this
      ensures View() == AfterRelease(old(View()), t)
    {
      locks := map k | k in locks && Without(locks[k], t) != [] :: Without(locks[k], t);
      waitFor := waitFor - {t};
      waitFor := map a | a in waitFor :: waitFor[a] - {t};
      assert waitFor == AfterRelease(old(View()), t).waitFor;
    }

    /** Breadth-first search for a shortest cycle through `start`. */
    method DetectCycle(start: TxnId) returns (found: bool, cycle: seq<TxnId>)
      ensures found <==> OnCycle(waitFor, start)
      ensures found ==> ShortestCycleAt(waitFor, start, cycle)
    {
      var visited: set<TxnId> := {};
      ghost var depth: map<TxnId, int> := map[];
      var queue := Extend([start], Successors(waitFor, start));
      SearchStarts(waitFor, start, queue);
      while queue != []
        invariant visited == depth.Keys && Search(waitFor, start, queue, depth)
        decreases Nodes(waitFor) - visited, |queue|
      {
        var path := queue[0];
        var current := path[|path| - 1];
        if current == start {
          FirstReturnIsShortest(waitFor, start, queue, depth);
          return true, path;
        }
        if current in visited {
          SkipVisited(waitFor, start, queue, depth);
          queue := queue[1..];
        } else {
          var paths := Extend(path, Successors(waitFor, current));
          Visit(waitFor, start, queue, depth, paths);
          visited := visited + {current};
          depth := depth[current := |path| - 1];
          queue := queue[1..] + paths;
        }
      }
      EmptyQueueMeansNoCycle(waitFor, start, depth);
      return false, [];
    }

    method Extend(path: seq<TxnId>, targets: set<TxnId>) returns (paths: seq<seq<TxnId>>)
      ensures Extensions(path, targets, paths)
    {
      paths := [];
      var rest := targets;
      while rest != {}
        invariant rest <= targets && Extensions(path, targets - rest, paths)
      {
        var w :| w in rest;
        rest := rest - {w};
        paths := paths + [path + [w]];
      }
      assert targets - rest == targets;
    }

    method IsLocked(key: Key) returns (locked: bool)
      ensures locked <==> HoldersOf(View(), key) != []
    {
      locked := key in locks && locks[key] != [];
    }

    method Holders(key: Key) returns (holders: seq<LockInfo>)
      ensures holders == HoldersOf(View(), key)
    {
      holders := if key in locks then locks[key] else [];
    }
  }
}
