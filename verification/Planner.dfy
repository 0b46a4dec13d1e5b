/** From a logical plan to a physical one: cost each node, order the steps, total the cost. */
module Planner {
  import opened Wrappers
  import opened PlanCosts
  import opened PlanHints

  datatype Logical = Logical(nodes: seq<Node>, posts: seq<Post>)

  datatype Strategy = InSequence | InParallel

  datatype PlanStep = PlanStep(number: nat, modality: Modality, cost: Cost, hint: Hint, pushed: seq<Condition>)

  /** What a note says; its wording is not kept. */
  datatype Note =
    | AcrossModalities(count: nat)
    | OneAfterAnother
    | HighCost
    | Unselective(step: nat, modality: Modality, selectivity: real)

  datatype Physical = Physical(steps: seq<PlanStep>, strategy: Strategy, total: Cost, notes: seq<Note>)

  /** An empty plan is refused; at a query whose preview cannot be cut the program stops. */
  datatype PlanError = EmptyPlan | Stopped

  function Priority(m: Modality): nat {
    match m
    case Temporal => 10
    case Vector => 20
    case Document => 30
    case Graph => 40
    case Tensor => 50
    case Semantic => 90
  }

  // ---- The stable sort -------------------------------------------------------------------

  /** A node by its place in the logical plan, with what it is sorted by. */
  datatype Entry = Entry(at: nat, priority: nat, cost: Cost)

  /** In priority order, then by time. */
  predicate Greater(a: Entry, b: Entry) {
    a.priority > b.priority || (a.priority == b.priority && a.cost.time > b.cost.time)
  }

  /** Strictly in order: equals keep their places. */
  predicate Before(a: Entry, b: Entry) {
    Greater(b, a) || (!Greater(a, b) && a.at < b.at)
  }

  ghost predicate InOrder(es: seq<Entry>) {
    forall i, j :: 0 <= i < j < |es| ==> Before(es[i], es[j])
  }

  /** `e` goes after everything it is not less than. */
  function Inserted(es: seq<Entry>, e: Entry): seq<Entry> {
    if es == [] then [e]
    else
      var n := |es| - 1;
      if Greater(es[n], e) then Inserted(es[..n], e) + [es[n]] else es + [e]
  }

  function StablySorted(es: seq<Entry>): seq<Entry> {
    if es == [] then [] else Inserted(StablySorted(es[..|es| - 1]), es[|es| - 1])
  }

  lemma {:induction false} InsertedMultiset(es: seq<Entry>, e: Entry)
    ensures multiset(Inserted(es, e)) == multiset(es) + multiset{e}
  {
    if es != [] {
      var n := |es| - 1;
      InsertedMultiset(es[..n], e);
      assert es == es[..n] + [es[n]];
    }
  }

  lemma {:induction false} InsertedInOrder(es: seq<Entry>, e: Entry)
    requires InOrder(es) && forall x :: x in es ==> x.at < e.at
    ensures InOrder(Inserted(es, e))
  {
    if es != [] {
      var n := |es| - 1;
      var r := Inserted(es, e);
      if Greater(es[n], e) {
        InsertedInOrder(es[..n], e);
        InsertedMultiset(es[..n], e);
        var front := Inserted(es[..n], e);
        forall i | 0 <= i < |front| ensures Before(front[i], es[n]) {
          assert front[i] in multiset(es[..n]) + multiset{e};
          assert front[i] in es[..n] || front[i] == e;
        }
        assert r == front + [es[n]];
      } else {
        forall i | 0 <= i < |es| ensures Before(es[i], e) {
          assert es[i] in es;
        }
      }
    }
  }

  ghost predicate Numbered(es: seq<Entry>) {
    forall i :: 0 <= i < |es| ==> es[i].at == i
  }

  lemma {:induction false} SortedProperly(es: seq<Entry>)
    requires Numbered(es)
    ensures InOrder(StablySorted(es)) && multiset(StablySorted(es)) == multiset(es)
  {
    hide Greater;
    if es != [] {
      var n := |es| - 1;
      var before := StablySorted(es[..n]);
      SortedProperly(es[..n]);
      forall x | x in before ensures x.at < es[n].at {
        assert x in multiset(es[..n]);
      }
      InsertedInOrder(before, es[n]);
      InsertedMultiset(before, es[n]);
      assert es == es[..n] + [es[n]];
    }
  }

  /** There is one stable order, whatever algorithm finds it. */
  lemma {:induction false} OneStableOrder(a: seq<Entry>, b: seq<Entry>)
    requires multiset(a) == multiset(b) && InOrder(a) && InOrder(b)
    ensures a == b
    decreases |a|
  {
    assert |a| == |multiset(a)| == |multiset(b)| == |b|;
    if a != [] {
      var n := |a| - 1;
      assert a[n] in multiset(b) && b[n] in multiset(a);
      LastIsGreatest(a, b[n]);
      LastIsGreatest(b, a[n]);
      RemovedMultiset(a, n);
      RemovedMultiset(b, n);
      assert Removed(a, n) == a[..n] && Removed(b, n) == b[..n];
      OneStableOrder(a[..n], b[..n]);
    }
  }

  lemma LastIsGreatest(es: seq<Entry>, e: Entry)
    requires InOrder(es) && e in es
    ensures e == es[|es| - 1] || (Before(e, es[|es| - 1]) && !Before(es[|es| - 1], e))
  {
    var i :| 0 <= i < |es| && es[i] == e;
    assert i == |es| - 1 || Before(es[i], es[|es| - 1]);
  }

  // ---- The plan --------------------------------------------------------------------------

  function Costed(cfg: Config, nodes: seq<Node>): (es: seq<Entry>)
    ensures |es| == |nodes| && Numbered(es)
    ensures forall i :: 0 <= i < |nodes| ==> es[i].priority == Priority(nodes[i].modality) && es[i].cost == NodeCost(cfg, nodes[i])
  {
    if nodes == [] then []
    else
      var n := |nodes| - 1;
      Costed(cfg, nodes[..n]) + [Entry(n, Priority(nodes[n].modality), NodeCost(cfg, nodes[n]))]
  }

  function Costs(es: seq<Entry>): (cs: seq<Cost>)
    ensures |cs| == |es| && forall i :: 0 <= i < |es| ==> cs[i] == es[i].cost
  {
    if es == [] then [] else Costs(es[..|es| - 1]) + [es[|es| - 1].cost]
  }

  predicate Parallelizes(cfg: Config, logical: Logical) {
    |logical.nodes| >= cfg.parallelThreshold
  }

  /** The total over the steps in their order. */
  function Total(cfg: Config, logical: Logical): Cost {
    var sorted := StablySorted(Costed(cfg, logical.nodes));
    WithPost(cfg, Combined(Costs(sorted), Parallelizes(cfg, logical)), logical.posts)
  }

  /** Step `i` of the plan carries the node at `sorted[i]`. */
  ghost predicate StepsFollow(cfg: Config, nodes: seq<Node>, sorted: seq<Entry>, steps: seq<PlanStep>) {
    && |steps| == |sorted|
    && forall i :: 0 <= i < |steps| ==>
         && sorted[i].at < |nodes|
         && var node := nodes[sorted[i].at];
            steps[i] == PlanStep(i + 1, node.modality, NodeCost(cfg, node), NodeHint(node), node.conditions)
  }

  // ---- Notes ---------------------------------------------------------------------------------

  predicate IsUnselective(step: PlanStep) {
    step.cost.selectivity > 0.5 && step.cost.time > 100.0
  }

  function StepNotes(steps: seq<PlanStep>): seq<Note> {
    if steps == [] then []
    else
      var n := |steps| - 1;
      StepNotes(steps[..n])
      + if IsUnselective(steps[n]) then [Unselective(steps[n].number, steps[n].modality, steps[n].cost.selectivity)] else []
  }

  function Notes(strategy: Strategy, steps: seq<PlanStep>, total: Cost): seq<Note> {
    [if strategy == InParallel then AcrossModalities(|steps|) else OneAfterAnother]
    + (if total.time > 500.0 then [HighCost] else [])
    + StepNotes(steps)
  }

  method TakeNotes(strategy: Strategy, steps: seq<PlanStep>, total: Cost) returns (notes: seq<Note>)
    ensures notes == Notes(strategy, steps, total)
  {
    notes := [if strategy == InParallel then AcrossModalities(|steps|) else OneAfterAnother];
    if total.time > 500.0 {
      notes := notes + [HighCost];
    }
    ghost var before := notes;
    for i := 0 to |steps|
      invariant notes == before + StepNotes(steps[..i])
    {
      assert steps[..i + 1][..i] == steps[..i];
      if steps[i].cost.selectivity > 0.5 && steps[i].cost.time > 100.0 {
        notes := notes + [Unselective(steps[i].number, steps[i].modality, steps[i].cost.selectivity)];
      }
    }
    assert steps[..|steps|] == steps;
  }

  /** A step is noted exactly when it is unselective and slow. */
  lemma {:induction false} NotedExactly(steps: seq<PlanStep>, note: Note)
    ensures note in StepNotes(steps) <==>
      exists i :: 0 <= i < |steps| && steps[i].cost.selectivity > 0.5 && steps[i].cost.time > 100.0
                  && note == Unselective(steps[i].number, steps[i].modality, steps[i].cost.selectivity)
  {
    if steps != [] {
      var n := |steps| - 1;
      NotedExactly(steps[..n], note);
      if i :| 0 <= i < |steps| && IsUnselective(steps[i])
              && note == Unselective(steps[i].number, steps[i].modality, steps[i].cost.selectivity) {
        assert i < n ==> steps[..n][i] == steps[i];
      }
    }
  }

  /**
   * The notes of a plan: on its strategy, on a total above half a second, and
   * on each step that is unselective and slow.
   */
  lemma NotesExactly(strategy: Strategy, steps: seq<PlanStep>, total: Cost, note: Note)
    ensures note in Notes(strategy, steps, total) <==>
      match note
      case AcrossModalities(count) => strategy == InParallel && count == |steps|
      case OneAfterAnother => strategy == InSequence
      case HighCost => total.time > 500.0
      case Unselective(number, modality, selectivity) =>
        exists i :: 0 <= i < |steps| && steps[i].cost.selectivity > 0.5 && steps[i].cost.time > 100.0
                    && number == steps[i].number && modality == steps[i].modality && selectivity == steps[i].cost.selectivity
  {
    hide StepNotes;
    NotedExactly(steps, note);
  }

  method Optimize(cfg: Config, logical: Logical) returns (r: Result<Physical, PlanError>)
    ensures r == Err(EmptyPlan) <==> logical.nodes == []
    ensures r == Err(Stopped) <==> exists node :: node in logical.nodes && !Hintable(node)
    ensures r.Ok? ==>
      && StepsFollow(cfg, logical.nodes, StablySorted(Costed(cfg, logical.nodes)), r.value.steps)
      && r.value.strategy == (if |logical.nodes| >= cfg.parallelThreshold then InParallel else InSequence)
      && r.value.total == Total(cfg, logical)
      && r.value.notes == Notes(r.value.strategy, r.value.steps, r.value.total)
  {
    hide NodeCost, Priority, Combined, WithPost, StablySorted, StepsFollow, Costed, NodeHint, Hintable, Notes;
    if logical.nodes == [] {
      return Err(EmptyPlan);
    }
    var entries, hints := CostNodes(cfg, logical.nodes);
    if |hints| < |logical.nodes| {
      return Err(Stopped);
    }
    var sorted := StablySorted(entries);
    var strategy := if |logical.nodes| >= cfg.parallelThreshold then InParallel else InSequence;
    var steps, costs := BuildSteps(cfg, logical.nodes, hints, sorted);
    var combined := Combine(costs, strategy == InParallel);
    var total := EstimateWithPostProcessing(cfg, combined, logical.posts);
    var notes := TakeNotes(strategy, steps, total);
    return Ok(Physical(steps, strategy, total, notes));
  }

  /** Each node with its cost and its hint, up to the first that cannot be given one. */
  method CostNodes(cfg: Config, nodes: seq<Node>) returns (entries: seq<Entry>, hints: seq<Hint>)
    ensures |hints| <= |nodes| && forall i :: 0 <= i < |hints| ==> Hintable(nodes[i]) && hints[i] == NodeHint(nodes[i])
    ensures if |hints| == |nodes| then entries == Costed(cfg, nodes) else !Hintable(nodes[|hints|])
  {
    hide NodeCost, Priority, NodeHint, Hintable;
    entries, hints := [], [];
    for i := 0 to |nodes|
      invariant entries == Costed(cfg, nodes[..i])
      invariant |hints| == i && forall j :: 0 <= j < i ==> Hintable(nodes[j]) && hints[j] == NodeHint(nodes[j])
    {
      assert nodes[..i + 1][..i] == nodes[..i];
      var cost := Estimate(cfg, nodes[i]);
      var hint := OptimizationHint(nodes[i]);
      if hint.None? {
        return;
      }
      entries, hints := entries + [Entry(i, Priority(nodes[i].modality), cost)], hints + [hint.value];
    }
    assert nodes[..|nodes|] == nodes;
  }

  method BuildSteps(cfg: Config, nodes: seq<Node>, hints: seq<Hint>, sorted: seq<Entry>)
    returns (steps: seq<PlanStep>, costs: seq<Cost>)
    requires sorted == StablySorted(Costed(cfg, nodes))
    requires |hints| == |nodes| && forall i :: 0 <= i < |nodes| ==> hints[i] == NodeHint(nodes[i])
    ensures StepsFollow(cfg, nodes, sorted, steps) && costs == Costs(sorted)
  {
    hide NodeCost, Priority, StablySorted, NodeHint;
    SortedEntries(cfg, nodes);
    steps, costs := [], [];
    for k := 0 to |sorted|
      invariant StepsFollow(cfg, nodes, sorted[..k], steps) && costs == Costs(sorted[..k])
    {
      assert sorted[..k + 1][..k] == sorted[..k];
      var node := nodes[sorted[k].at];
      steps := steps + [PlanStep(k + 1, node.modality, sorted[k].cost, hints[sorted[k].at], node.conditions)];
      costs := costs + [sorted[k].cost];
    }
    assert sorted[..|sorted|] == sorted;
  }

  lemma SortedEntries(cfg: Config, nodes: seq<Node>)
    ensures var es := Costed(cfg, nodes); var sorted := StablySorted(es);
      && |sorted| == |nodes| && InOrder(sorted)
      && forall i :: 0 <= i < |sorted| ==> sorted[i].at < |nodes| && sorted[i] == es[sorted[i].at]
  {
    hide NodeCost, Priority, StablySorted;
    var es := Costed(cfg, nodes);
    var sorted := StablySorted(es);
    SortedProperly(es);
    assert |sorted| == |multiset(sorted)| == |multiset(es)| == |es|;
    forall i | 0 <= i < |sorted| ensures sorted[i].at < |nodes| && sorted[i] == es[sorted[i].at] {
      assert sorted[i] in multiset(es);
    }
  }

  // ---- What a plan guarantees --------------------------------------------------------------

  /** The modalities as they are meant to run: quick and selective ones first, proofs last. */
  const SCHEDULE: seq<Modality> := [Temporal, Vector, Document, Graph, Tensor, Semantic]

  ghost predicate RunsBefore(a: Modality, b: Modality) {
    exists i, j :: 0 <= i < j < |SCHEDULE| && SCHEDULE[i] == a && SCHEDULE[j] == b
  }

  lemma PriorityIsSchedule(a: Modality, b: Modality)
    ensures RunsBefore(a, b) <==> Priority(a) < Priority(b)
    ensures Priority(a) == Priority(b) ==> a == b
  {
    assert SCHEDULE[0] == Temporal && SCHEDULE[1] == Vector && SCHEDULE[2] == Document;
    assert SCHEDULE[3] == Graph && SCHEDULE[4] == Tensor && SCHEDULE[5] == Semantic;
  }

  /** Every node once, as its modality is scheduled, cheaper first, and ties as they came. */
  ghost predicate ProperOrder(cfg: Config, nodes: seq<Node>, order: seq<nat>) {
    && |order| == |nodes|
    && (forall i :: 0 <= i < |order| ==> order[i] < |nodes|)
    && (forall i, j :: 0 <= i < j < |order| ==> order[i] != order[j])
    && forall i, j :: 0 <= i < j < |order| ==>
         var a, b := nodes[order[i]], nodes[order[j]];
         || RunsBefore(a.modality, b.modality)
         || (a.modality == b.modality
             && (NodeCost(cfg, a).time < NodeCost(cfg, b).time || (NodeCost(cfg, a).time == NodeCost(cfg, b).time && order[i] < order[j])))
  }

  function Places(es: seq<Entry>): (ps: seq<nat>)
    ensures |ps| == |es| && forall i :: 0 <= i < |es| ==> ps[i] == es[i].at
  {
    if es == [] then [] else Places(es[..|es| - 1]) + [es[|es| - 1].at]
  }

  /** The steps take every node once, in the order scheduled and then in order of time. */
  lemma StepsAreOrderedPermutation(cfg: Config, nodes: seq<Node>)
    ensures ProperOrder(cfg, nodes, Places(StablySorted(Costed(cfg, nodes))))
  {
    hide NodeCost, Priority, StablySorted, RunsBefore;
    var sorted := StablySorted(Costed(cfg, nodes));
    SortedEntries(cfg, nodes);
    forall i, j | 0 <= i < j < |sorted| ensures sorted[i].at != sorted[j].at {
      assert Before(sorted[i], sorted[j]);
    }
    forall a, b ensures (RunsBefore(a, b) <==> Priority(a) < Priority(b)) && (Priority(a) == Priority(b) ==> a == b) {
      PriorityIsSchedule(a, b);
    }
  }

  /** The costs of the nodes, in the nodes' own order. */
  function CostsOf(cfg: Config, nodes: seq<Node>): seq<Cost> {
    Costs(Costed(cfg, nodes))
  }

  lemma {:induction false} CostsKeepMultiset(a: seq<Entry>, b: seq<Entry>)
    requires multiset(a) == multiset(b)
    ensures multiset(Costs(a)) == multiset(Costs(b))
    decreases |a|
  {
    if a == [] {
      assert |b| == |multiset(b)| == |multiset(a)| == 0;
    } else {
      var n := |a| - 1;
      var k := TakeLastFromBoth(a, b);
      CostsKeepMultiset(a[..n], Removed(b, k));
      RemovedMultiset(Costs(b), k);
      CostsOfFewer(b, k);
      assert Costs(a) == Costs(a[..n]) + [a[n].cost];
    }
  }

  lemma CostsOfFewer(es: seq<Entry>, k: nat)
    requires k < |es|
    ensures Costs(Removed(es, k)) == Removed(Costs(es), k)
  {
    hide Costs;
    var left, right := Costs(Removed(es, k)), Removed(Costs(es), k);
    forall i | 0 <= i < |left| ensures left[i] == right[i] {
      if i < k {
        assert Removed(es, k)[i] == es[i];
      } else {
        assert Removed(es, k)[i] == es[i + 1];
      }
    }
  }

  /** Sorting leaves the total what it is for the nodes as they stand. */
  lemma TotalNeedsNoSorting(cfg: Config, logical: Logical)
    ensures Total(cfg, logical) == WithPost(cfg, Combined(CostsOf(cfg, logical.nodes), Parallelizes(cfg, logical)), logical.posts)
  {
    var es := Costed(cfg, logical.nodes);
    SortedProperly(es);
    CostsKeepMultiset(StablySorted(es), es);
    CombineIgnoresOrder(Costs(StablySorted(es)), Costs(es), Parallelizes(cfg, logical));
  }

  lemma CostsOfRemoved(cfg: Config, nodes: seq<Node>, k: nat)
    requires k < |nodes|
    ensures CostsOf(cfg, Removed(nodes, k)) == Removed(CostsOf(cfg, nodes), k)
  {
    hide Costs, Costed, NodeCost;
    var left, right := CostsOf(cfg, Removed(nodes, k)), Removed(CostsOf(cfg, nodes), k);
    forall i | 0 <= i < |left| ensures left[i] == right[i] {
      if i < k {
        assert Removed(nodes, k)[i] == nodes[i];
      } else {
        assert Removed(nodes, k)[i] == nodes[i + 1];
      }
    }
  }

  lemma {:induction false} CostsOfIgnoresOrder(cfg: Config, a: seq<Node>, b: seq<Node>)
    requires multiset(a) == multiset(b)
    ensures multiset(CostsOf(cfg, a)) == multiset(CostsOf(cfg, b))
    decreases |a|
  {
    hide NodeCost;
    if a == [] {
      assert |b| == |multiset(b)| == |multiset(a)| == 0;
    } else {
      var n := |a| - 1;
      var k := TakeLastFromBoth(a, b);
      CostsOfIgnoresOrder(cfg, a[..n], Removed(b, k));
      CostsOfRemoved(cfg, b, k);
      RemovedMultiset(CostsOf(cfg, b), k);
      assert CostsOf(cfg, a) == CostsOf(cfg, a[..n]) + [NodeCost(cfg, a[n])];
    }
  }

  /** Neither the strategy nor the total depends on the order of the nodes. */
  lemma OrderOfNodesIsIrrelevant(cfg: Config, a: Logical, b: Logical)
    requires multiset(a.nodes) == multiset(b.nodes) && a.posts == b.posts
    ensures Parallelizes(cfg, a) == Parallelizes(cfg, b) && Total(cfg, a) == Total(cfg, b)
  {
    assert |a.nodes| == |multiset(a.nodes)| == |multiset(b.nodes)| == |b.nodes|;
    TotalNeedsNoSorting(cfg, a);
    TotalNeedsNoSorting(cfg, b);
    CostsOfIgnoresOrder(cfg, a.nodes, b.nodes);
    CombineIgnoresOrder(CostsOf(cfg, a.nodes), CostsOf(cfg, b.nodes), Parallelizes(cfg, a));
  }

  /** Work is time when sequential, and covers the time when parallel. */
  lemma TotalCoversTime(cfg: Config, logical: Logical)
    requires Sensible(cfg)
    ensures var t := Total(cfg, logical);
      t.io + t.cpu >= t.time >= 0.0 && (!Parallelizes(cfg, logical) ==> t.io + t.cpu == t.time)
  {
    var costs := CostsOf(cfg, logical.nodes);
    forall i | 0 <= i < |costs| ensures Split(costs[i]) {
      NodeCostSplits(cfg, logical.nodes[i]);
    }
    TotalNeedsNoSorting(cfg, logical);
    CombinedSplits(costs, Parallelizes(cfg, logical));
    PostKeepsSplit(cfg, Combined(costs, Parallelizes(cfg, logical)), logical.posts);
  }

  lemma {:induction false} CombinedTimeBounds(costs: seq<Cost>, parallel: bool, k: nat)
    requires k < |costs| && forall i :: 0 <= i < |costs| ==> costs[i].time >= 0.0
    ensures Combined(costs, parallel).time >= costs[k].time
    ensures parallel ==> exists i :: 0 <= i < |costs| && costs[i].time == Combined(costs, parallel).time
  {
    if |costs| > 1 {
      var n := |costs| - 1;
      CombinedTimeBounds(costs[..n], parallel, if k < n then k else 0);
      if parallel {
        var i :| 0 <= i < n && costs[..n][i].time == Combined(costs[..n], parallel).time;
        assert costs[i].time == costs[..n][i].time && costs[n].time == costs[n].time;
      }
    }
  }

  /** No step takes longer than the plan. */
  lemma NoStepOutlastsPlan(cfg: Config, logical: Logical, k: nat)
    requires Sensible(cfg) && k < |logical.nodes|
    ensures Total(cfg, logical).time >= NodeCost(cfg, logical.nodes[k]).time
  {
    var costs := CostsOf(cfg, logical.nodes);
    forall i | 0 <= i < |costs| ensures Split(costs[i]) {
      NodeCostSplits(cfg, logical.nodes[i]);
    }
    TotalNeedsNoSorting(cfg, logical);
    CombinedSplits(costs, Parallelizes(cfg, logical));
    CombinedTimeBounds(costs, Parallelizes(cfg, logical), k);
    PostKeepsSplit(cfg, Combined(costs, Parallelizes(cfg, logical)), logical.posts);
  }
}
