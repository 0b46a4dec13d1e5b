/** The cost model of the query planner, in exact arithmetic. */
module PlanCosts {
  import opened Wrappers

  datatype Modality = Graph | Vector | Tensor | Semantic | Document | Temporal

  datatype Mode = Conservative | Balanced | Aggressive

  datatype Condition =
    | Equality(field: string, value: string)
    | Range(field: string, low: string, high: string)
    | Fulltext(query: string)
    | Similarity(k: nat)
    | Traversal(relation: string, depth: Option<nat>)
    | AtTime(timestamp: string)
    | ProofVerification(contract: string)
    | TensorOp(operation: string)
    | Predicate(expression: string)

  datatype Node = Node(modality: Modality, conditions: seq<Condition>, projections: seq<string>, earlyLimit: Option<nat>)

  datatype Post =
    | OrderBy(keys: seq<(string, bool)>)
    | Limit(count: nat)
    | GroupBy(fields: seq<string>, aggregates: seq<string>)
    | Project(columns: seq<string>)

  datatype Stats = Stats(totalRows: nat, avgLatency: real, avgRows: nat, queryCount: nat)

  /** `log2` stands for the logarithm, of which only its floor at one is used. */
  datatype Config = Config(
    globalMode: Mode, overrides: map<Modality, Mode>, weight: real, parallelThreshold: nat,
    stats: map<Modality, Stats>, log2: nat -> real)

  datatype Cost = Cost(time: real, rows: nat, selectivity: real, io: real, cpu: real)

  /** Weights are fractions and latencies are not negative. */
  ghost predicate Sensible(cfg: Config) {
    0.0 <= cfg.weight <= 1.0 && forall m :: m in cfg.stats ==> cfg.stats[m].avgLatency >= 0.0
  }

  // ---- Tables --------------------------------------------------------------------------

  function BaseTime(m: Modality): real {
    match m
    case Graph => 150.0
    case Vector => 50.0
    case Tensor => 200.0
    case Semantic => 300.0
    case Document => 80.0
    case Temporal => 30.0
  }

  function BaseSelectivity(m: Modality): real {
    match m
    case Graph => 0.2
    case Vector => 0.01
    case Tensor => 0.5
    case Semantic => 0.8
    case Document => 0.05
    case Temporal => 0.1
  }

  function ModeFor(cfg: Config, m: Modality): Mode {
    if m in cfg.overrides then cfg.overrides[m] else cfg.globalMode
  }

  function CostMultiplier(mode: Mode): real {
    match mode
    case Conservative => 1.5
    case Balanced => 1.0
    case Aggressive => 0.8
  }

  function SelectivityMultiplier(mode: Mode): real {
    match mode
    case Conservative => 2.0
    case Balanced => 1.0
    case Aggressive => 0.5
  }

  // ---- Proof types ---------------------------------------------------------------------

  const KNOWN_PROOFS: seq<string> := ["existence", "citation", "access", "integrity", "provenance", "zkp"]

  /**
   * Lower case, as far as it can bring about the name of a known type: of the
   * letters themselves and of the Kelvin sign. The dotted capital I becomes an i
   * with a combining dot, which no name contains.
   */
  function LowerChar(c: char): char {
    if 'A' <= c <= 'Z' then c + 32 as char else if c as int == 0x212A then 'k' else c
  }

  function Lower(s: string): string {
    seq(|s|, i requires 0 <= i < |s| => LowerChar(s[i]))
  }

  predicate StandsAt(s: string, t: string, i: int) {
    0 <= i <= |s| - |t| && s[i..i + |t|] == t
  }

  predicate Contains(s: string, t: string) {
    exists i :: 0 <= i <= |s| - |t| && StandsAt(s, t, i)
  }

  /** The first known type, from the `i`-th on, that the text contains. */
  function FirstKnown(lower: string, i: nat): (r: nat)
    requires i <= 6
    ensures i <= r <= 6 && (forall k :: i <= k < r ==> !Contains(lower, KNOWN_PROOFS[k]))
    ensures r < 6 ==> Contains(lower, KNOWN_PROOFS[r])
    decreases 6 - i
  {
    if i == 6 || Contains(lower, KNOWN_PROOFS[i]) then i else FirstKnown(lower, i + 1)
  }

  function ProofType(contract: string): string {
    var k := FirstKnown(Lower(contract), 0);
    if k < 6 then KNOWN_PROOFS[k] else "custom"
  }

  method ExtractProofType(contract: string) returns (t: string)
    ensures t == ProofType(contract)
    ensures t == "custom" || (t in KNOWN_PROOFS && Contains(Lower(contract), t))
  {
    var lower := Lower(contract);
    for k := 0 to 6
      invariant FirstKnown(lower, 0) == FirstKnown(lower, k)
    {
      if Contains(lower, KNOWN_PROOFS[k]) {
        return KNOWN_PROOFS[k];
      }
    }
    return "custom";
  }

  /** Verification plus circuit generation. */
  function ProofTime(t: string): real {
    if t == "existence" then 1.0 + 0.0
    else if t == "citation" then 5.0 + 0.0
    else if t == "access" then 15.0 + 0.0
    else if t == "integrity" then 50.0 + 10.0
    else if t == "provenance" then 30.0 + 0.0
    else 200.0 + 100.0
  }

  function MinReal(a: real, b: real): real { if a <= b then a else b }

  function MaxReal(a: real, b: real): real { if a <= b then b else a }

  function MaxNat(a: nat, b: nat): nat { if a <= b then b else a }

  /** Rounded toward zero, as a cast to an unsigned integer is. */
  function Truncate(x: real): nat {
    if x < 0.0 then 0 else x.Floor
  }

  /** Between `x` and `y`, the latter weighing `w`. */
  function Blend(x: real, y: real, w: real): real { x * (1.0 - w) + y * w }

  function Scaled(x: real, factor: real): real { x * factor }

  function Share(part: nat, whole: nat): real
    requires whole > 0
  {
    part as real / whole as real
  }

  // ---- One node ------------------------------------------------------------------------

  /** The running values while the conditions of a node are read. */
  datatype Draft = Draft(time: real, selectivity: real, proof: real)

  function Started(cfg: Config, node: Node): Draft {
    var mode := ModeFor(cfg, node.modality);
    Draft(Scaled(BaseTime(node.modality), CostMultiplier(mode)),
          MinReal(Scaled(BaseSelectivity(node.modality), SelectivityMultiplier(mode)), 1.0), 0.0)
  }

  function Informed(cfg: Config, node: Node, d: Draft): Draft {
    if node.modality !in cfg.stats || cfg.stats[node.modality].queryCount == 0 then d
    else
      var s, w := cfg.stats[node.modality], cfg.weight;
      var time := Blend(d.time, s.avgLatency, w);
      if s.totalRows == 0 then d.(time := time)
      else d.(time := time, selectivity := Blend(d.selectivity, Share(s.avgRows, s.totalRows), w))
  }

  function Limited(node: Node, d: Draft): Draft {
    if node.earlyLimit.None? then d
    else
      var factor := MinReal(node.earlyLimit.value as real / 1000.0, 1.0);
      d.(selectivity := Scaled(d.selectivity, factor), time := Scaled(d.time, 0.5 + 0.5 * factor))
  }

  function Narrowed(d: Draft, c: Condition): Draft {
    match c
    case Equality(_, _) => d.(selectivity := d.selectivity * 0.1, time := d.time * 0.7)
    case Range(_, _, _) => d.(selectivity := d.selectivity * 0.3, time := d.time * 0.8)
    case Similarity(k) => d.(selectivity := MinReal(k as real / 10000.0, 1.0))
    case Fulltext(_) => d.(time := d.time * 0.6)
    case ProofVerification(contract) => d.(proof := d.proof + ProofTime(ProofType(contract)))
    case _ => d
  }

  function NarrowedBy(d: Draft, cs: seq<Condition>): Draft {
    if cs == [] then d else Narrowed(NarrowedBy(d, cs[..|cs| - 1]), cs[|cs| - 1])
  }

  /** Proofs cost processor time; the rest is mostly input and output. */
  function Finished(cfg: Config, node: Node, d: Draft): Cost {
    var time := d.time + d.proof;
    var all: real := if node.modality in cfg.stats then cfg.stats[node.modality].totalRows as real else 1000.0;
    Cost(time, Truncate(MaxReal(Scaled(all, d.selectivity), 1.0)), d.selectivity,
         (time - d.proof) * 0.6, (time - d.proof) * 0.4 + d.proof)
  }

  function NodeCost(cfg: Config, node: Node): Cost {
    Finished(cfg, node, NarrowedBy(Limited(node, Informed(cfg, node, Started(cfg, node))), node.conditions))
  }

  method Estimate(cfg: Config, node: Node) returns (r: Cost)
    ensures r == NodeCost(cfg, node)
  {
    hide Blend, Scaled, Share, Finished, BaseTime, BaseSelectivity, CostMultiplier, SelectivityMultiplier, MinReal, ProofTime, ProofType;
    var mode := ModeFor(cfg, node.modality);
    var time := Scaled(BaseTime(node.modality), CostMultiplier(mode));
    var selectivity := MinReal(Scaled(BaseSelectivity(node.modality), SelectivityMultiplier(mode)), 1.0);
    ghost var started := Started(cfg, node);
    assert Draft(time, selectivity, 0.0) == started;
    if node.modality in cfg.stats {
      var s := cfg.stats[node.modality];
      if s.queryCount > 0 {
        var w := cfg.weight;
        time := Blend(time, s.avgLatency, w);
        if s.totalRows > 0 {
          selectivity := Blend(selectivity, Share(s.avgRows, s.totalRows), w);
        }
      }
    }
    ghost var informed := Informed(cfg, node, started);
    assert Draft(time, selectivity, 0.0) == informed;
    if node.earlyLimit.Some? {
      var factor := MinReal(node.earlyLimit.value as real / 1000.0, 1.0);
      selectivity := Scaled(selectivity, factor);
      time := Scaled(time, 0.5 + 0.5 * factor);
    }
    assert Draft(time, selectivity, 0.0) == Limited(node, informed);
    var d := Narrow(Draft(time, selectivity, 0.0), node.conditions);
    r := Finished(cfg, node, d);
  }

  /** The conditions of a node, one after the other. */
  method Narrow(start: Draft, conditions: seq<Condition>) returns (d: Draft)
    ensures d == NarrowedBy(start, conditions)
  {
    hide ProofTime, ProofType, MinReal;
    var time, selectivity, proof := start.time, start.selectivity, start.proof;
    for i := 0 to |conditions|
      invariant Draft(time, selectivity, proof) == NarrowedBy(start, conditions[..i])
    {
      assert conditions[..i + 1][..i] == conditions[..i];
      match conditions[i] {
        case Equality(_, _) => selectivity, time := selectivity * 0.1, time * 0.7;
        case Range(_, _, _) => selectivity, time := selectivity * 0.3, time * 0.8;
        case Similarity(k) => selectivity := MinReal(k as real / 10000.0, 1.0);
        case Fulltext(_) => time := time * 0.6;
        case ProofVerification(contract) =>
          var t := ExtractProofType(contract);
          proof := proof + ProofTime(t);
        case _ =>
      }
    }
    assert conditions[..|conditions|] == conditions;
    d := Draft(time, selectivity, proof);
  }

  // ---- Combining -----------------------------------------------------------------------

  function Sequential(a: Cost, b: Cost): Cost {
    Cost(a.time + b.time, MaxNat(a.rows, b.rows), a.selectivity * b.selectivity, a.io + b.io, a.cpu + b.cpu)
  }

  function Parallel(a: Cost, b: Cost): Cost {
    Cost(MaxReal(a.time, b.time), MaxNat(a.rows, b.rows), a.selectivity * b.selectivity, a.io + b.io, a.cpu + b.cpu)
  }

  function Join(parallel: bool, a: Cost, b: Cost): Cost {
    if parallel then Parallel(a, b) else Sequential(a, b)
  }

  const NO_COST := Cost(0.0, 0, 1.0, 0.0, 0.0)

  function Combined(costs: seq<Cost>, parallel: bool): Cost {
    if costs == [] then NO_COST
    else if |costs| == 1 then costs[0]
    else Join(parallel, Combined(costs[..|costs| - 1], parallel), costs[|costs| - 1])
  }

  method Combine(costs: seq<Cost>, parallel: bool) returns (r: Cost)
    ensures r == Combined(costs, parallel)
  {
    if costs == [] {
      return NO_COST;
    }
    r := costs[0];
    for i := 1 to |costs|
      invariant r == Combined(costs[..i], parallel)
    {
      assert costs[..i + 1][..i] == costs[..i];
      r := if parallel then Parallel(r, costs[i]) else Sequential(r, costs[i]);
    }
    assert costs[..|costs|] == costs;
  }

  // ---- Work after the modality queries ---------------------------------------------------

  /** The processor time of one operation on `rows` rows. */
  function PostTime(cfg: Config, post: Post, rows: nat): real {
    var n := MaxNat(rows, 1);
    match post
    case OrderBy(fields) => n as real * MaxReal(cfg.log2(n), 1.0) * 0.001 * |fields| as real
    case Limit(_) => 0.1
    case GroupBy(fields, aggregates) =>
      n as real * 0.002 * |fields| as real + n as real * 0.001 * MaxNat(|aggregates|, 1) as real
    case Project(columns) => n as real * 0.0001 * |columns| as real
  }

  function PostRows(post: Post, rows: nat): nat {
    match post
    case Limit(count) => if rows <= count then rows else count
    case GroupBy(_, _) => Truncate(MaxReal(MaxNat(rows, 1) as real / 10.0, 1.0))
    case _ => rows
  }

  function WithPost(cfg: Config, cost: Cost, posts: seq<Post>): Cost {
    if posts == [] then cost
    else
      var n := |posts| - 1;
      var before := WithPost(cfg, cost, posts[..n]);
      var t := PostTime(cfg, posts[n], before.rows);
      before.(time := before.time + t, cpu := before.cpu + t, rows := PostRows(posts[n], before.rows))
  }

  method EstimateWithPostProcessing(cfg: Config, cost: Cost, posts: seq<Post>) returns (total: Cost)
    ensures total == WithPost(cfg, cost, posts)
  {
    total := cost;
    var rows := total.rows;
    for i := 0 to |posts|
      invariant total.(rows := rows) == WithPost(cfg, cost, posts[..i])
    {
      assert posts[..i + 1][..i] == posts[..i];
      var t := PostTime(cfg, posts[i], rows);
      total := total.(time := total.time + t, cpu := total.cpu + t);
      rows := PostRows(posts[i], rows);
    }
    assert posts[..|posts|] == posts;
    total := total.(rows := rows);
  }

  // ---- The laws of combination -----------------------------------------------------------

  lemma TimesAssociates(a: real, b: real, c: real)
    ensures (a * b) * c == a * (b * c) && a * b == b * a
  {
  }

  lemma JoinIsCommutative(parallel: bool, a: Cost, b: Cost)
    ensures Join(parallel, a, b) == Join(parallel, b, a)
  {
    TimesAssociates(a.selectivity, b.selectivity, 1.0);
  }

  lemma JoinIsAssociative(parallel: bool, a: Cost, b: Cost, c: Cost)
    ensures Join(parallel, Join(parallel, a, b), c) == Join(parallel, a, Join(parallel, b, c))
  {
    TimesAssociates(a.selectivity, b.selectivity, c.selectivity);
  }

  function Removed<T>(s: seq<T>, k: nat): seq<T>
    requires k < |s|
  {
    s[..k] + s[k + 1..]
  }

  /** Any one of the estimates may be combined last. */
  lemma {:induction false} AnyoneLast(costs: seq<Cost>, parallel: bool, k: nat)
    requires k < |costs| && |costs| >= 2
    ensures Combined(costs, parallel) == Join(parallel, Combined(Removed(costs, k), parallel), costs[k])
  {
    hide Join;
    var n := |costs| - 1;
    if k == n {
      assert Removed(costs, n) == costs[..n];
    } else if n == 1 {
      assert costs[..1] == [costs[0]] && Removed(costs, 0) == [costs[1]];
      JoinIsCommutative(parallel, costs[0], costs[1]);
    } else {
      AnyoneLast(costs[..n], parallel, k);
      var rest := Combined(Removed(costs[..n], k), parallel);
      JoinIsAssociative(parallel, rest, costs[k], costs[n]);
      JoinIsCommutative(parallel, costs[k], costs[n]);
      JoinIsAssociative(parallel, rest, costs[n], costs[k]);
      assert Removed(costs, k)[..n - 1] == Removed(costs[..n], k);
      assert Removed(costs, k)[n - 1] == costs[n];
    }
  }

  lemma RemovedMultiset<T>(s: seq<T>, k: nat)
    requires k < |s|
    ensures multiset(Removed(s, k)) == multiset(s) - multiset{s[k]}
  {
    assert s == s[..k] + ([s[k]] + s[k + 1..]);
  }

  /** The last of `a` taken from each of two permutations leaves permutations. */
  lemma TakeLastFromBoth<T>(a: seq<T>, b: seq<T>) returns (k: nat)
    requires multiset(a) == multiset(b) && a != []
    ensures |a| == |b| && k < |b| && b[k] == a[|a| - 1]
    ensures multiset(a[..|a| - 1]) == multiset(Removed(b, k))
  {
    var n := |a| - 1;
    assert |a| == |multiset(a)| == |multiset(b)| == |b|;
    assert a[n] in multiset(b);
    k :| 0 <= k < |b| && b[k] == a[n];
    RemovedMultiset(b, k);
    RemovedMultiset(a, n);
    assert Removed(a, n) == a[..n];
  }

  /** Combining does not depend on the order of the estimates. */
  lemma {:induction false} CombineIgnoresOrder(a: seq<Cost>, b: seq<Cost>, parallel: bool)
    requires multiset(a) == multiset(b)
    ensures Combined(a, parallel) == Combined(b, parallel)
    decreases |a|
  {
    hide Join;
    if a == [] {
      assert |b| == |multiset(b)| == |multiset(a)| == 0;
    } else {
      var k := TakeLastFromBoth(a, b);
      if |a| > 1 {
        AnyoneLast(b, parallel, k);
        CombineIgnoresOrder(a[..|a| - 1], Removed(b, k), parallel);
      }
    }
  }

  // ---- Time against its parts ------------------------------------------------------------

  predicate Split(c: Cost) {
    c.io + c.cpu == c.time && c.io >= 0.0 && c.cpu >= 0.0
  }

  /** Working in parallel, the clock may run slower than the work. */
  predicate Covered(c: Cost) {
    c.io + c.cpu >= c.time >= 0.0 && c.io >= 0.0 && c.cpu >= 0.0
  }

  lemma TimesKeepsSign(a: real, b: real)
    requires a >= 0.0 && b >= 0.0
    ensures a * b >= 0.0
  {
  }

  lemma {:induction false} ConditionsKeepSign(d: Draft, cs: seq<Condition>)
    requires d.time >= 0.0 && d.proof >= 0.0
    ensures NarrowedBy(d, cs).time >= 0.0 && NarrowedBy(d, cs).proof >= 0.0
  {
    if cs != [] {
      ConditionsKeepSign(d, cs[..|cs| - 1]);
    }
  }

  lemma BlendKeepsSign(x: real, y: real, w: real)
    requires x >= 0.0 && y >= 0.0 && 0.0 <= w <= 1.0
    ensures Blend(x, y, w) >= 0.0
  {
    TimesKeepsSign(x, 1.0 - w);
    TimesKeepsSign(y, w);
  }

  lemma LimitedKeepsSign(node: Node, d: Draft)
    requires d.time >= 0.0
    ensures Limited(node, d).time >= 0.0
  {
    if node.earlyLimit.Some? {
      TimesKeepsSign(d.time, 0.5 + 0.5 * MinReal(node.earlyLimit.value as real / 1000.0, 1.0));
    }
  }

  lemma FinishedSplits(cfg: Config, node: Node, d: Draft)
    requires d.time >= 0.0 && d.proof >= 0.0
    ensures Split(Finished(cfg, node, d))
  {
    hide Scaled, Truncate;
  }

  /** A node's time is exactly its input and output plus its processor time. */
  lemma NodeCostSplits(cfg: Config, node: Node)
    requires Sensible(cfg)
    ensures Split(NodeCost(cfg, node))
  {
    hide Blend, Limited, Finished, Narrowed;
    var started := Started(cfg, node);
    if node.modality in cfg.stats {
      BlendKeepsSign(started.time, cfg.stats[node.modality].avgLatency, cfg.weight);
    }
    var limited := Limited(node, Informed(cfg, node, started));
    LimitedKeepsSign(node, Informed(cfg, node, started));
    LimitKeepsProof(node, Informed(cfg, node, started));
    ConditionsKeepSign(limited, node.conditions);
    FinishedSplits(cfg, node, NarrowedBy(limited, node.conditions));
  }

  lemma LimitKeepsProof(node: Node, d: Draft)
    ensures Limited(node, d).proof == d.proof
  {
  }

  lemma {:induction false} CombinedSplits(costs: seq<Cost>, parallel: bool)
    requires forall i :: 0 <= i < |costs| ==> Split(costs[i])
    ensures Covered(Combined(costs, parallel))
    ensures !parallel ==> Split(Combined(costs, parallel))
  {
    if |costs| > 1 {
      CombinedSplits(costs[..|costs| - 1], parallel);
    }
  }

  lemma PostTimeKeepsSign(cfg: Config, post: Post, rows: nat)
    ensures PostTime(cfg, post, rows) >= 0.0
  {
    var n := MaxNat(rows, 1) as real;
    match post {
      case OrderBy(fields) =>
        TimesKeepsSign(n, MaxReal(cfg.log2(MaxNat(rows, 1)), 1.0));
        TimesKeepsSign(n * MaxReal(cfg.log2(MaxNat(rows, 1)), 1.0) * 0.001, |fields| as real);
      case GroupBy(fields, aggregates) =>
        TimesKeepsSign(n * 0.002, |fields| as real);
        TimesKeepsSign(n * 0.001, MaxNat(|aggregates|, 1) as real);
      case Project(columns) => TimesKeepsSign(n * 0.0001, |columns| as real);
      case Limit(_) =>
    }
  }

  lemma {:induction false} PostKeepsSplit(cfg: Config, cost: Cost, posts: seq<Post>)
    requires Covered(cost)
    ensures Covered(WithPost(cfg, cost, posts)) && (Split(cost) ==> Split(WithPost(cfg, cost, posts)))
    ensures WithPost(cfg, cost, posts).time >= cost.time
  {
    if posts != [] {
      var n := |posts| - 1;
      PostKeepsSplit(cfg, cost, posts[..n]);
      PostTimeKeepsSign(cfg, posts[n], WithPost(cfg, cost, posts[..n]).rows);
    }
  }
}
