/** What the estimates come to, read off the plan without running through the estimator's stages. */
module PlanCostLaws {
  import opened PlanCosts

  // ---- A node without conditions ---------------------------------------------------------

  /** Milliseconds and thousandths of the rows that a node is taken to need in the balanced mode. */
  function PlainTime(m: Modality): int {
    match m
    case Temporal => 30
    case Vector => 50
    case Document => 80
    case Graph => 150
    case Tensor => 200
    case Semantic => 300
  }

  function PlainShare(m: Modality): int {
    match m
    case Vector => 10
    case Document => 50
    case Temporal => 100
    case Graph => 200
    case Tensor => 500
    case Semantic => 800
  }

  /**
   * Nothing known and nothing asked: half as much again, as planned, or a fifth
   * less time, and twice, as many, or half the rows out of a thousand.
   */
  lemma PlainNodeCost(cfg: Config, node: Node)
    requires node.modality !in cfg.stats && node.earlyLimit.None? && node.conditions == []
    ensures var (c, t, s) := (NodeCost(cfg, node), PlainTime(node.modality), PlainShare(node.modality));
      match ModeFor(cfg, node.modality)
      case Conservative => 2.0 * c.time == 3.0 * t as real && c.rows == (if s > 500 then 1000 else 2 * s)
      case Balanced => c.time == t as real && c.rows == s
      case Aggressive => 5.0 * c.time == 4.0 * t as real && c.rows == s / 2
  {
  }

  // ---- Statistics and limits ---------------------------------------------------------------

  /** Statistics draw both values towards what was measured, by the weight; those of no query count for nothing. */
  lemma InformedExactly(cfg: Config, node: Node, d: Draft)
    ensures var d' := Informed(cfg, node, d);
      if node.modality in cfg.stats && cfg.stats[node.modality].queryCount > 0 then
        var s := cfg.stats[node.modality];
        && d'.time - d.time == cfg.weight * (s.avgLatency - d.time)
        && (s.totalRows > 0 ==> d'.selectivity - d.selectivity == cfg.weight * (s.avgRows as real / s.totalRows as real - d.selectivity))
        && (s.totalRows == 0 ==> d'.selectivity == d.selectivity)
        && d'.proof == d.proof
      else d' == d
  {
    if node.modality in cfg.stats && cfg.stats[node.modality].queryCount > 0 {
      var s := cfg.stats[node.modality];
      BlendDraws(d.time, s.avgLatency, cfg.weight);
      if s.totalRows > 0 {
        BlendDraws(d.selectivity, s.avgRows as real / s.totalRows as real, cfg.weight);
      }
    }
  }

  lemma BlendDraws(x: real, y: real, w: real)
    ensures Blend(x, y, w) - x == w * (y - x)
  {
  }

  /** An early limit of a thousand or more changes nothing; below, rows go in proportion and time half way with them. */
  lemma LimitedExactly(node: Node, d: Draft)
    ensures var d' := Limited(node, d);
      match node.earlyLimit
      case None => d' == d
      case Some(n) =>
        if n >= 1000 then d' == d
        else 1000.0 * d'.selectivity == n as real * d.selectivity && 2000.0 * d'.time == (1000 + n) as real * d.time && d'.proof == d.proof
  {
    if node.earlyLimit.Some? {
      var n := node.earlyLimit.value;
      if n >= 1000 {
        assert MinReal(n as real / 1000.0, 1.0) == 1.0;
      } else {
        var f := n as real / 1000.0;
        assert MinReal(f, 1.0) == f;
        LimitTimes(d.selectivity, d.time, n, f);
      }
    }
  }

  lemma LimitTimes(selectivity: real, time: real, n: nat, f: real)
    requires f == n as real / 1000.0
    ensures 1000.0 * (selectivity * f) == n as real * selectivity
    ensures 2000.0 * (time * (0.5 + 0.5 * f)) == (1000 + n) as real * time
  {
    assert 1000.0 * f == n as real;
    assert 1000.0 * (selectivity * f) == selectivity * (1000.0 * f);
    assert 2000.0 * (time * (0.5 + 0.5 * f)) == time * (1000.0 + 1000.0 * f);
  }

  // ---- Conditions --------------------------------------------------------------------------

  function Power(x: real, n: nat): real {
    if n == 0 then 1.0 else Power(x, n - 1) * x
  }

  function Equalities(cs: seq<Condition>): nat {
    if cs == [] then 0 else Equalities(cs[..|cs| - 1]) + if cs[|cs| - 1].Equality? then 1 else 0
  }

  function Ranges(cs: seq<Condition>): nat {
    if cs == [] then 0 else Ranges(cs[..|cs| - 1]) + if cs[|cs| - 1].Range? then 1 else 0
  }

  function Searches(cs: seq<Condition>): nat {
    if cs == [] then 0 else Searches(cs[..|cs| - 1]) + if cs[|cs| - 1].Fulltext? then 1 else 0
  }

  /** The time of a proof by the first type whose name the contract contains, in lower case. */
  function ProofMillis(contract: string): int {
    var text := Lower(contract);
    if Contains(text, "existence") then 1
    else if Contains(text, "citation") then 5
    else if Contains(text, "access") then 15
    else if Contains(text, "integrity") then 60
    else if Contains(text, "provenance") then 30
    else 300
  }

  lemma ProofTimeExactly(contract: string)
    ensures ProofTime(ProofType(contract)) == ProofMillis(contract) as real
  {
    hide Lower, Contains;
    var text := Lower(contract);
    var k := FirstKnown(text, 0);
    assert KNOWN_PROOFS[0] == "existence" && KNOWN_PROOFS[1] == "citation" && KNOWN_PROOFS[2] == "access";
    assert KNOWN_PROOFS[3] == "integrity" && KNOWN_PROOFS[4] == "provenance" && KNOWN_PROOFS[5] == "zkp";
    ProofTimes();
  }

  lemma ProofTimes()
    ensures ProofTime("existence") == 1.0 && ProofTime("citation") == 5.0 && ProofTime("access") == 15.0
    ensures ProofTime("integrity") == 60.0 && ProofTime("provenance") == 30.0 && ProofTime("zkp") == 300.0 && ProofTime("custom") == 300.0
  {
    assert "existence"[0] == 'e' && "citation"[0] == 'c' && "access"[0] == 'a' && "integrity"[0] == 'i' && "provenance"[0] == 'p';
    assert "zkp"[0] == 'z' && "custom"[1] == 'u' && "citation"[1] == 'i';
  }

  function ProofSum(cs: seq<Condition>): int {
    if cs == [] then 0
    else
      var c := cs[|cs| - 1];
      ProofSum(cs[..|cs| - 1]) + if c.ProofVerification? then ProofMillis(c.contract) else 0
  }

  function Slowing(c: Condition): real {
    if c.Equality? then 0.7 else if c.Range? then 0.8 else if c.Fulltext? then 0.6 else 1.0
  }

  /** Seven tenths of the time for each equality, eight for each range, six for each text search. */
  function TimeFactor(cs: seq<Condition>): real {
    Power(0.7, Equalities(cs)) * Power(0.8, Ranges(cs)) * Power(0.6, Searches(cs))
  }

  lemma OneMoreFactor(e: real, r: real, f: real, x: real)
    ensures (e * x) * r * f == e * r * f * x && e * (r * x) * f == e * r * f * x && e * r * (f * x) == e * r * f * x
  {
  }

  lemma TimeFactorGrows(cs: seq<Condition>, c: Condition)
    ensures TimeFactor(cs + [c]) == TimeFactor(cs) * Slowing(c)
  {
    assert (cs + [c])[..|cs|] == cs;
    OneMoreFactor(Power(0.7, Equalities(cs)), Power(0.8, Ranges(cs)), Power(0.6, Searches(cs)), Slowing(c));
  }

  lemma OneConditionTakesTime(d: Draft, c: Condition)
    ensures Narrowed(d, c).time == Scaled(d.time, Slowing(c))
    ensures Narrowed(d, c).proof == d.proof + if c.ProofVerification? then ProofMillis(c.contract) as real else 0.0
  {
    hide ProofTime, ProofType, MinReal, ProofMillis;
    if c.ProofVerification? {
      ProofTimeExactly(c.contract);
    }
  }

  lemma ScaledTwice(a: real, b: real, c: real, both: real)
    requires both == b * c
    ensures Scaled(Scaled(a, b), c) == Scaled(a, both)
  {
    TimesAssociates(a, b, c);
  }

  lemma ScaledByOne(a: real)
    ensures Scaled(a, 1.0) == a
  {
  }

  lemma NoTimeFactor()
    ensures TimeFactor([]) == 1.0
  {
  }

  lemma {:induction false} ConditionsSlow(d: Draft, cs: seq<Condition>)
    ensures var d' := NarrowedBy(d, cs); d'.time == Scaled(d.time, TimeFactor(cs)) && d'.proof == d.proof + ProofSum(cs) as real
  {
    hide TimeFactor, Narrowed, ProofMillis, Slowing, Scaled;
    if cs == [] {
      NoTimeFactor();
      ScaledByOne(d.time);
    } else {
      var n := |cs| - 1;
      ConditionsSlow(d, cs[..n]);
      assert cs == cs[..n] + [cs[n]];
      OneConditionTakesTime(NarrowedBy(d, cs[..n]), cs[n]);
      TimeFactorGrows(cs[..n], cs[n]);
      ScaledTwice(d.time, TimeFactor(cs[..n]), Slowing(cs[n]), TimeFactor(cs));
    }
  }

  /** Whatever their order, the conditions scale the time by their numbers and add the time of their proofs. */
  lemma ConditionsTakeTime(d: Draft, cs: seq<Condition>)
    ensures var d' := NarrowedBy(d, cs); d'.time == d.time * TimeFactor(cs) && d'.proof == d.proof + ProofSum(cs) as real
  {
    hide TimeFactor, NarrowedBy, ProofSum;
    ConditionsSlow(d, cs);
  }

  function Thinning(c: Condition): real {
    if c.Equality? then 0.1 else if c.Range? then 0.3 else 1.0
  }

  /** A tenth of the rows for each equality, three for each range. */
  function ShareFactor(cs: seq<Condition>): real {
    Power(0.1, Equalities(cs)) * Power(0.3, Ranges(cs))
  }

  lemma TimesSwap(a: real, b: real, c: real)
    ensures a * b * c == a * c * b
  {
  }

  lemma ShareFactorGrows(cs: seq<Condition>, c: Condition)
    ensures ShareFactor(cs + [c]) == ShareFactor(cs) * Thinning(c)
  {
    assert (cs + [c])[..|cs|] == cs;
    TimesSwap(Power(0.1, Equalities(cs)), Thinning(c), Power(0.3, Ranges(cs)));
  }

  lemma OneConditionSelects(d: Draft, c: Condition)
    ensures Narrowed(d, c).selectivity == if c.Similarity? then SearchShare(c.k) else Scaled(d.selectivity, Thinning(c))
  {
    hide ProofTime, ProofType;
  }

  /** A similarity search returns so many of ten thousand, or all of fewer. */
  function SearchShare(k: nat): real {
    if k >= 10000 then 1.0 else k as real / 10000.0
  }

  /** The selectivity the conditions start from: that of the last similarity search, which sets it anew, if there is one. */
  function StartShare(d: Draft, cs: seq<Condition>, i: nat): real
    requires i <= |cs| && (i > 0 ==> cs[i - 1].Similarity?)
  {
    if i == 0 then d.selectivity else SearchShare(cs[i - 1].k)
  }

  lemma NoShareFactor()
    ensures ShareFactor([]) == 1.0
  {
  }

  lemma {:induction false} ConditionsScale(d: Draft, cs: seq<Condition>, i: nat)
    requires i <= |cs| && forall j :: i <= j < |cs| ==> !cs[j].Similarity?
    requires i > 0 ==> cs[i - 1].Similarity?
    ensures NarrowedBy(d, cs).selectivity == Scaled(StartShare(d, cs, i), ShareFactor(cs[i..]))
    decreases |cs| - i
  {
    hide ShareFactor, Narrowed, Thinning, SearchShare, Scaled;
    NoShareFactor();
    ScaledByOne(StartShare(d, cs, i));
    if cs == [] {
      assert cs[i..] == [];
    } else {
      var n := |cs| - 1;
      OneConditionSelects(NarrowedBy(d, cs[..n]), cs[n]);
      if i == |cs| {
        assert cs[i..] == [];
      } else {
        ConditionsScale(d, cs[..n], i);
        assert StartShare(d, cs[..n], i) == StartShare(d, cs, i);
        assert cs[i..] == cs[..n][i..] + [cs[n]];
        ShareFactorGrows(cs[..n][i..], cs[n]);
        ScaledTwice(StartShare(d, cs, i), ShareFactor(cs[..n][i..]), Thinning(cs[n]), ShareFactor(cs[i..]));
      }
    }
  }

  /** From the last similarity search on, or from the start, the conditions thin out the rows by their numbers. */
  lemma ConditionsSelect(d: Draft, cs: seq<Condition>, i: nat)
    requires i <= |cs| && forall j :: i <= j < |cs| ==> !cs[j].Similarity?
    requires i > 0 ==> cs[i - 1].Similarity?
    ensures NarrowedBy(d, cs).selectivity == StartShare(d, cs, i) * ShareFactor(cs[i..])
  {
    hide ShareFactor, StartShare, NarrowedBy;
    ConditionsScale(d, cs, i);
  }

  // ---- The parts of an estimate --------------------------------------------------------------

  /** Rounded down, and one at least. */
  predicate RoundedDown(x: real, rows: nat) {
    if x < 1.0 then rows == 1 else rows as real <= x < rows as real + 1.0
  }

  lemma RoundsDown(x: real)
    ensures RoundedDown(x, Truncate(MaxReal(x, 1.0)))
  {
  }

  /** How many rows there are to select from: as counted, or a thousand. */
  function AllRows(cfg: Config, node: Node): real {
    if node.modality in cfg.stats then cfg.stats[node.modality].totalRows as real else 1000.0
  }

  /**
   * Six tenths of the time without proofs is input and output, the rest and the
   * proofs are processor time; the rows are the selected share of those there are.
   */
  lemma NodeCostParts(cfg: Config, node: Node)
    ensures var d := NarrowedBy(Limited(node, Informed(cfg, node, Started(cfg, node))), node.conditions);
      var c := NodeCost(cfg, node);
      && c.time == d.time + d.proof && 10.0 * c.io == 6.0 * d.time && 10.0 * c.cpu == 4.0 * d.time + 10.0 * d.proof
      && c.selectivity == d.selectivity && RoundedDown(AllRows(cfg, node) * d.selectivity, c.rows)
  {
    hide NarrowedBy, Limited, Informed, Started, RoundedDown, Truncate, MaxReal;
    var d := NarrowedBy(Limited(node, Informed(cfg, node, Started(cfg, node))), node.conditions);
    RoundsDown(Scaled(AllRows(cfg, node), d.selectivity));
    PartsOf(cfg, node, d);
  }

  lemma PartsOf(cfg: Config, node: Node, d: Draft)
    ensures var c := Finished(cfg, node, d);
      && c.time == d.time + d.proof && 10.0 * c.io == 6.0 * d.time && 10.0 * c.cpu == 4.0 * d.time + 10.0 * d.proof
      && c.selectivity == d.selectivity && c.rows == Truncate(MaxReal(Scaled(AllRows(cfg, node), d.selectivity), 1.0))
  {
    hide Scaled, Truncate, MaxReal;
  }

  // ---- Combining -------------------------------------------------------------------------------

  datatype Sums = Sums(time: real, io: real, cpu: real)

  function SumsOf(costs: seq<Cost>): Sums {
    if costs == [] then Sums(0.0, 0.0, 0.0)
    else
      var c, rest := costs[0], SumsOf(costs[1..]);
      Sums(c.time + rest.time, c.io + rest.io, c.cpu + rest.cpu)
  }

  function Product(costs: seq<Cost>): real {
    if costs == [] then 1.0 else costs[0].selectivity * Product(costs[1..])
  }

  lemma {:induction false} SumsLast(costs: seq<Cost>)
    requires costs != []
    ensures var (before, c) := (SumsOf(costs[..|costs| - 1]), costs[|costs| - 1]);
      SumsOf(costs) == Sums(before.time + c.time, before.io + c.io, before.cpu + c.cpu)
  {
    if |costs| > 1 {
      assert costs[1..][..|costs| - 2] == costs[..|costs| - 1][1..];
      SumsLast(costs[1..]);
    }
  }

  lemma {:induction false} ProductLast(costs: seq<Cost>)
    requires costs != []
    ensures Product(costs) == Product(costs[..|costs| - 1]) * costs[|costs| - 1].selectivity
  {
    if |costs| > 1 {
      var n := |costs| - 1;
      assert costs[1..][..n - 1] == costs[..n][1..];
      ProductLast(costs[1..]);
      TimesAssociates(costs[0].selectivity, Product(costs[..n][1..]), costs[n].selectivity);
    }
  }

  /** The value belongs to one of the estimates, and no other has a greater one. */
  predicate GreatestRows(costs: seq<Cost>, rows: nat) {
    (exists k :: 0 <= k < |costs| && costs[k].rows == rows) && forall k :: 0 <= k < |costs| ==> costs[k].rows <= rows
  }

  predicate GreatestTime(costs: seq<Cost>, time: real) {
    (exists k :: 0 <= k < |costs| && costs[k].time == time) && forall k :: 0 <= k < |costs| ==> costs[k].time <= time
  }

  lemma GreaterRows(front: seq<Cost>, c: Cost, rows: nat)
    requires GreatestRows(front, rows)
    ensures GreatestRows(front + [c], MaxNat(rows, c.rows))
  {
    var k :| 0 <= k < |front| && front[k].rows == rows;
    assert (front + [c])[k] == front[k] && (front + [c])[|front|] == c;
  }

  lemma GreaterTime(front: seq<Cost>, c: Cost, time: real)
    requires GreatestTime(front, time)
    ensures GreatestTime(front + [c], MaxReal(time, c.time))
  {
    var k :| 0 <= k < |front| && front[k].time == time;
    assert (front + [c])[k] == front[k] && (front + [c])[|front|] == c;
  }

  lemma {:induction false} CombinedTakesGreatest(costs: seq<Cost>, parallel: bool)
    requires costs != []
    ensures GreatestRows(costs, Combined(costs, parallel).rows)
    ensures parallel ==> GreatestTime(costs, Combined(costs, parallel).time)
  {
    hide GreatestRows, GreatestTime;
    var n := |costs| - 1;
    if n == 0 {
      OneIsGreatest(costs);
    } else {
      CombinedTakesGreatest(costs[..n], parallel);
      assert costs == costs[..n] + [costs[n]];
      GreaterRows(costs[..n], costs[n], Combined(costs[..n], parallel).rows);
      if parallel {
        GreaterTime(costs[..n], costs[n], Combined(costs[..n], parallel).time);
      }
    }
  }

  lemma OneIsGreatest(costs: seq<Cost>)
    requires |costs| == 1
    ensures GreatestRows(costs, costs[0].rows) && GreatestTime(costs, costs[0].time)
  {
  }

  /**
   * Several estimates together: the work and, in sequence, the time add up; in
   * parallel the time is that of the slowest; the rows are those of the largest
   * result, and the shares multiply.
   */
  lemma {:induction false} CombinedExactly(costs: seq<Cost>, parallel: bool)
    requires costs != []
    ensures var c := Combined(costs, parallel);
      && c.io == SumsOf(costs).io && c.cpu == SumsOf(costs).cpu && c.selectivity == Product(costs)
      && (if parallel then GreatestTime(costs, c.time) else c.time == SumsOf(costs).time)
      && GreatestRows(costs, c.rows)
  {
    hide GreatestRows, GreatestTime;
    var n := |costs| - 1;
    SumsLast(costs);
    ProductLast(costs);
    CombinedTakesGreatest(costs, parallel);
    if n == 0 {
      assert costs[..0] == [];
    } else {
      CombinedExactly(costs[..n], parallel);
    }
  }

  // ---- After the modality queries ----------------------------------------------------------

  /** The rows an operation leaves: no more than a limit, one group for ten rows, all of them otherwise. */
  predicate Leaves(post: Post, rows: nat, left: nat) {
    match post
    case Limit(count) => left <= rows && left <= count && (left == rows || left == count)
    case GroupBy(_, _) => if rows < 20 then left == 1 else 10 * left <= rows < 10 * left + 10
    case OrderBy(_) => left == rows
    case Project(_) => left == rows
  }

  /** The time an operation takes on some rows, in tenths of microseconds. */
  function Ticks(cfg: Config, post: Post, rows: nat): real {
    var n := if rows == 0 then 1 else rows;
    match post
    case OrderBy(keys) => 10.0 * (n * |keys|) as real * if cfg.log2(n) < 1.0 then 1.0 else cfg.log2(n)
    case Limit(_) => 1000.0
    case GroupBy(fields, aggregates) => (n * (20 * |fields| + (if aggregates == [] then 10 else 10 * |aggregates|))) as real
    case Project(columns) => (n * |columns|) as real
  }

  lemma PostRowsExactly(post: Post, rows: nat, left: nat)
    ensures left == PostRows(post, rows) <==> Leaves(post, rows, left)
  {
    if post.GroupBy? && rows >= 20 {
      var tenth := rows as real / 10.0;
      assert MaxReal(tenth, 1.0) == tenth;
      assert tenth.Floor as real <= tenth < tenth.Floor as real + 1.0;
    }
  }

  lemma IntTimes(a: nat, b: nat)
    ensures (a * b) as real == a as real * b as real
  {
  }

  lemma SortTime(cfg: Config, keys: seq<(string, bool)>, rows: nat)
    ensures 10000.0 * PostTime(cfg, OrderBy(keys), rows) == Ticks(cfg, OrderBy(keys), rows)
  {
    var n := MaxNat(rows, 1);
    IntTimes(n, |keys|);
    SortTicks(n as real, MaxReal(cfg.log2(n), 1.0), |keys| as real);
  }

  lemma SortTicks(n: real, l: real, k: real)
    ensures 10000.0 * (n * l * 0.001 * k) == 10.0 * (n * k) * l
  {
    TimesAssociates(n, l, k);
    TimesAssociates(n, k, l);
    TimesAssociates(l, k, 1.0);
    assert n * l * 0.001 * k == 0.001 * (n * l * k);
  }

  lemma GroupTime(cfg: Config, fields: seq<string>, aggregates: seq<string>, rows: nat)
    ensures 10000.0 * PostTime(cfg, GroupBy(fields, aggregates), rows) == Ticks(cfg, GroupBy(fields, aggregates), rows)
  {
    GroupTicks(MaxNat(rows, 1), |fields|, MaxNat(|aggregates|, 1));
  }

  lemma GroupTicks(n: nat, f: nat, a: nat)
    ensures 10000.0 * (n as real * 0.002 * f as real + n as real * 0.001 * a as real) == (n * (20 * f + 10 * a)) as real
  {
    IntTimes(n, 20 * f + 10 * a);
    assert n as real * (20 * f + 10 * a) as real == n as real * (20.0 * f as real + 10.0 * a as real);
    assert n as real * 0.002 * f as real == 0.002 * (n as real * f as real);
    assert n as real * 0.001 * a as real == 0.001 * (n as real * a as real);
  }

  lemma ProjectTime(cfg: Config, columns: seq<string>, rows: nat)
    ensures 10000.0 * PostTime(cfg, Project(columns), rows) == Ticks(cfg, Project(columns), rows)
  {
    IntTimes(MaxNat(rows, 1), |columns|);
  }

  lemma PostTimeExactly(cfg: Config, post: Post, rows: nat)
    ensures 10000.0 * PostTime(cfg, post, rows) == Ticks(cfg, post, rows)
  {
    match post {
      case OrderBy(keys) => SortTime(cfg, keys, rows);
      case GroupBy(fields, aggregates) => GroupTime(cfg, fields, aggregates, rows);
      case Project(columns) => ProjectTime(cfg, columns, rows);
      case Limit(_) =>
    }
  }

  function TickSum(cfg: Config, posts: seq<Post>, rows: seq<nat>): real
    requires |rows| == |posts| + 1
    decreases |posts|
  {
    if posts == [] then 0.0
    else TickSum(cfg, posts[..|posts| - 1], rows[..|posts|]) + Ticks(cfg, posts[|posts| - 1], rows[|posts| - 1])
  }

  /** From row count to row count through the operations. */
  ghost predicate Passes(posts: seq<Post>, rows: seq<nat>, first: nat) {
    && |rows| == |posts| + 1 && rows[0] == first
    && forall i :: 0 <= i < |posts| ==> Leaves(posts[i], rows[i], rows[i + 1])
  }

  /**
   * The operations behind the queries: each works on the rows the ones before
   * it left, and its time is added to the total and to the processor time.
   */
  lemma {:induction false} PostExactly(cfg: Config, cost: Cost, posts: seq<Post>) returns (rows: seq<nat>)
    ensures Passes(posts, rows, cost.rows)
    ensures var c := WithPost(cfg, cost, posts);
      && c.rows == rows[|posts|] && c.selectivity == cost.selectivity && c.io == cost.io
      && 10000.0 * (c.time - cost.time) == TickSum(cfg, posts, rows) && 10000.0 * (c.cpu - cost.cpu) == TickSum(cfg, posts, rows)
  {
    hide PostTime, Ticks, PostRows, Leaves;
    if posts == [] {
      rows := [cost.rows];
    } else {
      var n := |posts| - 1;
      var before := PostExactly(cfg, cost, posts[..n]);
      var left := PostRows(posts[n], before[n]);
      PostRowsExactly(posts[n], before[n], left);
      PostTimeExactly(cfg, posts[n], before[n]);
      rows := before + [left];
      assert rows[..n + 1] == before;
      forall i | 0 <= i < |posts| ensures Leaves(posts[i], rows[i], rows[i + 1]) {
        assert i < n ==> Leaves(posts[..n][i], before[i], before[i + 1]);
      }
    }
  }
}
