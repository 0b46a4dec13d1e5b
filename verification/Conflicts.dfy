/** The conflict resolver: policy choice, the lifecycle of a conflict, and the bounded history. */
module Conflicts {
  import opened Wrappers

  type Id = string

  datatype Modality = Document | Semantic | Graph | Vector | Tensor | Temporal | Provenance | Spatial

  datatype Policy =
    | LastWriterWins
    | ModalityPriority(order: seq<Modality>)
    | ManualResolve
    | AutoMerge
    | Custom(name: string)

  datatype Status = Open | InProgress | Resolved | Dismissed

  datatype Resolution = Resolution(
    resolvedAt: int, policyUsed: Policy, winner: Option<Modality>, resolver: string, notes: Option<string>)

  datatype Conflict = Conflict(
    id: Id, entityId: string, detectedAt: int, modalities: seq<Modality>, drift: real, description: string,
    status: Status, resolution: Option<Resolution>)

  datatype Config = Config(
    defaultPolicy: Policy, perPair: map<(Modality, Modality), Policy>, requireManualAbove: real, maxHistory: nat)

  datatype PolicyFault = DriftTooHigh | NeedsManual | NeedsCallback(name: string)

  datatype ConflictError =
    | NotFound(id: Id)
    | AlreadyResolved(id: Id)
    | InvalidPolicy(fault: PolicyFault)
    | ModalityNotInConflict(m: Modality)

  // ---- Choosing a policy ---------------------------------------------------------------

  /** The override for a pair, in either orientation. */
  function Override(cfg: Config, a: Modality, b: Modality): Option<Policy> {
    if (a, b) in cfg.perPair then Some(cfg.perPair[(a, b)]) else Lookup(cfg.perPair, (b, a))
  }

  /** The choice from pair `(i, j)` on, pairs taken row by row. */
  function SelectFrom(cfg: Config, ms: seq<Modality>, i: nat, j: nat): Policy
    requires i < j
    decreases |ms| - i, |ms| - j
  {
    if i >= |ms| then cfg.defaultPolicy
    else if j >= |ms| then SelectFrom(cfg, ms, i + 1, i + 2)
    else if Override(cfg, ms[i], ms[j]).Some? then Override(cfg, ms[i], ms[j]).value
    else SelectFrom(cfg, ms, i, j + 1)
  }

  /** Pair `(i, j)` is not after pair `(k, l)`. */
  predicate PairBefore(i: int, j: int, k: int, l: int) {
    i < k || (i == k && j < l)
  }

  predicate NoOverride(cfg: Config, ms: seq<Modality>, i: int, j: int)
    requires 0 <= i < |ms| && 0 <= j < |ms|
  {
    (ms[i], ms[j]) !in cfg.perPair && (ms[j], ms[i]) !in cfg.perPair
  }

  /** `(i, j)` is the first pair with an override, and `p` is it: the one in the pair's own order before that in the other. */
  ghost predicate FirstOverride(cfg: Config, ms: seq<Modality>, i: int, j: int, p: Policy) {
    && 0 <= i < j < |ms|
    && (((ms[i], ms[j]) in cfg.perPair && p == cfg.perPair[(ms[i], ms[j])])
        || ((ms[i], ms[j]) !in cfg.perPair && (ms[j], ms[i]) in cfg.perPair && p == cfg.perPair[(ms[j], ms[i])]))
    && forall k, l :: 0 <= k < l < |ms| && PairBefore(k, l, i, j) ==> NoOverride(cfg, ms, k, l)
  }

  ghost predicate NoOverrides(cfg: Config, ms: seq<Modality>) {
    forall k, l :: 0 <= k < l < |ms| ==> NoOverride(cfg, ms, k, l)
  }

  /** The first overridden pair decides, and the default only when no pair is overridden. */
  ghost predicate Decides(cfg: Config, ms: seq<Modality>, p: Policy) {
    if NoOverrides(cfg, ms) then p == cfg.defaultPolicy else exists i, j :: FirstOverride(cfg, ms, i, j, p)
  }

  lemma {:induction false} SelectFromIsFirst(cfg: Config, ms: seq<Modality>, i: nat, j: nat)
    requires i < j
    requires forall k, l :: 0 <= k < l < |ms| && PairBefore(k, l, i, j) ==> NoOverride(cfg, ms, k, l)
    ensures Decides(cfg, ms, SelectFrom(cfg, ms, i, j))
    decreases |ms| - i, |ms| - j
  {
    if i < |ms| {
      if j >= |ms| {
        SelectFromIsFirst(cfg, ms, i + 1, i + 2);
      } else if Override(cfg, ms[i], ms[j]).Some? {
        assert FirstOverride(cfg, ms, i, j, SelectFrom(cfg, ms, i, j));
        assert !NoOverride(cfg, ms, i, j);
      } else {
        SelectFromIsFirst(cfg, ms, i, j + 1);
      }
    }
  }

  function Selected(cfg: Config, ms: seq<Modality>): Policy {
    SelectFrom(cfg, ms, 0, 1)
  }

  /** There is one such policy. */
  lemma SelectedExactly(cfg: Config, ms: seq<Modality>, p: Policy)
    ensures p == Selected(cfg, ms) <==> Decides(cfg, ms, p)
  {
    SelectFromIsFirst(cfg, ms, 0, 1);
    forall i, j, q | FirstOverride(cfg, ms, i, j, q) ensures !NoOverrides(cfg, ms) && q == Selected(cfg, ms) {
      assert !NoOverride(cfg, ms, i, j);
      var k, l :| FirstOverride(cfg, ms, k, l, Selected(cfg, ms));
      FirstIsUnique(cfg, ms, i, j, q, k, l, Selected(cfg, ms));
    }
  }

  lemma FirstIsUnique(cfg: Config, ms: seq<Modality>, i: int, j: int, q: Policy, k: int, l: int, r: Policy)
    requires FirstOverride(cfg, ms, i, j, q) && FirstOverride(cfg, ms, k, l, r)
    ensures q == r
  {
    assert !PairBefore(i, j, k, l) && !PairBefore(k, l, i, j);
  }

  // ---- Choosing a winner ----------------------------------------------------------------

  /** The first place of `m` in `order`. */
  function Rank(order: seq<Modality>, m: Modality): (r: Option<nat>)
    ensures r.None? <==> m !in order
    ensures r.Some? ==> r.value < |order| && order[r.value] == m && m !in order[..r.value]
  {
    if order == [] then None
    else if order[0] == m then Some(0)
    else
      var rest := Rank(order[1..], m);
      if rest.Some? then Some(rest.value + 1) else None
  }

  function Better(order: seq<Modality>, best: Option<Modality>, m: Modality): Option<Modality> {
    if Rank(order, m).None? then best
    else if best.None? || Rank(order, best.value).None? || Rank(order, m).value < Rank(order, best.value).value then Some(m)
    else best
  }

  function BestRanked(order: seq<Modality>, ms: seq<Modality>): Option<Modality> {
    if ms == [] then None else Better(order, BestRanked(order, ms[..|ms| - 1]), ms[|ms| - 1])
  }

  function Winner(policy: Policy, ms: seq<Modality>): Option<Modality> {
    match policy
    case LastWriterWins => if ms == [] then None else Some(ms[|ms| - 1])
    case ModalityPriority(order) =>
      if BestRanked(order, ms).Some? then BestRanked(order, ms) else if ms == [] then None else Some(ms[0])
    case _ => None
  }

  /** `w` is in conflict and no other modality in conflict ranks above it. */
  ghost predicate LeastRanked(order: seq<Modality>, ms: seq<Modality>, w: Modality) {
    && w in ms && w in order
    && forall m :: m in ms && m in order ==> Rank(order, w).value <= Rank(order, m).value
  }

  lemma {:induction false} BestRankedIsLeast(order: seq<Modality>, ms: seq<Modality>)
    ensures BestRanked(order, ms).None? <==> forall m :: m in ms ==> m !in order
    ensures BestRanked(order, ms).Some? ==> LeastRanked(order, ms, BestRanked(order, ms).value)
  {
    if ms != [] {
      var n := |ms| - 1;
      BestRankedIsLeast(order, ms[..n]);
      assert ms == ms[..n] + [ms[n]];
    }
  }

  /** The only modality a ranking can choose: the least ranked one, or the first when none is ranked. */
  lemma PriorityWinnerExactly(order: seq<Modality>, ms: seq<Modality>, w: Modality)
    ensures Winner(ModalityPriority(order), ms) == Some(w) <==>
      LeastRanked(order, ms, w) || (ms != [] && w == ms[0] && forall m :: m in ms ==> m !in order)
  {
    BestRankedIsLeast(order, ms);
    if LeastRanked(order, ms, w) && BestRanked(order, ms).Some? {
      var b := BestRanked(order, ms).value;
      assert Rank(order, b).value == Rank(order, w).value;
    }
  }

  /**
   * The modality a policy decides for: the one listed last, the least ranked or
   * else the one listed first, or none when the policy names no single one.
   */
  ghost predicate RightWinner(policy: Policy, ms: seq<Modality>, w: Option<Modality>) {
    match policy
    case LastWriterWins => if w.None? then ms == [] else exists earlier :: ms == earlier + [w.value]
    case ModalityPriority(order) =>
      if w.None? then ms == []
      else LeastRanked(order, ms, w.value) || ((exists later :: ms == [w.value] + later) && forall m :: m in ms ==> m !in order)
    case _ => w.None?
  }

  lemma WinnerExactly(policy: Policy, ms: seq<Modality>, w: Option<Modality>)
    ensures w == Winner(policy, ms) <==> RightWinner(policy, ms, w)
  {
    match policy {
      case LastWriterWins =>
        if ms != [] {
          assert ms == ms[..|ms| - 1] + [ms[|ms| - 1]];
        }
      case ModalityPriority(order) =>
        BestRankedIsLeast(order, ms);
        if w.Some? {
          PriorityWinnerExactly(order, ms, w.value);
        }
        if ms != [] {
          assert ms == [ms[0]] + ms[1..];
        }
      case _ =>
    }
  }

  lemma WinnerIsInConflict(policy: Policy, ms: seq<Modality>)
    ensures Winner(policy, ms).Some? ==> Winner(policy, ms).value in ms
    ensures Winner(policy, ms).None? <==> ms == [] || policy.ManualResolve? || policy.AutoMerge? || policy.Custom?
  {
    if policy.ModalityPriority? {
      BestRankedIsLeast(policy.order, ms);
    }
  }

  // ---- What a request does to one conflict ---------------------------------------------

  datatype Request =
    | Resolve(policy: Option<Policy>)
    | ResolveManual(winner: Modality, resolver: string, notes: Option<string>)
    | Dismiss(reason: string)

  /** Refused as it is, escalated to a person, or closed. */
  datatype Verdict =
    | Refuse(error: ConflictError)
    | Escalate(fault: PolicyFault)
    | Close(status: Status, resolution: Resolution)

  predicate Terminal(c: Conflict) {
    c.status == Resolved || c.status == Dismissed
  }

  function AutoVerdict(c: Conflict, policy: Policy, now: int): Verdict {
    match policy
    case ManualResolve => Escalate(NeedsManual)
    case Custom(name) => Escalate(NeedsCallback(name))
    case _ => Close(Resolved, Resolution(now, policy, Winner(policy, c.modalities), "system", None))
  }

  function Judge(cfg: Config, c: Conflict, req: Request, now: int): Verdict {
    if Terminal(c) then Refuse(AlreadyResolved(c.id)) else
    match req
    case Resolve(policy) =>
      if c.drift >= cfg.requireManualAbove then Escalate(DriftTooHigh)
      else AutoVerdict(c, if policy.Some? then policy.value else Selected(cfg, c.modalities), now)
    case ResolveManual(winner, resolver, notes) =>
      if winner !in c.modalities then Refuse(ModalityNotInConflict(winner))
      else Close(Resolved, Resolution(now, ManualResolve, Some(winner), resolver, notes))
    case Dismiss(reason) =>
      Close(Dismissed, Resolution(now, LastWriterWins, None, "system", Some("Dismissed: " + reason)))
  }

  function Judged(c: Conflict, v: Verdict): Conflict {
    match v
    case Refuse(_) => c
    case Escalate(_) => c.(status := InProgress)
    case Close(status, resolution) => c.(status := status, resolution := Some(resolution))
  }

  /** The first active conflict with the id. */
  function Find(active: seq<Conflict>, id: Id): (r: Option<nat>)
    ensures r.None? <==> forall c :: c in active ==> c.id != id
    ensures r.Some? ==> r.value < |active| && active[r.value].id == id
    ensures r.Some? ==> forall k :: 0 <= k < r.value ==> active[k].id != id
  {
    if active == [] then None
    else if active[0].id == id then Some(0)
    else
      var rest := Find(active[1..], id);
      if rest.Some? then Some(rest.value + 1) else None
  }

  function Answer(cfg: Config, active: seq<Conflict>, id: Id, req: Request, now: int): Verdict {
    var i := Find(active, id);
    if i.None? then Refuse(NotFound(id)) else Judge(cfg, active[i.value], req, now)
  }

  /** The first phase: the conflict is marked where it stands. */
  function Marked(cfg: Config, active: seq<Conflict>, id: Id, req: Request, now: int): seq<Conflict> {
    var i := Find(active, id);
    if i.None? then active
    else active[i.value := Judged(active[i.value], Judge(cfg, active[i.value], req, now))]
  }

  /** The second phase: every conflict with the id leaves the active list. */
  function Without(active: seq<Conflict>, id: Id): seq<Conflict> {
    if active == [] then []
    else
      var n := |active| - 1;
      var rest := Without(active[..n], id);
      if active[n].id == id then rest else rest + [active[n]]
  }

  /** The newest entries, at most `max` of them. */
  function Newest<T>(all: seq<T>, max: nat): seq<T> {
    if |all| > max then all[|all| - max..] else all
  }

  /** The third phase: the conflict joins the history, and the oldest entries make room. */
  function Recorded(cfg: Config, history: seq<Conflict>, c: Conflict): seq<Conflict> {
    Newest(history + [c], cfg.maxHistory)
  }

  function NewConflict(id: Id, entityId: string, modalities: seq<Modality>, drift: real, description: string, now: int): Conflict {
    Conflict(id, entityId, now, modalities, drift, description, Open, None)
  }

  /** What a caller is told. */
  function Reply(v: Verdict): Result<Resolution, ConflictError> {
    match v
    case Refuse(e) => Err(e)
    case Escalate(fault) => Err(InvalidPolicy(fault))
    case Close(_, resolution) => Ok(resolution)
  }

  /** The policy a request for a resolution goes by: the one it names, or the one the configuration decides for. */
  ghost predicate GoesBy(cfg: Config, ms: seq<Modality>, named: Option<Policy>, p: Policy) {
    if named.Some? then p == named.value else Decides(cfg, ms, p)
  }

  /**
   * What a caller is told of an active conflict: a closed one is refused, a
   * high drift comes before any policy, a policy that needs someone is
   * escalated, and any other resolves it in favour of its right winner.
   */
  lemma ResolveAnswers(cfg: Config, c: Conflict, named: Option<Policy>, now: int, p: Policy, w: Option<Modality>)
    requires GoesBy(cfg, c.modalities, named, p) && RightWinner(p, c.modalities, w)
    ensures Reply(Judge(cfg, c, Request.Resolve(named), now)) ==
              if c.status in {Resolved, Dismissed} then Err(AlreadyResolved(c.id))
              else if c.drift >= cfg.requireManualAbove then Err(InvalidPolicy(DriftTooHigh))
              else if p == ManualResolve then Err(InvalidPolicy(NeedsManual))
              else if p.Custom? then Err(InvalidPolicy(NeedsCallback(p.name)))
              else Ok(Resolution(now, p, w, "system", None))
  {
    hide RightWinner, Decides, Winner;
    SelectedExactly(cfg, c.modalities, p);
    WinnerExactly(p, c.modalities, w);
  }

  /** The lists after all phases of a request in one go: only a closed conflict moves, and it moves whole. */
  function Settle(cfg: Config, active: seq<Conflict>, history: seq<Conflict>, id: Id, v: Verdict): (seq<Conflict>, seq<Conflict>) {
    var i := Find(active, id);
    if i.None? || v.Refuse? then (active, history)
    else
      var c := Judged(active[i.value], v);
      if v.Close? then (Without(active[i.value := c], id), Recorded(cfg, history, c))
      else (active[i.value := c], history)
  }

  class ConflictResolver {
    const cfg: Config
    var active: seq<Conflict>
    var history: seq<Conflict>

    constructor (cfg: Config)
      ensures this.cfg == cfg && active == [] && history == []
    {
      this.cfg := cfg;
      active, history := [], [];
    }

    /** `id` stands for a fresh random identifier. */
    method DetectConflict(id: Id, entityId: string, modalities: seq<Modality>, drift: real, description: string, now: int)
      returns (c: Conflict)
      modifies this`active
      ensures active == old(active) + [c] && c.id == id && c.status == Open && c.resolution == None
      ensures c.modalities == modalities && c.drift == drift && c.entityId == entityId
      ensures c.detectedAt == now && c.description == description
    {
      c := NewConflict(id, entityId, modalities, drift, description, now);
      active := active + [c];
    }

    method SelectPolicy(ms: seq<Modality>) returns (p: Policy)
      ensures Decides(cfg, ms, p)
    {
      for i := 0 to |ms|
        invariant forall k, l :: 0 <= k < l < |ms| && k < i ==> NoOverride(cfg, ms, k, l)
      {
        for j := i + 1 to |ms|
          invariant forall k, l :: 0 <= k < l < |ms| && PairBefore(k, l, i, j) ==> NoOverride(cfg, ms, k, l)
        {
          var found := Override(cfg, ms[i], ms[j]);
          if found.Some? {
            assert FirstOverride(cfg, ms, i, j, found.value);
            assert !NoOverride(cfg, ms, i, j);
            return found.value;
          }
        }
      }
      return cfg.defaultPolicy;
    }

    method ApplyPolicy(c: Conflict, policy: Policy, now: int) returns (r: Resolution)
      ensures r == Resolution(now, policy, Winner(policy, c.modalities), "system", None)
    {
      var ms := c.modalities;
      var winner: Option<Modality> := None;
      match policy {
        case LastWriterWins =>
          winner := if ms == [] then None else Some(ms[|ms| - 1]);
        case ModalityPriority(order) =>
          var best: Option<(nat, Modality)> := None;
          for k := 0 to |ms|
            invariant best.Some? <==> BestRanked(order, ms[..k]).Some?
            invariant best.Some? ==> BestRanked(order, ms[..k]) == Some(best.value.1)
            invariant best.Some? ==> Rank(order, best.value.1) == Some(best.value.0)
          {
            assert ms[..k + 1][..k] == ms[..k];
            var rank := Rank(order, ms[k]);
            if rank.Some? && (best.None? || rank.value < best.value.0) {
              best := Some((rank.value, ms[k]));
            }
          }
          assert ms[..|ms|] == ms;
          winner := if best.Some? then Some(best.value.1) else if ms == [] then None else Some(ms[0]);
        case _ =>
      }
      r := Resolution(now, policy, winner, "system", None);
    }

    method Resolve(id: Id, policy: Option<Policy>, now: int) returns (r: Result<Resolution, ConflictError>)
      modifies this
      ensures var v := Answer(cfg, old(active), id, Request.Resolve(policy), now);
        r == Reply(v) && (active, history) == Settle(cfg, old(active), old(history), id, v)
    {
      var found := Find(active, id);
      if found.None? {
        return Err(NotFound(id));
      }
      var i := found.value;
      var c := active[i];
      if c.status == Resolved || c.status == Dismissed {
        return Err(AlreadyResolved(id));
      }
      if c.drift >= cfg.requireManualAbove {
        active := active[i := c.(status := InProgress)];
        return Err(InvalidPolicy(DriftTooHigh));
      }
      var effective;
      if policy.Some? {
        effective := policy.value;
      } else {
        effective := SelectPolicy(c.modalities);
        SelectedExactly(cfg, c.modalities, effective);
      }
      match effective {
        case ManualResolve =>
          active := active[i := c.(status := InProgress)];
          return Err(InvalidPolicy(NeedsManual));
        case Custom(name) =>
          active := active[i := c.(status := InProgress)];
          return Err(InvalidPolicy(NeedsCallback(name)));
        case _ =>
      }
      var resolution := ApplyPolicy(c, effective, now);
      var closed := c.(status := Resolved, resolution := Some(resolution));
      active := active[i := closed];
      MoveToHistory(closed);
      return Ok(resolution);
    }

    method ResolveManual(id: Id, winner: Modality, resolver: string, notes: Option<string>, now: int)
      returns (r: Result<Resolution, ConflictError>)
      modifies this
      ensures var v := Answer(cfg, old(active), id, Request.ResolveManual(winner, resolver, notes), now);
        r == Reply(v) && (active, history) == Settle(cfg, old(active), old(history), id, v)
    {
      var found := Find(active, id);
      if found.None? {
        return Err(NotFound(id));
      }
      var i := found.value;
      var c := active[i];
      if c.status == Resolved || c.status == Dismissed {
        return Err(AlreadyResolved(id));
      }
      if winner !in c.modalities {
        return Err(ModalityNotInConflict(winner));
      }
      var resolution := Resolution(now, ManualResolve, Some(winner), resolver, notes);
      var closed := c.(status := Resolved, resolution := Some(resolution));
      active := active[i := closed];
      MoveToHistory(closed);
      return Ok(resolution);
    }

    method Dismiss(id: Id, reason: string, now: int) returns (r: Result<(), ConflictError>)
      modifies this
      ensures var v := Answer(cfg, old(active), id, Request.Dismiss(reason), now);
        && (r.Ok? <==> v.Close?) && (r.Err? ==> v == Refuse(r.error))
        && (active, history) == Settle(cfg, old(active), old(history), id, v)
    {
      var found := Find(active, id);
      if found.None? {
        return Err(NotFound(id));
      }
      var i := found.value;
      var c := active[i];
      if c.status == Resolved || c.status == Dismissed {
        return Err(AlreadyResolved(id));
      }
      var resolution := Resolution(now, LastWriterWins, None, "system", Some("Dismissed: " + reason));
      var closed := c.(status := Dismissed, resolution := Some(resolution));
      active := active[i := closed];
      MoveToHistory(closed);
      return Ok(());
    }

    method MoveToHistory(c: Conflict)
      modifies this
      ensures active == Without(old(active), c.id)
      ensures history == Recorded(cfg, old(history), c)
    {
      var kept: seq<Conflict> := [];
      for k := 0 to |active|
        invariant active == old(active) && kept == Without(active[..k], c.id)
      {
        assert active[..k + 1][..k] == active[..k];
        if active[k].id != c.id {
          kept := kept + [active[k]];
        }
      }
      assert active[..|active|] == active;
      active := kept;
      history := history + [c];
      if |history| > cfg.maxHistory {
        var excess := |history| - cfg.maxHistory;
        history := history[excess..];
      }
    }

    /** The newest entries first; a limit of zero asks for all. */
    method History(limit: nat) returns (r: seq<Conflict>)
      ensures |r| == if limit == 0 || limit >= |history| then |history| else limit
      ensures forall k :: 0 <= k < |r| ==> r[k] == history[|history| - 1 - k]
    {
      var wanted := if limit == 0 || limit >= |history| then history else history[|history| - limit..];
      r := [];
      for k := 0 to |wanted|
        invariant |r| == k && forall j :: 0 <= j < k ==> r[j] == wanted[|wanted| - 1 - j]
      {
        r := r + [wanted[|wanted| - 1 - k]];
      }
    }
  }
}
