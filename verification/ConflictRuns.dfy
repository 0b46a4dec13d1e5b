/**
 * Every interleaving of the resolver's critical sections. A request marks the
 * conflict under one lock; the caller that closed it then removes it from the
 * active list under a second, and records it in the history under a third.
 */
module ConflictRuns {
  import opened Wrappers
  import opened Conflicts

  /** What a caller carries between its phases: its copy, and whether the removal is done. */
  datatype Flight = Flight(conflict: Conflict, removed: bool)

  /** `detected` and `archived` record the run: every conflict as first reported, and all that was ever recorded, in order. */
  datatype Sys = Sys(
    detected: map<Id, Conflict>, active: seq<Conflict>, flights: map<nat, Flight>,
    history: seq<Conflict>, archived: seq<Conflict>)

  datatype Step =
    | Detect(id: Id, entityId: string, modalities: seq<Modality>, drift: real, description: string, now: int)
    | Mark(caller: nat, id: Id, req: Request, now: int)
    | Remove(caller: nat)
    | Record(caller: nat)

  const START := Sys(map[], [], map[], [], [])

  /** The conflict a request by an idle caller would close. */
  function Closed(cfg: Config, s: Sys, id: Id, req: Request, now: int): Option<Conflict> {
    var i := Find(s.active, id);
    if i.Some? && Judge(cfg, s.active[i.value], req, now).Close?
    then Some(Judged(s.active[i.value], Judge(cfg, s.active[i.value], req, now))) else None
  }

  /** One step; a step whose caller is elsewhere, or whose identifier is not fresh, does nothing. */
  function Do(cfg: Config, s: Sys, step: Step): Sys {
    match step
    case Detect(id, entityId, modalities, drift, description, now) =>
      if id in s.detected then s
      else
        var c := NewConflict(id, entityId, modalities, drift, description, now);
        s.(detected := s.detected[id := c], active := s.active + [c])
    case Mark(caller, id, req, now) =>
      if caller in s.flights then s
      else
        var closed := Closed(cfg, s, id, req, now);
        s.(active := Marked(cfg, s.active, id, req, now),
           flights := if closed.Some? then s.flights[caller := Flight(closed.value, false)] else s.flights)
    case Remove(caller) =>
      if caller !in s.flights || s.flights[caller].removed then s
      else
        var c := s.flights[caller].conflict;
        s.(active := Without(s.active, c.id), flights := s.flights[caller := Flight(c, true)])
    case Record(caller) =>
      if caller !in s.flights || !s.flights[caller].removed then s
      else
        var c := s.flights[caller].conflict;
        s.(history := Recorded(cfg, s.history, c), archived := s.archived + [c], flights := s.flights - {caller})
  }

  function Exec(cfg: Config, steps: seq<Step>): Sys {
    if steps == [] then START else Do(cfg, Exec(cfg, steps[..|steps| - 1]), steps[|steps| - 1])
  }

  // ---- The invariant -------------------------------------------------------------------

  ghost predicate Unique(cs: seq<Conflict>) {
    forall i, j :: 0 <= i < |cs| && 0 <= j < |cs| && cs[i].id == cs[j].id ==> i == j
  }

  function Ids(cs: seq<Conflict>): set<Id> {
    set c | c in cs :: c.id
  }

  /** The ids callers are carrying, with the removal done or not as asked. */
  function Carried(flights: map<nat, Flight>, removed: bool): set<Id> {
    set k | k in flights && flights[k].removed == removed :: flights[k].conflict.id
  }

  /** Only its status and resolution set `c` apart from the conflict as reported. */
  predicate SameCase(detected: map<Id, Conflict>, c: Conflict) {
    c.id in detected && c.(status := Open, resolution := None) == detected[c.id]
  }

  /** How a closed conflict may have been closed. */
  predicate WellClosed(cfg: Config, c: Conflict) {
    && Terminal(c) && c.resolution.Some?
    && var r := c.resolution.value;
       if c.status == Dismissed then r.winner == None
       else if r.policyUsed.ManualResolve? then r.winner.Some? && r.winner.value in c.modalities
       else
         && !r.policyUsed.Custom? && c.drift < cfg.requireManualAbove
         && r.resolver == "system" && r.winner == Winner(r.policyUsed, c.modalities)
  }

  /** Closed and still active means marked by a caller that has yet to remove it. */
  ghost predicate ActiveOk(s: Sys) {
    && Unique(s.active)
    && (forall c :: c in s.active ==> SameCase(s.detected, c))
    && (forall c :: c in s.active ==> (Terminal(c) <==> c.id in Carried(s.flights, false)))
  }

  ghost predicate OnePerCaller(flights: map<nat, Flight>) {
    forall a, b :: a in flights && b in flights && flights[a].conflict.id == flights[b].conflict.id ==> a == b
  }

  ghost predicate FlightsOk(cfg: Config, s: Sys) {
    && OnePerCaller(s.flights)
    && (forall k :: k in s.flights ==>
          && SameCase(s.detected, s.flights[k].conflict) && WellClosed(cfg, s.flights[k].conflict)
          && (!s.flights[k].removed ==> s.flights[k].conflict in s.active))
  }

  ghost predicate ArchiveOk(cfg: Config, s: Sys) {
    && Unique(s.archived) && s.history == Newest(s.archived, cfg.maxHistory)
    && forall c :: c in s.archived ==> SameCase(s.detected, c) && WellClosed(cfg, c)
  }

  /** What was detected is active, removed and on its way, or recorded, and only one of these. */
  ghost predicate Partition(detected: set<Id>, active: set<Id>, onItsWay: set<Id>, archived: set<Id>) {
    && detected == active + onItsWay + archived
    && active !! onItsWay && active !! archived && onItsWay !! archived
  }

  ghost predicate Conserved(s: Sys) {
    Partition(s.detected.Keys, Ids(s.active), Carried(s.flights, true), Ids(s.archived))
  }

  ghost predicate Inv(cfg: Config, s: Sys) {
    ActiveOk(s) && FlightsOk(cfg, s) && ArchiveOk(cfg, s) && Conserved(s)
  }

  // ---- Lists ------------------------------------------------------------------------------

  lemma IdsAppend(cs: seq<Conflict>, c: Conflict)
    ensures Ids(cs + [c]) == Ids(cs) + {c.id}
    ensures Unique(cs) && c.id !in Ids(cs) ==> Unique(cs + [c])
  {
    assert forall d :: d in cs + [c] <==> d in cs || d == c;
    assert c in cs + [c];
    forall d | d in cs ensures d in cs + [c] && d.id in Ids(cs) {
    }
  }

  lemma UpdateInPlace(cs: seq<Conflict>, i: nat, c: Conflict)
    requires i < |cs| && c.id == cs[i].id && Unique(cs)
    ensures Ids(cs[i := c]) == Ids(cs) && Unique(cs[i := c])
    ensures forall d :: d in cs[i := c] <==> d == c || (d in cs && d != cs[i])
  {
    var cs' := cs[i := c];
    assert cs'[i] == c;
    forall d | d in cs && d != cs[i] ensures d in cs' {
      var j :| 0 <= j < |cs| && cs[j] == d;
      assert cs'[j] == d;
    }
    forall d | d in cs' ensures d == c || (d in cs && d != cs[i]) {
      var j :| 0 <= j < |cs'| && cs'[j] == d;
    }
  }

  lemma {:induction false} WithoutKeepsOthers(cs: seq<Conflict>, id: Id)
    ensures forall d :: d in Without(cs, id) <==> d in cs && d.id != id
  {
    if cs != [] {
      var n := |cs| - 1;
      WithoutKeepsOthers(cs[..n], id);
      assert cs == cs[..n] + [cs[n]];
    }
  }

  lemma WithoutDropsId(cs: seq<Conflict>, id: Id)
    ensures Ids(Without(cs, id)) == Ids(cs) - {id}
  {
    WithoutKeepsOthers(cs, id);
  }

  lemma {:induction false} WithoutStaysUnique(cs: seq<Conflict>, id: Id)
    requires Unique(cs)
    ensures Unique(Without(cs, id))
  {
    if cs != [] {
      var n := |cs| - 1;
      WithoutStaysUnique(cs[..n], id);
      WithoutKeepsOthers(cs[..n], id);
      if cs[n].id != id {
        assert cs[n].id !in Ids(Without(cs[..n], id));
        IdsAppend(Without(cs[..n], id), cs[n]);
      }
    }
  }

  lemma NewestOfMore<T>(all: seq<T>, c: T, max: nat)
    ensures Newest(Newest(all, max) + [c], max) == Newest(all + [c], max)
  {
  }

  // ---- Flights ----------------------------------------------------------------------------

  lemma TakeOff(flights: map<nat, Flight>, caller: nat, c: Conflict)
    requires caller !in flights
    ensures Carried(flights[caller := Flight(c, false)], false) == Carried(flights, false) + {c.id}
    ensures Carried(flights[caller := Flight(c, false)], true) == Carried(flights, true)
  {
    var f' := flights[caller := Flight(c, false)];
    assert f'[caller].conflict.id == c.id;
    assert forall k :: k in flights ==> f'[k] == flights[k];
  }

  lemma MarkRemoved(flights: map<nat, Flight>, caller: nat)
    requires caller in flights && !flights[caller].removed && OnePerCaller(flights)
    ensures var f' := flights[caller := Flight(flights[caller].conflict, true)];
      && Carried(f', false) == Carried(flights, false) - {flights[caller].conflict.id}
      && Carried(f', true) == Carried(flights, true) + {flights[caller].conflict.id}
  {
    var f' := flights[caller := Flight(flights[caller].conflict, true)];
    assert f'[caller].conflict.id == flights[caller].conflict.id;
    assert forall k :: k in flights && k != caller ==> f'[k] == flights[k];
  }

  lemma Land(flights: map<nat, Flight>, caller: nat)
    requires caller in flights && flights[caller].removed && OnePerCaller(flights)
    ensures Carried(flights - {caller}, false) == Carried(flights, false)
    ensures Carried(flights - {caller}, true) == Carried(flights, true) - {flights[caller].conflict.id}
  {
    var f' := flights - {caller};
    assert forall k :: k in flights && k != caller ==> k in f' && f'[k] == flights[k];
  }

  // ---- Each step keeps it -----------------------------------------------------------------

  lemma DetectKeepsLists(cfg: Config, s: Sys, step: Step)
    requires Inv(cfg, s) && step.Detect? && step.id !in s.detected
    ensures ActiveOk(Do(cfg, s, step)) && Conserved(Do(cfg, s, step))
  {
    hide WellClosed, Newest, ArchiveOk;
    var s' := Do(cfg, s, step);
    var c := s'.detected[step.id];
    IdsAppend(s.active, c);
    assert forall d :: d in s'.active ==> d in s.active || d == c;
    assert c.id !in Carried(s.flights, false);
  }

  lemma DetectKeepsRest(cfg: Config, s: Sys, step: Step)
    requires Inv(cfg, s) && step.Detect? && step.id !in s.detected
    ensures FlightsOk(cfg, Do(cfg, s, step)) && ArchiveOk(cfg, Do(cfg, s, step))
  {
    hide WellClosed, Newest, ActiveOk, Conserved;
  }

  lemma DetectKeepsInv(cfg: Config, s: Sys, step: Step)
    requires Inv(cfg, s) && step.Detect?
    ensures Inv(cfg, Do(cfg, s, step))
  {
    hide ActiveOk, FlightsOk, ArchiveOk, Conserved;
    if step.id !in s.detected {
      DetectKeepsLists(cfg, s, step);
      DetectKeepsRest(cfg, s, step);
    }
  }

  /** What a request can close, and how. */
  lemma ClosedWell(cfg: Config, s: Sys, id: Id, req: Request, now: int)
    ensures var closed := Closed(cfg, s, id, req, now);
      closed.Some? ==> WellClosed(cfg, closed.value) && closed.value.id == id
  {
  }

  lemma MarkedKeepsCase(cfg: Config, detected: map<Id, Conflict>, c: Conflict, v: Verdict)
    requires SameCase(detected, c)
    ensures SameCase(detected, Judged(c, v))
  {
  }

  lemma MarkKeepsInv(cfg: Config, s: Sys, step: Step)
    requires Inv(cfg, s) && step.Mark?
    ensures Inv(cfg, Do(cfg, s, step))
  {
    var found := Find(s.active, step.id);
    if step.caller !in s.flights && found.Some? {
      var i := found.value;
      var c := s.active[i];
      var v := Judge(cfg, c, step.req, step.now);
      if v.Refuse? {
        assert s.active[i := c] == s.active;
        assert Do(cfg, s, step) == s;
      } else {
        UpdateInPlace(s.active, i, Judged(c, v));
        MarkedKeepsCase(cfg, s.detected, c, v);
        assert c.id !in Carried(s.flights, false);
        if v.Escalate? {
          assert Do(cfg, s, step).active == s.active[i := Judged(c, v)];
          MarkOpenKeepsInv(cfg, s, Do(cfg, s, step), i);
        } else {
          ClosedWell(cfg, s, step.id, step.req, step.now);
          TakeOff(s.flights, step.caller, Judged(c, v));
          MarkClosedKeepsInv(cfg, s, Do(cfg, s, step), i, step.caller);
        }
      }
    }
  }

  /** An escalation changes a status and nothing else. */
  lemma MarkOpenKeepsInv(cfg: Config, s: Sys, s': Sys, i: nat)
    requires Inv(cfg, s) && i < |s.active| && s.active[i].id !in Carried(s.flights, false)
    requires s' == s.(active := s.active[i := s.active[i].(status := InProgress)])
    ensures Inv(cfg, s')
  {
    UpdateInPlace(s.active, i, s'.active[i]);
    assert FlightsOk(cfg, s') by {
      forall k | k in s'.flights && !s'.flights[k].removed ensures s'.flights[k].conflict in s'.active {
        assert s.flights[k].conflict.id in Carried(s.flights, false);
      }
    }
  }

  lemma MarkClosedKeepsInv(cfg: Config, s: Sys, s': Sys, i: nat, caller: nat)
    requires Inv(cfg, s) && i < |s.active| && s.active[i].id !in Carried(s.flights, false) && caller !in s.flights
    requires exists c :: && WellClosed(cfg, c) && SameCase(s.detected, c) && c.id == s.active[i].id
                         && s' == s.(active := s.active[i := c], flights := s.flights[caller := Flight(c, false)])
    ensures Inv(cfg, s')
  {
    var c := s'.active[i];
    UpdateInPlace(s.active, i, c);
    TakeOff(s.flights, caller, c);
    assert s.active[i].id !in Carried(s.flights, true);
    assert FlightsOk(cfg, s') by {
      forall k | k in s.flights ensures s.flights[k].conflict.id != c.id {
        assert s.flights[k].conflict.id in Carried(s.flights, s.flights[k].removed);
      }
    }
  }

  lemma RemoveKeepsLists(cfg: Config, s: Sys, step: Step)
    requires Inv(cfg, s) && step.Remove? && step.caller in s.flights && !s.flights[step.caller].removed
    ensures ActiveOk(Do(cfg, s, step)) && Conserved(Do(cfg, s, step))
  {
    hide WellClosed, SameCase, Newest, ArchiveOk;
    var k := step.caller;
    var c := s.flights[k].conflict;
    MarkRemoved(s.flights, k);
    WithoutKeepsOthers(s.active, c.id);
    WithoutDropsId(s.active, c.id);
    WithoutStaysUnique(s.active, c.id);
  }

  lemma RemoveKeepsRest(cfg: Config, s: Sys, step: Step)
    requires Inv(cfg, s) && step.Remove? && step.caller in s.flights && !s.flights[step.caller].removed
    ensures FlightsOk(cfg, Do(cfg, s, step)) && ArchiveOk(cfg, Do(cfg, s, step))
  {
    hide WellClosed, SameCase, Newest, ActiveOk, Conserved;
    WithoutKeepsOthers(s.active, s.flights[step.caller].conflict.id);
  }

  lemma RemoveKeepsInv(cfg: Config, s: Sys, step: Step)
    requires Inv(cfg, s) && step.Remove?
    ensures Inv(cfg, Do(cfg, s, step))
  {
    hide ActiveOk, FlightsOk, ArchiveOk, Conserved;
    if step.caller in s.flights && !s.flights[step.caller].removed {
      RemoveKeepsLists(cfg, s, step);
      RemoveKeepsRest(cfg, s, step);
    }
  }

  lemma RecordKeepsInv(cfg: Config, s: Sys, step: Step)
    requires Inv(cfg, s) && step.Record?
    ensures Inv(cfg, Do(cfg, s, step))
  {
    var k := step.caller;
    if k in s.flights && s.flights[k].removed {
      var c := s.flights[k].conflict;
      Land(s.flights, k);
      assert c.id in Carried(s.flights, true);
      IdsAppend(s.archived, c);
      NewestOfMore(s.archived, c, cfg.maxHistory);
    }
  }

  lemma {:induction false} RunKeepsInv(cfg: Config, steps: seq<Step>)
    ensures Inv(cfg, Exec(cfg, steps))
  {
    if steps != [] {
      var n := |steps| - 1;
      var s := Exec(cfg, steps[..n]);
      RunKeepsInv(cfg, steps[..n]);
      match steps[n] {
        case Detect(_, _, _, _, _, _) => DetectKeepsInv(cfg, s, steps[n]);
        case Mark(_, _, _, _) => MarkKeepsInv(cfg, s, steps[n]);
        case Remove(_) => RemoveKeepsInv(cfg, s, steps[n]);
        case Record(_) => RecordKeepsInv(cfg, s, steps[n]);
      }
    }
  }

  // ---- What every run guarantees -----------------------------------------------------------

  /** Still to be decided. */
  function Unresolved(s: Sys): set<Id> {
    set c | c in s.active && !Terminal(c) :: c.id
  }

  function InFlight(s: Sys): set<Id> {
    Carried(s.flights, false) + Carried(s.flights, true)
  }

  /** Recorded and since pushed out of the history. */
  function Evicted(s: Sys): seq<Conflict> {
    if |s.history| <= |s.archived| then s.archived[..|s.archived| - |s.history|] else []
  }

  ghost predicate ExactlyOnePlace(all: set<Id>, a: set<Id>, b: set<Id>, c: set<Id>, d: set<Id>) {
    && all == a + b + c + d
    && a !! b && a !! c && a !! d && b !! c && b !! d && c !! d
  }

  lemma UniqueSplit(cs: seq<Conflict>, k: nat)
    requires k <= |cs| && Unique(cs)
    ensures Ids(cs) == Ids(cs[..k]) + Ids(cs[k..]) && Ids(cs[..k]) !! Ids(cs[k..])
  {
    assert cs == cs[..k] + cs[k..];
    forall c, d | c in cs[..k] && d in cs[k..] ensures c.id != d.id {
      var i :| 0 <= i < k && cs[i] == c;
      var j :| k <= j < |cs| && cs[j] == d;
    }
  }

  lemma ArchiveSplits(cfg: Config, s: Sys)
    requires ArchiveOk(cfg, s)
    ensures Ids(s.archived) == Ids(s.history) + Ids(Evicted(s)) && Ids(s.history) !! Ids(Evicted(s))
  {
    hide WellClosed, SameCase;
    assert s.history == s.archived[|s.archived| - |s.history|..];
    UniqueSplit(s.archived, |s.archived| - |s.history|);
  }

  /**
   * Conservation: in every interleaving each detected conflict is in exactly one
   * place, namely unresolved, in flight, in the history, or evicted from it.
   */
  lemma EachConflictInOnePlace(cfg: Config, steps: seq<Step>)
    ensures var s := Exec(cfg, steps);
      ExactlyOnePlace(s.detected.Keys, Unresolved(s), InFlight(s), Ids(s.history), Ids(Evicted(s)))
  {
    hide Exec, ActiveOk, ArchiveOk, FlightsOk, Ids, Unresolved, Evicted, Carried;
    var s := Exec(cfg, steps);
    RunKeepsInv(cfg, steps);
    ArchiveSplits(cfg, s);
    UnresolvedAreTheUnmarked(cfg, s);
  }

  lemma UnresolvedAreTheUnmarked(cfg: Config, s: Sys)
    requires Inv(cfg, s)
    ensures Unresolved(s) == Ids(s.active) - Carried(s.flights, false)
    ensures Carried(s.flights, false) <= Ids(s.active)
  {
    forall k | k in s.flights && !s.flights[k].removed ensures s.flights[k].conflict.id in Ids(s.active) {
    }
  }

  /** No conflict is recorded twice, and the history is the newest of what was recorded, as much as it may hold. */
  lemma HistoryIsNewestArchive(cfg: Config, steps: seq<Step>)
    ensures var s := Exec(cfg, steps);
      && (forall i, j :: 0 <= i < j < |s.archived| ==> s.archived[i].id != s.archived[j].id)
      && s.archived == Evicted(s) + s.history
      && |s.history| <= cfg.maxHistory && (Evicted(s) != [] ==> |s.history| == cfg.maxHistory)
  {
    hide Exec, ActiveOk, FlightsOk, Conserved, WellClosed, SameCase;
    RunKeepsInv(cfg, steps);
  }

  /** What was recorded stays recorded, in the same order: a conflict never comes back. */
  lemma {:induction false} ArchiveOnlyGrows(cfg: Config, steps: seq<Step>, more: seq<Step>)
    ensures Exec(cfg, steps).archived <= Exec(cfg, steps + more).archived
    decreases |more|
  {
    if more == [] {
      assert steps + more == steps;
    } else {
      var n := |more| - 1;
      ArchiveOnlyGrows(cfg, steps, more[..n]);
      assert (steps + more)[..|steps + more| - 1] == steps + more[..n];
    }
  }

  // ---- How conflicts are closed ------------------------------------------------------------

  /** A request of the run closed `c` with just this outcome. */
  ghost predicate ClosedByRequest(cfg: Config, steps: seq<Step>, c: Conflict) {
    exists i :: 0 <= i < |steps| && Closes(cfg, steps[i], c)
  }

  predicate Closes(cfg: Config, step: Step, c: Conflict) {
    && step.Mark? && step.id == c.id && c.resolution.Some?
    && Judge(cfg, c.(status := Open), step.req, step.now) == Close(c.status, c.resolution.value)
  }

  lemma MoreSteps(cfg: Config, steps: seq<Step>, n: nat, c: Conflict)
    requires n <= |steps| && ClosedByRequest(cfg, steps[..n], c)
    ensures ClosedByRequest(cfg, steps, c)
  {
    var i :| 0 <= i < n && Closes(cfg, steps[..n][i], c);
    assert Closes(cfg, steps[i], c);
  }

  ghost predicate AllByRequest(cfg: Config, steps: seq<Step>, s: Sys) {
    && (forall k :: k in s.flights ==> ClosedByRequest(cfg, steps, s.flights[k].conflict))
    && (forall c :: c in s.archived ==> ClosedByRequest(cfg, steps, c))
  }

  lemma {:induction false} ClosedOnlyByRequest(cfg: Config, steps: seq<Step>)
    ensures AllByRequest(cfg, steps, Exec(cfg, steps))
  {
    if steps != [] {
      var n := |steps| - 1;
      var s, s' := Exec(cfg, steps[..n]), Exec(cfg, steps);
      ClosedOnlyByRequest(cfg, steps[..n]);
      forall k | k in s'.flights ensures ClosedByRequest(cfg, steps, s'.flights[k].conflict) {
        if k in s.flights {
          MoreSteps(cfg, steps, n, s.flights[k].conflict);
        } else {
          assert Closes(cfg, steps[n], s'.flights[k].conflict);
        }
      }
      forall c | c in s'.archived ensures ClosedByRequest(cfg, steps, c) {
        MoreSteps(cfg, steps, n, c);
      }
    }
  }

  /**
   * The step closed `c` in the way its request allows: resolved below the
   * threshold by the policy it goes by in favour of its right winner, resolved
   * by a person in favour of a modality in conflict, or dismissed.
   */
  ghost predicate SoundlyClosed(cfg: Config, step: Step, c: Conflict)
    requires c.resolution.Some?
  {
    var (ms, r) := (c.modalities, c.resolution.value);
    && step.Mark? && step.id == c.id && r.resolvedAt == step.now
    && match step.req
       case Resolve(named) =>
         && c.status == Resolved && c.drift < cfg.requireManualAbove && r.resolver == "system" && r.notes == None
         && r.policyUsed != ManualResolve && !r.policyUsed.Custom?
         && GoesBy(cfg, ms, named, r.policyUsed) && RightWinner(r.policyUsed, ms, r.winner)
       case ResolveManual(winner, resolver, notes) =>
         && c.status == Resolved && r.policyUsed == ManualResolve && winner in ms
         && r.winner == Some(winner) && r.resolver == resolver && r.notes == notes
       case Dismiss(reason) =>
         && c.status == Dismissed && r.winner == None && r.resolver == "system" && r.notes == Some("Dismissed: " + reason)
  }

  /** A step of the run reported the conflict as it stands, its status and resolution apart. */
  predicate Reported(step: Step, c: Conflict) {
    step == Detect(c.id, c.entityId, c.modalities, c.drift, c.description, c.detectedAt)
  }

  lemma {:induction false} DetectedWereReported(cfg: Config, steps: seq<Step>, id: Id)
    requires id in Exec(cfg, steps).detected
    ensures exists i :: 0 <= i < |steps| && Reported(steps[i], Exec(cfg, steps).detected[id])
              && Exec(cfg, steps).detected[id].id == id
  {
    hide Marked, Closed, Recorded, Without;
    var n := |steps| - 1;
    var s := Exec(cfg, steps[..n]);
    if id in s.detected {
      DetectedWereReported(cfg, steps[..n], id);
      var i :| 0 <= i < n && Reported(steps[..n][i], s.detected[id]);
      assert Reported(steps[i], Exec(cfg, steps).detected[id]);
    } else {
      assert Reported(steps[n], Exec(cfg, steps).detected[id]);
    }
  }

  /**
   * In every run each conflict in the history is as it was reported, and was
   * closed soundly: a policy followed, the last writer or the least ranked
   * named, a high drift left to a person, a dismissal without a winner.
   */
  lemma HistoryIsSoundlyResolved(cfg: Config, steps: seq<Step>, c: Conflict)
    requires c in Exec(cfg, steps).history
    ensures c.resolution.Some?
    ensures exists i :: 0 <= i < |steps| && SoundlyClosed(cfg, steps[i], c)
    ensures exists i :: 0 <= i < |steps| && Reported(steps[i], c)
  {
    hide Exec, ActiveOk, FlightsOk, Conserved;
    var s := Exec(cfg, steps);
    RunKeepsInv(cfg, steps);
    ClosedOnlyByRequest(cfg, steps);
    assert c in s.archived;
    var i :| 0 <= i < |steps| && Closes(cfg, steps[i], c);
    ClosesSoundly(cfg, steps[i], c);
    DetectedWereReported(cfg, steps, c.id);
    var j :| 0 <= j < |steps| && Reported(steps[j], s.detected[c.id]);
    assert Reported(steps[j], c);
  }

  lemma ClosesSoundly(cfg: Config, step: Step, c: Conflict)
    requires Closes(cfg, step, c)
    ensures SoundlyClosed(cfg, step, c)
  {
    hide RightWinner, Winner, Decides;
    var r := c.resolution.value;
    if step.req.Resolve? {
      SelectedExactly(cfg, c.modalities, r.policyUsed);
      WinnerExactly(r.policyUsed, c.modalities, r.winner);
    }
  }

  // ---- Escalation ----------------------------------------------------------------------------

  /** The request leaves the conflict to somebody else: by its drift, or by the policy it goes by. */
  ghost predicate CallsFor(cfg: Config, c: Conflict, req: Request) {
    req.Resolve? && (c.drift >= cfg.requireManualAbove
                     || exists p :: GoesBy(cfg, c.modalities, req.policy, p) && (p == ManualResolve || p.Custom?))
  }

  lemma EscalatesExactly(cfg: Config, c: Conflict, req: Request, now: int)
    ensures Judge(cfg, c, req, now).Escalate? <==> !Terminal(c) && CallsFor(cfg, c, req)
  {
    hide Decides, Winner;
    if req.Resolve? {
      var effective := if req.policy.Some? then req.policy.value else Selected(cfg, c.modalities);
      forall p ensures GoesBy(cfg, c.modalities, req.policy, p) <==> p == effective {
        SelectedExactly(cfg, c.modalities, p);
      }
    }
  }

  /** The step is a request by an idle caller that leaves the undecided conflict to somebody else. */
  ghost predicate Escalates(cfg: Config, s: Sys, step: Step, id: Id) {
    && step.Mark? && step.id == id && step.caller !in s.flights
    && exists c :: c in s.active && c.id == id && !Terminal(c) && CallsFor(cfg, c, step.req)
  }

  ghost predicate EscalatedIn(cfg: Config, steps: seq<Step>, id: Id) {
    exists i :: 0 <= i < |steps| && Escalates(cfg, Exec(cfg, steps[..i]), steps[i], id)
  }

  lemma EscalatedStep(cfg: Config, steps: seq<Step>, id: Id)
    requires steps != []
    ensures var n := |steps| - 1;
      EscalatedIn(cfg, steps, id) <==> EscalatedIn(cfg, steps[..n], id) || Escalates(cfg, Exec(cfg, steps[..n]), steps[n], id)
  {
    hide Exec, Escalates;
    var n := |steps| - 1;
    forall i | 0 <= i < n ensures steps[..n][..i] == steps[..i] && steps[..n][i] == steps[i] {
    }
    if i :| 0 <= i < |steps| && Escalates(cfg, Exec(cfg, steps[..i]), steps[i], id) {
      if i < n {
        assert Escalates(cfg, Exec(cfg, steps[..n][..i]), steps[..n][i], id);
      }
    }
    if i :| 0 <= i < n && Escalates(cfg, Exec(cfg, steps[..n][..i]), steps[..n][i], id) {
      assert Escalates(cfg, Exec(cfg, steps[..i]), steps[i], id);
    }
  }

  lemma NoStepsNoEscalation(cfg: Config, id: Id)
    ensures !EscalatedIn(cfg, [], id)
  {
  }

  lemma {:induction false} OnlyDetectedEscalate(cfg: Config, steps: seq<Step>, id: Id)
    requires EscalatedIn(cfg, steps, id)
    ensures id in Exec(cfg, steps).detected
  {
    hide Escalates, EscalatedIn, Inv, Do;
    NoStepsNoEscalation(cfg, id);
    var n := |steps| - 1;
    var s := Exec(cfg, steps[..n]);
    EscalatedStep(cfg, steps, id);
    RunKeepsInv(cfg, steps[..n]);
    if EscalatedIn(cfg, steps[..n], id) {
      OnlyDetectedEscalate(cfg, steps[..n], id);
    } else {
      EscalatedIsDetected(cfg, s, steps[n], id);
    }
    DetectedStays(cfg, s, steps[n], id);
  }

  lemma EscalatedIsDetected(cfg: Config, s: Sys, step: Step, id: Id)
    requires Inv(cfg, s) && Escalates(cfg, s, step, id)
    ensures id in s.detected
  {
    var c :| c in s.active && c.id == id;
    assert SameCase(s.detected, c);
  }

  lemma DetectedStays(cfg: Config, s: Sys, step: Step, id: Id)
    requires id in s.detected
    ensures id in Do(cfg, s, step).detected
  {
    hide Marked, Closed, Recorded, Without;
  }

  /** The conflict was there before the step, which made it in progress or left its status. */
  ghost predicate WasThere(cfg: Config, s: Sys, step: Step, c: Conflict) {
    exists was :: was in s.active && was.id == c.id && !Terminal(was)
                  && c.status == if Escalates(cfg, s, step, c.id) then InProgress else was.status
  }

  /** What a step makes of an undecided conflict that was there, and how one comes to be there. */
  lemma UndecidedBefore(cfg: Config, s: Sys, step: Step, c: Conflict)
    requires Inv(cfg, s) && c in Do(cfg, s, step).active && !Terminal(c)
    ensures WasThere(cfg, s, step, c) || (c.status == Open && c.id !in s.detected && !Escalates(cfg, s, step, c.id))
  {
    match step {
      case Detect(_, _, _, _, _, _) =>
        if c in s.active {
          assert !Escalates(cfg, s, step, c.id);
        }
      case Mark(_, _, _, _) => UndecidedMark(cfg, s, step, c);
      case Remove(caller) =>
        if caller in s.flights && !s.flights[caller].removed {
          WithoutKeepsOthers(s.active, s.flights[caller].conflict.id);
        }
        assert c in s.active && !Escalates(cfg, s, step, c.id);
      case Record(_) =>
        assert c in s.active && !Escalates(cfg, s, step, c.id);
    }
  }

  lemma ClosedIsTerminal(cfg: Config, c: Conflict, req: Request, now: int)
    ensures var v := Judge(cfg, c, req, now); v.Close? ==> Terminal(Judged(c, v))
  {
  }

  lemma UndecidedMark(cfg: Config, s: Sys, step: Step, c: Conflict)
    requires Inv(cfg, s) && step.Mark? && c in Do(cfg, s, step).active && !Terminal(c)
    ensures WasThere(cfg, s, step, c)
  {
    hide CallsFor, FlightsOk, ArchiveOk, Conserved, Judge;
    var found := Find(s.active, step.id);
    if step.caller !in s.flights && found.Some? {
      var was := s.active[found.value];
      var v := Judge(cfg, was, step.req, step.now);
      EscalatesExactly(cfg, was, step.req, step.now);
      ClosedIsTerminal(cfg, was, step.req, step.now);
      var k :| 0 <= k < |s.active| && Do(cfg, s, step).active[k] == c;
      if k == found.value {
        assert c == Judged(was, v);
        assert !v.Close?;
        assert Escalates(cfg, s, step, c.id) <==> v.Escalate?;
      } else {
        assert c == s.active[k] && c.id != step.id;
      }
    }
  }

  /** In every run an undecided conflict is in progress exactly when some request left it to somebody else, and open otherwise. */
  lemma {:induction false} InProgressExactly(cfg: Config, steps: seq<Step>, c: Conflict)
    requires c in Exec(cfg, steps).active && !Terminal(c)
    ensures c.status == if EscalatedIn(cfg, steps, c.id) then InProgress else Open
  {
    hide Escalates, EscalatedIn, Inv, Do;
    var n := |steps| - 1;
    var s := Exec(cfg, steps[..n]);
    RunKeepsInv(cfg, steps[..n]);
    EscalatedStep(cfg, steps, c.id);
    UndecidedBefore(cfg, s, steps[n], c);
    if WasThere(cfg, s, steps[n], c) {
      var was :| was in s.active && was.id == c.id && !Terminal(was)
                 && c.status == if Escalates(cfg, s, steps[n], c.id) then InProgress else was.status;
      InProgressExactly(cfg, steps[..n], was);
    } else if EscalatedIn(cfg, steps[..n], c.id) {
      OnlyDetectedEscalate(cfg, steps[..n], c.id);
    }
  }

  // ---- One caller, no interleaving ---------------------------------------------------------

  /** A request whose phases follow each other directly leaves the lists the whole call leaves. */
  lemma PhasesInOneGo(cfg: Config, s: Sys, caller: nat, id: Id, req: Request, now: int)
    requires caller !in s.flights
    ensures var s' := Do(cfg, Do(cfg, Do(cfg, s, Mark(caller, id, req, now)), Remove(caller)), Record(caller));
      && (s'.active, s'.history) == Settle(cfg, s.active, s.history, id, Answer(cfg, s.active, id, req, now))
      && s'.flights == s.flights
  {
    var s1 := Do(cfg, s, Mark(caller, id, req, now));
    var i := Find(s.active, id);
    if i.Some? && Judge(cfg, s.active[i.value], req, now).Refuse? {
      assert s1.active == s.active;
    }
    if Closed(cfg, s, id, req, now).Some? {
      var s2 := Do(cfg, s1, Remove(caller));
      assert s2.flights - {caller} == s.flights;
    } else {
      assert s1.flights == s.flights;
    }
  }
}
