/** The per-client sliding-window rate limiter. */
module RateLimiting {

  const U32_MAX: nat := 0xFFFF_FFFF

  /** A count as a 32-bit integer. */
  function AsU32(n: nat): (r: nat)
    ensures r <= U32_MAX
  {
    n % 0x1_0000_0000
  }

  lemma SmallAsU32(n: nat)
    requires n <= U32_MAX
    ensures AsU32(n) == n
  {
  }

  /** Readings of the monotonic clock, in its smallest unit. */
  type Instant = int

  type Windows = map<string, seq<Instant>>

  datatype Config = Config(maxRequests: nat, window: nat)

  predicate Sensible(cfg: Config) {
    cfg.maxRequests <= U32_MAX
  }

  /** The time since `t`; zero when `t` lies ahead. */
  function Age(now: Instant, t: Instant): nat {
    if now < t then 0 else now - t
  }

  /** The instants still inside the window that ends at `now`. */
  function Fresh(cfg: Config, ts: seq<Instant>, now: Instant): seq<Instant> {
    if ts == [] then []
    else
      var n := |ts| - 1;
      var rest := Fresh(cfg, ts[..n], now);
      if Age(now, ts[n]) < cfg.window then rest + [ts[n]] else rest
  }

  function Entry(windows: Windows, client: string): seq<Instant> {
    if client in windows then windows[client] else []
  }

  /** The quota test of the source: a 32-bit count against the limit. */
  predicate Full(cfg: Config, ts: seq<Instant>) {
    AsU32(|ts|) >= cfg.maxRequests
  }

  predicate Allowed(cfg: Config, windows: Windows, client: string, now: Instant) {
    cfg.maxRequests == 0 || !Full(cfg, Fresh(cfg, Entry(windows, client), now))
  }

  function AfterCheck(cfg: Config, windows: Windows, client: string, now: Instant): Windows {
    if cfg.maxRequests == 0 then windows
    else
      var ts := Fresh(cfg, Entry(windows, client), now);
      windows[client := if Full(cfg, ts) then ts else ts + [now]]
  }

  function AfterRemaining(cfg: Config, windows: Windows, client: string, now: Instant): Windows {
    if cfg.maxRequests == 0 then windows else windows[client := Fresh(cfg, Entry(windows, client), now)]
  }

  function Quota(cfg: Config, windows: Windows, client: string, now: Instant): nat {
    if cfg.maxRequests == 0 then U32_MAX
    else
      var used := AsU32(|Fresh(cfg, Entry(windows, client), now)|);
      if used < cfg.maxRequests then cfg.maxRequests - used else 0
  }

  class RateLimiter {
    const cfg: Config
    var windows: Windows

    constructor (maxRequests: nat, window: nat)
      ensures cfg == Config(maxRequests, window) && windows == map[]
    {
      cfg := Config(maxRequests, window);
      windows := map[];
    }

    method Prune(ts: seq<Instant>, now: Instant) returns (kept: seq<Instant>)
      ensures kept == Fresh(cfg, ts, now)
    {
      kept := [];
      for i := 0 to |ts|
        invariant kept == Fresh(cfg, ts[..i], now)
      {
        assert ts[..i + 1][..i] == ts[..i];
        if Age(now, ts[i]) < cfg.window {
          kept := kept + [ts[i]];
        }
      }
      assert ts[..|ts|] == ts;
    }

    method Check(client: string, now: Instant) returns (allowed: bool)
      modifies this
      ensures allowed == Allowed(cfg, old(windows), client, now)
      ensures windows == AfterCheck(cfg, old(windows), client, now)
    {
      if cfg.maxRequests == 0 {
        return true;
      }
      var timestamps := if client in windows then windows[client] else [];
      timestamps := Prune(timestamps, now);
      if AsU32(|timestamps|) >= cfg.maxRequests {
        allowed := false;
      } else {
        timestamps := timestamps + [now];
        allowed := true;
      }
      windows := windows[client := timestamps];
    }

    method Remaining(client: string, now: Instant) returns (quota: nat)
      modifies this
      ensures quota == Quota(cfg, old(windows), client, now)
      ensures windows == AfterRemaining(cfg, old(windows), client, now)
    {
      if cfg.maxRequests == 0 {
        return U32_MAX;
      }
      var timestamps := if client in windows then windows[client] else [];
      timestamps := Prune(timestamps, now);
      windows := windows[client := timestamps];
      var used := AsU32(|timestamps|);
      quota := if used < cfg.maxRequests then cfg.maxRequests - used else 0;
    }
  }

  // ---- Runs ------------------------------------------------------------------------------

  datatype Call = Check(client: string, now: Instant) | Remaining(client: string, now: Instant)

  function Exec(cfg: Config, calls: seq<Call>): Windows {
    if calls == [] then map[]
    else
      var before := Exec(cfg, calls[..|calls| - 1]);
      match calls[|calls| - 1]
      case Check(client, now) => AfterCheck(cfg, before, client, now)
      case Remaining(client, now) => AfterRemaining(cfg, before, client, now)
  }

  /** When the client's accepted checks happened, in order. */
  function Accepted(cfg: Config, calls: seq<Call>, client: string): seq<Instant> {
    if calls == [] then []
    else
      var n := |calls| - 1;
      var before := Accepted(cfg, calls[..n], client);
      if calls[n].Check? && calls[n].client == client && Allowed(cfg, Exec(cfg, calls[..n]), client, calls[n].now)
      then before + [calls[n].now] else before
  }

  /** The client's clock readings never go back. */
  predicate ClockGoesForward(calls: seq<Call>, client: string) {
    forall i, j :: 0 <= i < j < |calls| && calls[i].client == client == calls[j].client ==> calls[i].now <= calls[j].now
  }

  predicate NotAfter(calls: seq<Call>, client: string, now: Instant) {
    forall i :: 0 <= i < |calls| && calls[i].client == client ==> calls[i].now <= now
  }

  predicate AllUpTo(ts: seq<Instant>, now: Instant) {
    forall i :: 0 <= i < |ts| ==> ts[i] <= now
  }

  lemma {:induction false} FreshTwice(cfg: Config, ts: seq<Instant>, earlier: Instant, now: Instant)
    requires earlier <= now
    ensures Fresh(cfg, Fresh(cfg, ts, earlier), now) == Fresh(cfg, ts, now)
  {
    if ts != [] {
      var n := |ts| - 1;
      FreshTwice(cfg, ts[..n], earlier, now);
      if Age(earlier, ts[n]) < cfg.window {
        assert (Fresh(cfg, ts[..n], earlier) + [ts[n]])[..|Fresh(cfg, ts[..n], earlier)|] == Fresh(cfg, ts[..n], earlier);
      }
    }
  }

  lemma FreshAppend(cfg: Config, ts: seq<Instant>, t: Instant, now: Instant)
    ensures Fresh(cfg, ts + [t], now) == Fresh(cfg, ts, now) + if Age(now, t) < cfg.window then [t] else []
  {
    assert (ts + [t])[..|ts|] == ts;
  }

  lemma {:induction false} AcceptedUpTo(cfg: Config, calls: seq<Call>, client: string, now: Instant)
    requires NotAfter(calls, client, now)
    ensures AllUpTo(Accepted(cfg, calls, client), now)
  {
    if calls != [] {
      AcceptedUpTo(cfg, calls[..|calls| - 1], client, now);
    }
  }

  /** What the table keeps of a client is as good as the full record of its accepted checks. */
  lemma {:induction false} TableIsRecord(cfg: Config, calls: seq<Call>, client: string, now: Instant)
    requires cfg.maxRequests >= 1 && ClockGoesForward(calls, client) && NotAfter(calls, client, now)
    ensures Fresh(cfg, Entry(Exec(cfg, calls), client), now) == Fresh(cfg, Accepted(cfg, calls, client), now)
  {
    hide Full, AsU32, Fresh;
    if calls != [] {
      var n := |calls| - 1;
      var call := calls[n];
      var before, record := Exec(cfg, calls[..n]), Accepted(cfg, calls[..n], client);
      TableIsRecord(cfg, calls[..n], client, now);
      if call.client == client {
        var ts := Fresh(cfg, Entry(before, client), call.now);
        FreshTwice(cfg, Entry(before, client), call.now, now);
        FreshAppend(cfg, ts, call.now, now);
        FreshAppend(cfg, record, call.now, now);
      }
    }
  }

  /** The quota never overflows the 32-bit count, so the test is the plain comparison. */
  lemma {:induction false} FreshNeverOverLimit(cfg: Config, calls: seq<Call>, client: string)
    requires Sensible(cfg) && cfg.maxRequests >= 1
    ensures |Entry(Exec(cfg, calls), client)| <= cfg.maxRequests
  {
    hide AsU32;
    if calls != [] {
      var n := |calls| - 1;
      FreshNeverOverLimit(cfg, calls[..n], client);
      var ts := Fresh(cfg, Entry(Exec(cfg, calls[..n]), client), calls[n].now);
      FreshIsShorter(cfg, Entry(Exec(cfg, calls[..n]), client), calls[n].now);
      SmallAsU32(|ts|);
    }
  }

  lemma {:induction false} FreshIsShorter(cfg: Config, ts: seq<Instant>, now: Instant)
    ensures |Fresh(cfg, ts, now)| <= |ts|
  {
    if ts != [] {
      FreshIsShorter(cfg, ts[..|ts| - 1], now);
    }
  }

  lemma FullExactly(cfg: Config, calls: seq<Call>, client: string, now: Instant)
    requires Sensible(cfg) && cfg.maxRequests >= 1 && ClockGoesForward(calls, client) && NotAfter(calls, client, now)
    ensures |Fresh(cfg, Accepted(cfg, calls, client), now)| <= cfg.maxRequests
    ensures !Allowed(cfg, Exec(cfg, calls), client, now) <==>
              |Fresh(cfg, Accepted(cfg, calls, client), now)| == cfg.maxRequests
  {
    hide AsU32;
    TableIsRecord(cfg, calls, client, now);
    FreshNeverOverLimit(cfg, calls, client);
    FreshIsShorter(cfg, Entry(Exec(cfg, calls), client), now);
    SmallAsU32(|Fresh(cfg, Entry(Exec(cfg, calls), client), now)|);
  }

  /** How many of the instants lie strictly after `start`. */
  function CountAfter(ts: seq<Instant>, start: Instant): nat {
    if ts == [] then 0 else CountAfter(ts[..|ts| - 1], start) + if ts[|ts| - 1] > start then 1 else 0
  }

  lemma {:induction false} FreshCounts(cfg: Config, ts: seq<Instant>, now: Instant)
    requires AllUpTo(ts, now)
    ensures |Fresh(cfg, ts, now)| == CountAfter(ts, now - cfg.window)
  {
    if ts != [] {
      FreshCounts(cfg, ts[..|ts| - 1], now);
    }
  }

  /**
   * A check is refused exactly when the client has used the limit since less
   * than a window ago; a limit of zero is none.
   */
  lemma RefusedExactly(cfg: Config, calls: seq<Call>, client: string, now: Instant)
    requires Sensible(cfg) && ClockGoesForward(calls, client) && NotAfter(calls, client, now)
    ensures var used := CountAfter(Accepted(cfg, calls, client), now - cfg.window);
      && (cfg.maxRequests >= 1 ==> used <= cfg.maxRequests)
      && (!Allowed(cfg, Exec(cfg, calls), client, now) <==> cfg.maxRequests >= 1 && used == cfg.maxRequests)
  {
    hide AsU32, Exec, Accepted, Fresh;
    AcceptedUpTo(cfg, calls, client, now);
    FreshCounts(cfg, Accepted(cfg, calls, client), now);
    if cfg.maxRequests >= 1 {
      FullExactly(cfg, calls, client, now);
    }
  }

  /** `remaining` is the limit less what was used since less than a window ago, and all a 32-bit count can say without a limit. */
  lemma RemainingIsUnusedQuota(cfg: Config, calls: seq<Call>, client: string, now: Instant)
    requires Sensible(cfg) && ClockGoesForward(calls, client) && NotAfter(calls, client, now)
    ensures Quota(cfg, Exec(cfg, calls), client, now) ==
              if cfg.maxRequests == 0 then 0xFFFF_FFFF
              else cfg.maxRequests - CountAfter(Accepted(cfg, calls, client), now - cfg.window)
  {
    hide AsU32, Exec, Accepted, Fresh;
    AcceptedUpTo(cfg, calls, client, now);
    FreshCounts(cfg, Accepted(cfg, calls, client), now);
    if cfg.maxRequests >= 1 {
      FullExactly(cfg, calls, client, now);
      TableIsRecord(cfg, calls, client, now);
      SmallAsU32(|Fresh(cfg, Entry(Exec(cfg, calls), client), now)|);
    }
  }

  // ---- The bound --------------------------------------------------------------------------

  /** The instants in the half-open interval of window length that starts at `start`. */
  function Within(cfg: Config, ts: seq<Instant>, start: Instant): seq<Instant> {
    if ts == [] then []
    else
      var n := |ts| - 1;
      var rest := Within(cfg, ts[..n], start);
      if start <= ts[n] < start + cfg.window then rest + [ts[n]] else rest
  }

  lemma {:induction false} WithinIsFresh(cfg: Config, ts: seq<Instant>, start: Instant, now: Instant)
    requires AllUpTo(ts, now) && start <= now < start + cfg.window
    ensures |Within(cfg, ts, start)| <= |Fresh(cfg, ts, now)|
  {
    if ts != [] {
      WithinIsFresh(cfg, ts[..|ts| - 1], start, now);
    }
  }

  /** In every run, every half-open interval of window length holds at most the limit of accepted checks. */
  lemma {:induction false} AtMostLimitPerWindow(cfg: Config, calls: seq<Call>, client: string, start: Instant)
    requires Sensible(cfg) && cfg.maxRequests >= 1 && ClockGoesForward(calls, client)
    ensures |Within(cfg, Accepted(cfg, calls, client), start)| <= cfg.maxRequests
  {
    hide AsU32;
    if calls != [] {
      var n := |calls| - 1;
      var call, record := calls[n], Accepted(cfg, calls[..n], client);
      AtMostLimitPerWindow(cfg, calls[..n], client, start);
      if Accepted(cfg, calls, client) != record {
        assert (record + [call.now])[..|record|] == record;
        if start <= call.now < start + cfg.window {
          FullExactly(cfg, calls[..n], client, call.now);
          AcceptedUpTo(cfg, calls[..n], client, call.now);
          WithinIsFresh(cfg, record, start, call.now);
        }
      }
    }
  }

  lemma EmptyRun(cfg: Config, client: string)
    ensures Exec(cfg, []) == map[] && Accepted(cfg, [], client) == []
  {
  }

  lemma OneMoreCall(cfg: Config, calls: seq<Call>, call: Call, client: string)
    ensures Exec(cfg, calls + [call]) ==
              if call.Check? then AfterCheck(cfg, Exec(cfg, calls), call.client, call.now)
              else AfterRemaining(cfg, Exec(cfg, calls), call.client, call.now)
    ensures Accepted(cfg, calls + [call], client) == Accepted(cfg, calls, client) +
              if call.Check? && call.client == client && Allowed(cfg, Exec(cfg, calls), client, call.now)
              then [call.now] else []
  {
    assert (calls + [call])[..|calls|] == calls;
  }

  // ---- Late readings -------------------------------------------------------------------------

  /** The client's readings go forward, and the last call is the client's and reads `latest`. */
  predicate ForwardTo(calls: seq<Call>, client: string, latest: Instant) {
    ClockGoesForward(calls, client) && calls != [] && calls[|calls| - 1].client == client && calls[|calls| - 1].now == latest
  }

  /** Some interval of window length holds more accepted checks than the limit. */
  ghost predicate Exceeded(cfg: Config, calls: seq<Call>, client: string) {
    exists start :: |Within(cfg, Accepted(cfg, calls, client), start)| > cfg.maxRequests
  }

  function Burst(client: string, at: Instant, n: nat): seq<Call> {
    if n == 0 then [] else Burst(client, at, n - 1) + [Check(client, at)]
  }

  function Repeated(at: Instant, n: nat): (r: seq<Instant>)
    ensures |r| == n && forall i :: 0 <= i < n ==> r[i] == at
  {
    if n == 0 then [] else Repeated(at, n - 1) + [at]
  }

  /** Instants all inside the window, or all outside. */
  lemma {:induction false} FreshOfSame(cfg: Config, at: Instant, n: nat, now: Instant)
    ensures Fresh(cfg, Repeated(at, n), now) == if Age(now, at) < cfg.window then Repeated(at, n) else []
  {
    if n > 0 {
      FreshOfSame(cfg, at, n - 1, now);
      assert Repeated(at, n)[..n - 1] == Repeated(at, n - 1);
    }
  }

  lemma {:induction false} WithinOfSame(cfg: Config, at: Instant, n: nat)
    requires cfg.window >= 1
    ensures Within(cfg, Repeated(at, n), at) == Repeated(at, n)
  {
    if n > 0 {
      WithinOfSame(cfg, at, n - 1);
      assert Repeated(at, n)[..n - 1] == Repeated(at, n - 1);
    }
  }

  /** A burst up to the limit is accepted whole. */
  lemma {:induction false} BurstIsAccepted(cfg: Config, client: string, at: Instant, n: nat)
    requires Sensible(cfg) && cfg.window >= 1 && n <= cfg.maxRequests
    ensures Accepted(cfg, Burst(client, at, n), client) == Repeated(at, n)
    ensures Entry(Exec(cfg, Burst(client, at, n)), client) == Repeated(at, n)
    ensures forall i :: 0 <= i < |Burst(client, at, n)| ==> Burst(client, at, n)[i] == Check(client, at)
  {
    hide Exec, Accepted, Fresh, AsU32;
    if n == 0 {
      EmptyRun(cfg, client);
    } else {
      BurstIsAccepted(cfg, client, at, n - 1);
      OneMoreCall(cfg, Burst(client, at, n - 1), Check(client, at), client);
      FreshOfSame(cfg, at, n - 1, at);
      SmallAsU32(n - 1);
    }
  }

  /** A full burst, a look at `latest` that prunes it, and a check that reads `late`. */
  lemma LateCheckExceeds(cfg: Config, client: string, latest: Instant, late: Instant)
    requires Sensible(cfg) && cfg.maxRequests >= 1 && cfg.window >= 1 && late < latest
    ensures exists calls :: ForwardTo(calls, client, latest) && Exceeded(cfg, calls + [Check(client, late)], client)
  {
    hide Exec, Accepted, Fresh, AsU32, Within;
    var at := if late <= latest - cfg.window then late else latest - cfg.window;
    var n := cfg.maxRequests;
    var burst := Burst(client, at, n);
    var calls := burst + [Remaining(client, latest)];
    BurstIsAccepted(cfg, client, at, n);
    OneMoreCall(cfg, burst, Remaining(client, latest), client);
    FreshOfSame(cfg, at, n, latest);
    OneMoreCall(cfg, calls, Check(client, late), client);
    assert Fresh(cfg, [], late) == [] by { FreshOfNone(cfg, late); }
    SmallAsU32(0);
    assert Accepted(cfg, calls + [Check(client, late)], client) == Repeated(at, n) + [late];
    WithinOfSame(cfg, at, n);
    WithinAppend(cfg, Repeated(at, n), late, at);
    assert ForwardTo(calls, client, latest);
    assert |Within(cfg, Accepted(cfg, calls + [Check(client, late)], client), at)| == n + 1;
    assert Exceeded(cfg, calls + [Check(client, late)], client);
  }

  lemma FreshOfNone(cfg: Config, now: Instant)
    ensures Fresh(cfg, [], now) == []
  {
  }

  lemma WithinAppend(cfg: Config, ts: seq<Instant>, t: Instant, start: Instant)
    ensures Within(cfg, ts + [t], start) == Within(cfg, ts, start) + if start <= t < start + cfg.window then [t] else []
  {
    assert (ts + [t])[..|ts|] == ts;
  }

  /**
   * The clock is read before the table is locked, so a check may enter with an
   * earlier reading than a call before it. After readings that went forward to
   * `latest`, a check that reads `late` can bring more than the limit into some
   * window exactly when it is late, windows of no length aside.
   */
  lemma LateReadingExceedsExactly(cfg: Config, client: string, latest: Instant, late: Instant)
    requires Sensible(cfg) && cfg.maxRequests >= 1
    ensures (exists calls :: ForwardTo(calls, client, latest) && Exceeded(cfg, calls + [Check(client, late)], client)) <==>
              late < latest && cfg.window >= 1
  {
    if late < latest && cfg.window >= 1 {
      LateCheckExceeds(cfg, client, latest, late);
    }
    forall calls | ForwardTo(calls, client, latest) && !(late < latest && cfg.window >= 1)
      ensures !Exceeded(cfg, calls + [Check(client, late)], client)
    {
      forall start ensures |Within(cfg, Accepted(cfg, calls + [Check(client, late)], client), start)| <= cfg.maxRequests {
        if cfg.window == 0 {
          WithinNoWindow(cfg, Accepted(cfg, calls + [Check(client, late)], client), start);
        } else {
          ForwardStaysForward(calls, client, latest, late);
          AtMostLimitPerWindow(cfg, calls + [Check(client, late)], client, start);
        }
      }
    }
  }

  lemma {:induction false} WithinNoWindow(cfg: Config, ts: seq<Instant>, start: Instant)
    requires cfg.window == 0
    ensures Within(cfg, ts, start) == []
  {
    if ts != [] {
      WithinNoWindow(cfg, ts[..|ts| - 1], start);
    }
  }

  lemma ForwardStaysForward(calls: seq<Call>, client: string, latest: Instant, late: Instant)
    requires ForwardTo(calls, client, latest) && latest <= late
    ensures ClockGoesForward(calls + [Check(client, late)], client)
  {
    var all := calls + [Check(client, late)];
    forall i, j | 0 <= i < j < |all| && all[i].client == client == all[j].client ensures all[i].now <= all[j].now {
      if j == |calls| {
        assert i < |calls| - 1 ==> calls[i].now <= calls[|calls| - 1].now;
      }
    }
  }
}
