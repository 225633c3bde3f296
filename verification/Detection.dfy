/**
  The two Nginx detectors: consecutive 404 responses within a window anchored at the first
  of them, and authentication failures within a sliding window.  Instants and windows are
  integers (microseconds, the resolution of the database columns).
 */
module Detection {
  import opened MailLog
  import opened MailTable

  const NOT_FOUND: int := 404

  datatype NginxEvent = NginxEvent(ts: int, remoteIp: string, path: string, status: int, raw: string)

  datatype Config = Config(
    consecutiveThreshold: int,
    consecutiveWindow: int,
    authThreshold: int,
    authWindow: int,
    ignoredPaths: set<string>)

  /** A row of nginx_ip_detection_state. */
  datatype IpState = IpState(consecutive: int, streakStart: Option<int>, lastSeen: int, lastStatus: int)

  datatype Reason = Consecutive404 | AuthenticationFailures

  /** A row of security_offenders. */
  datatype Offender = Offender(reason: Reason, firstSeen: int, lastSeen: int, attempts: int, lastPath: string)

  datatype Tables = Tables(
    events: seq<NginxEvent>,
    states: map<string, IpState>,
    offenders: map<string, Offender>)

  const NO_TABLES: Tables := Tables([], map[], map[])

  datatype Flag = Flag(reason: Reason, attempts: int)

  predicate AuthFailure(e: NginxEvent) { e.status == 401 || e.status == 403 }

  predicate Suspicious(e: NginxEvent) { AuthFailure(e) || e.status == NOT_FOUND }

  /** Whether the event reaches the detectors at all. */
  predicate Counted(cfg: Config, e: NginxEvent) {
    e.status != NOT_FOUND || e.path !in cfg.ignoredPaths
  }

  // ---- one IP address ----

  /** The streak goes on: the last status was 404, time did not run back, the window is open. */
  predicate Continues(row: IpState, ts: int, window: int) {
    row.lastStatus == NOT_FOUND && ts >= row.lastSeen && row.streakStart.Some? && ts <= row.streakStart.value + window
  }

  /** The state of an IP after one more counted event of its own. */
  function NextState(row: Option<IpState>, e: NginxEvent, window: int): Option<IpState> {
    if e.status == NOT_FOUND then
      if row.Some? && Continues(row.value, e.ts, window)
      then Some(IpState(row.value.consecutive + 1, row.value.streakStart, e.ts, e.status))
      else Some(IpState(1, Some(e.ts), e.ts, e.status))
    else if row.Some? then Some(IpState(0, None, e.ts, e.status))
    else None
  }

  /** The state its counted events leave an IP in. */
  function StateAfter(own: seq<NginxEvent>, window: int): Option<IpState> {
    if own == [] then None else NextState(StateAfter(own[..|own| - 1], window), own[|own| - 1], window)
  }

  function Streak(own: seq<NginxEvent>, window: int): int {
    var row := StateAfter(own, window);
    if row.Some? then row.value.consecutive else 0
  }

  // ---- the tables ----

  function RowOf(states: map<string, IpState>, ip: string): Option<IpState> {
    if ip in states then Some(states[ip]) else None
  }

  function InWindow(e: NginxEvent, ip: string, from: int, to: int): int {
    if e.remoteIp == ip && AuthFailure(e) && from <= e.ts <= to then 1 else 0
  }

  /** COUNT(*) of the address's authentication failures between two instants. */
  function AuthCount(events: seq<NginxEvent>, ip: string, from: int, to: int): nat {
    if events == [] then 0
    else AuthCount(events[..|events| - 1], ip, from, to) + InWindow(events[|events| - 1], ip, from, to)
  }

  function Stored(events: seq<NginxEvent>, e: NginxEvent): seq<NginxEvent> {
    if Suspicious(e) then events + [e] else events
  }

  /** The detection table after an event that reaches the detectors. */
  function Detect(states: map<string, IpState>, e: NginxEvent, window: int): map<string, IpState> {
    var row := NextState(RowOf(states, e.remoteIp), e, window);
    if row.Some? then states[e.remoteIp := row.value] else states
  }

  /** The verdict on such an event, with `events` stored and `states` as before it. */
  function VerdictOn(events: seq<NginxEvent>, states: map<string, IpState>, e: NginxEvent, cfg: Config): Option<Flag> {
    if e.status == NOT_FOUND then
      var row := NextState(RowOf(states, e.remoteIp), e, cfg.consecutiveWindow);
      if row.value.consecutive >= cfg.consecutiveThreshold
      then Some(Flag(Consecutive404, row.value.consecutive)) else None
    else if AuthFailure(e) then
      var attempts := AuthCount(events, e.remoteIp, e.ts - cfg.authWindow, e.ts);
      if attempts >= cfg.authThreshold then Some(Flag(AuthenticationFailures, attempts)) else None
    else None
  }

  /** The verdict on any event, from the tables before it. */
  function Verdict(t: Tables, e: NginxEvent, cfg: Config): Option<Flag> {
    if Counted(cfg, e) then VerdictOn(Stored(t.events, e), t.states, e, cfg) else None
  }

  function Offenders(offenders: map<string, Offender>, e: NginxEvent, flag: Option<Flag>): map<string, Offender> {
    if flag.None? then offenders
    else
      var first := if e.remoteIp in offenders then offenders[e.remoteIp].firstSeen else e.ts;
      offenders[e.remoteIp := Offender(flag.value.reason, first, e.ts, flag.value.attempts, e.path)]
  }

  function Record(t: Tables, e: NginxEvent, cfg: Config): Tables {
    Tables(Stored(t.events, e),
           if Counted(cfg, e) then Detect(t.states, e, cfg.consecutiveWindow) else t.states,
           Offenders(t.offenders, e, Verdict(t, e, cfg)))
  }

  /** The tables after a log, from empty ones. */
  function After(log: seq<NginxEvent>, cfg: Config): Tables {
    if log == [] then NO_TABLES else Record(After(log[..|log| - 1], cfg), log[|log| - 1], cfg)
  }

  /** The verdict reached when event `k` of the log was recorded. */
  function VerdictAt(log: seq<NginxEvent>, k: nat, cfg: Config): Option<Flag>
    requires k < |log|
  {
    Verdict(After(log[..k], cfg), log[k], cfg)
  }

  // ---- each address on its own ----

  predicate OwnEvent(cfg: Config, e: NginxEvent, ip: string) {
    e.remoteIp == ip && (e.status == 404 ==> e.path !in cfg.ignoredPaths)
  }

  /** The counted events of one address. */
  function Own(log: seq<NginxEvent>, ip: string, cfg: Config): seq<NginxEvent> {
    if log == [] then []
    else Own(log[..|log| - 1], ip, cfg) + if OwnEvent(cfg, log[|log| - 1], ip) then [log[|log| - 1]] else []
  }

  lemma StateSnoc(own: seq<NginxEvent>, e: NginxEvent, window: int)
    ensures StateAfter(own + [e], window) == NextState(StateAfter(own, window), e, window)
  {
    assert (own + [e])[..|own|] == own;
  }

  /** The stored state of an address is a function of its own counted events alone. */
  lemma {:induction false} StateIsOwn(log: seq<NginxEvent>, ip: string, cfg: Config)
    ensures RowOf(After(log, cfg).states, ip) == StateAfter(Own(log, ip, cfg), cfg.consecutiveWindow)
  {
    if log != [] {
      var init, e := log[..|log| - 1], log[|log| - 1];
      StateIsOwn(init, ip, cfg);
      if OwnEvent(cfg, e, ip) {
        StateSnoc(Own(init, ip, cfg), e, cfg.consecutiveWindow);
      } else {
        assert Own(log, ip, cfg) == Own(init, ip, cfg);
      }
    }
  }

  /** A counted 404 is flagged exactly when its address's streak has reached the threshold. */
  lemma Flag404Iff(log: seq<NginxEvent>, k: nat, cfg: Config)
    requires k < |log| && log[k].status == NOT_FOUND && Counted(cfg, log[k])
    ensures var streak := Streak(Own(log[..k + 1], log[k].remoteIp, cfg), cfg.consecutiveWindow);
      VerdictAt(log, k, cfg) ==
        if streak >= cfg.consecutiveThreshold then Some(Flag(Consecutive404, streak)) else None
  {
    var ip := log[k].remoteIp;
    StateIsOwn(log[..k], ip, cfg);
    assert log[..k + 1][..k] == log[..k] && log[..k + 1][k] == log[k];
    StateSnoc(Own(log[..k], ip, cfg), log[k], cfg.consecutiveWindow);
    assert Own(log[..k + 1], ip, cfg) == Own(log[..k], ip, cfg) + [log[k]];
  }

  // ---- soundness ----

  predicate All404(es: seq<NginxEvent>) {
    forall i :: 0 <= i < |es| ==> es[i].status == 404
  }

  predicate Ordered(es: seq<NginxEvent>) {
    forall i, j :: 0 <= i < j < |es| ==> es[i].ts <= es[j].ts
  }

  /** `es` is a run of 404s in time order, no later than the window after its first. */
  predicate Burst(es: seq<NginxEvent>, window: int) {
    All404(es) && Ordered(es) && (es != [] ==> es[|es| - 1].ts <= es[0].ts + window)
  }

  /** What a stored row says about the events that produced it. */
  predicate RowMeans(row: IpState, own: seq<NginxEvent>, window: int) {
    && own != [] && row.lastSeen == own[|own| - 1].ts && row.lastStatus == own[|own| - 1].status
    && 0 <= row.consecutive <= |own|
    && (row.consecutive == 0 <==> row.lastStatus != NOT_FOUND)
    && (row.consecutive == 0 ==> row.streakStart == None)
    && (row.consecutive > 0 ==>
          var run := own[|own| - row.consecutive..];
          Burst(run, window) && row.streakStart == Some(run[0].ts))
  }

  lemma {:induction false} StateMeans(own: seq<NginxEvent>, window: int)
    requires window >= 0
    ensures StateAfter(own, window).Some? <==> exists i :: 0 <= i < |own| && own[i].status == 404
    ensures StateAfter(own, window).Some? ==> RowMeans(StateAfter(own, window).value, own, window)
  {
    if own != [] {
      var n := |own| - 1;
      var init, e := own[..n], own[n];
      StateMeans(init, window);
      var before := StateAfter(init, window);
      if e.status == NOT_FOUND && before.Some? && Continues(before.value, e.ts, window) {
        ExtendBurst(own, before.value, window);
      } else if e.status == NOT_FOUND {
        assert own[n..] == [e];
      }
    }
  }

  lemma ExtendBurst(own: seq<NginxEvent>, row: IpState, window: int)
    requires own != [] && RowMeans(row, own[..|own| - 1], window)
    requires own[|own| - 1].status == NOT_FOUND && Continues(row, own[|own| - 1].ts, window)
    ensures var run := own[|own| - 1 - row.consecutive..];
      Burst(run, window) && row.streakStart == Some(run[0].ts)
  {
    var n := |own| - 1;
    var init := own[..n];
    var shorter := init[n - row.consecutive..];
    var run := own[n - row.consecutive..];
    assert run == shorter + [own[n]];
    assert run[0] == shorter[0];
    assert shorter[|shorter| - 1].ts == row.lastSeen;
  }

  /**
    Soundness: a consecutive-404 flag is backed by as many counted 404s of that address as it
    reports, at least the threshold, in time order and within the window of the first; no
    other event of the address lies between them.
   */
  lemma Flag404IsBacked(log: seq<NginxEvent>, k: nat, cfg: Config)
    requires k < |log| && cfg.consecutiveWindow >= 0 && cfg.consecutiveThreshold > 0
    requires VerdictAt(log, k, cfg).Some? && VerdictAt(log, k, cfg).value.reason == Consecutive404
    ensures var own := Own(log[..k + 1], log[k].remoteIp, cfg);
      var n := VerdictAt(log, k, cfg).value.attempts;
      && cfg.consecutiveThreshold <= n <= |own|
      && Burst(own[|own| - n..], cfg.consecutiveWindow)
  {
    Flag404Iff(log, k, cfg);
    StateMeans(Own(log[..k + 1], log[k].remoteIp, cfg), cfg.consecutiveWindow);
  }

  // ---- completeness ----

  /** How many of the first events lie no later than `limit`. */
  function Leading(es: seq<NginxEvent>, limit: int): (m: nat)
    ensures m <= |es|
    ensures forall i :: 0 <= i < m ==> es[i].ts <= limit
    ensures m < |es| ==> es[m].ts > limit
  {
    if es == [] || es[0].ts > limit then 0 else 1 + Leading(es[1..], limit)
  }

  /** The streak a first event at `ts` would extend: its length, or 0 if it would start anew. */
  function LiveStreak(row: Option<IpState>, ts: int, window: int): int {
    if row.Some? && Continues(row.value, ts, window) then row.value.consecutive else 0
  }

  /** How many events of the burst extend the streak that was live before it. */
  function Carried(row: Option<IpState>, burst: seq<NginxEvent>, window: int): nat
    requires burst != []
  {
    if row.Some? && Continues(row.value, burst[0].ts, window)
    then Leading(burst, row.value.streakStart.value + window) else 0
  }

  /**
    The streak after each event of a burst, exactly: the events still inside the old window
    extend the old streak, the first one outside starts a new streak, and from there on every
    event of the burst counts.
   */
  lemma {:induction false} StreakDuringBurst(prefix: seq<NginxEvent>, burst: seq<NginxEvent>, window: int, k: nat)
    requires burst != [] && Burst(burst, window) && 1 <= k <= |burst|
    ensures var before := StateAfter(prefix, window);
      var m := Carried(before, burst, window);
      StateAfter(prefix + burst[..k], window) == Some(
        if k <= m then IpState(before.value.consecutive + k, before.value.streakStart, burst[k - 1].ts, NOT_FOUND)
        else IpState(k - m, Some(burst[m].ts), burst[k - 1].ts, NOT_FOUND))
  {
    var before := StateAfter(prefix, window);
    var m := Carried(before, burst, window);
    assert prefix + burst[..k] == (prefix + burst[..k - 1]) + [burst[k - 1]];
    StateSnoc(prefix + burst[..k - 1], burst[k - 1], window);
    if k == 1 {
      assert prefix + burst[..0] == prefix;
    } else {
      StreakDuringBurst(prefix, burst, window, k - 1);
      assert burst[k - 2].ts <= burst[k - 1].ts;
      assert burst[k - 1].ts <= burst[|burst| - 1].ts;
      assert m == |burst| || burst[0].ts <= burst[m].ts;
    }
  }

  /** Some event of the burst brings the streak to the threshold. */
  predicate Reaches(prefix: seq<NginxEvent>, burst: seq<NginxEvent>, window: int, threshold: int) {
    exists k :: 1 <= k <= |burst| && Streak(prefix + burst[..k], window) >= threshold
  }

  /**
    Exactly which bursts are flagged, for any earlier events: those whose carried part tops up
    the live streak to the threshold, or whose remainder alone is as long as the threshold.
   */
  lemma ReachesIff(prefix: seq<NginxEvent>, burst: seq<NginxEvent>, window: int, threshold: int)
    requires burst != [] && Burst(burst, window) && threshold > 0
    ensures var before := StateAfter(prefix, window);
      var m := Carried(before, burst, window);
      Reaches(prefix, burst, window, threshold) <==>
        (m > 0 && LiveStreak(before, burst[0].ts, window) + m >= threshold) || |burst| - m >= threshold
  {
    var before := StateAfter(prefix, window);
    var m := Carried(before, burst, window);
    if m > 0 {
      StreakDuringBurst(prefix, burst, window, m);
    }
    StreakDuringBurst(prefix, burst, window, |burst|);
    if Reaches(prefix, burst, window, threshold) {
      var k :| 1 <= k <= |burst| && Streak(prefix + burst[..k], window) >= threshold;
      StreakDuringBurst(prefix, burst, window, k);
    }
  }

  /**
    Completeness with its real bound: 2T - 2 such events (one, when T is 1) always flag,
    whatever came before.
   */
  lemma LongBurstReaches(prefix: seq<NginxEvent>, burst: seq<NginxEvent>, window: int, threshold: int)
    requires threshold > 0 && window >= 0 && burst != [] && Burst(burst, window) && |burst| >= 2 * threshold - 2
    ensures Reaches(prefix, burst, window, threshold)
  {
    var k := LongBurstPoint(prefix, burst, window, threshold);
  }

  /** The event at which it does. */
  lemma LongBurstPoint(prefix: seq<NginxEvent>, burst: seq<NginxEvent>, window: int, threshold: int) returns (k: nat)
    requires threshold > 0 && window >= 0 && burst != [] && Burst(burst, window) && |burst| >= 2 * threshold - 2
    ensures 1 <= k <= |burst| && Streak(prefix + burst[..k], window) >= threshold
  {
    var m := Carried(StateAfter(prefix, window), burst, window);
    k := if 1 <= threshold - 1 <= m then threshold - 1 else |burst|;
    StateMeans(prefix, window);
    StreakDuringBurst(prefix, burst, window, k);
  }

  /**
    The promise that T such events flag is not kept: it holds exactly when the first of them
    extends no live streak, or that streak plus the events still in its window reach T.
   */
  lemma ThresholdBurstIff(prefix: seq<NginxEvent>, burst: seq<NginxEvent>, window: int, threshold: int)
    requires threshold > 0 && Burst(burst, window) && |burst| == threshold
    ensures var before := StateAfter(prefix, window);
      var m := Carried(before, burst, window);
      Reaches(prefix, burst, window, threshold) <==>
        m == 0 || LiveStreak(before, burst[0].ts, window) + m >= threshold
  {
    ReachesIff(prefix, burst, window, threshold);
  }

  function Hit(ts: int): NginxEvent { NginxEvent(ts, "192.0.2.1", "/scan", NOT_FOUND, "") }

  /** One 404 at 0, then T - 2 of them as its window closes and T - 1 right after. */
  function Straddling(threshold: int, window: int): (burst: seq<NginxEvent>)
    requires threshold >= 2
    ensures |burst| == 2 * threshold - 3
    ensures forall i :: 0 <= i < |burst| ==> burst[i] == Hit(if i < threshold - 2 then window else window + 1)
  {
    seq(threshold - 2, _ => Hit(window)) + seq(threshold - 1, _ => Hit(window + 1))
  }

  /** The bound is sharp: for every threshold, 2T - 3 events within the window may go unflagged. */
  lemma BoundIsSharp(threshold: int, window: int)
    requires threshold >= 2 && window >= 1
    ensures var burst := Straddling(threshold, window);
      && |burst| == 2 * threshold - 3 && Burst(burst, window)
      && !Reaches([Hit(0)], burst, window, threshold)
  {
    var burst := Straddling(threshold, window);
    var first := [Hit(0)];
    StateSnoc([], Hit(0), window);
    assert [] + [Hit(0)] == first;
    var before := StateAfter(first, window);
    assert before == Some(IpState(1, Some(0), 0, NOT_FOUND));
    assert Burst(burst, window);
    ReachesIff(first, burst, window, threshold);
    var m := Carried(before, burst, window);
    if threshold > 2 {
      assert burst[threshold - 3].ts == window;
    }
    assert burst[threshold - 2].ts == window + 1;
    assert m == threshold - 2;
  }

  // ---- from an address's events back to the log ----

  /** The `k`-th counted event of an address has a place in the log. */
  lemma {:induction false} PlaceOf(log: seq<NginxEvent>, ip: string, cfg: Config, k: nat) returns (place: nat)
    requires k < |Own(log, ip, cfg)|
    ensures place < |log| && log[place] == Own(log, ip, cfg)[k] && OwnEvent(cfg, log[place], ip)
    ensures Own(log[..place + 1], ip, cfg) == Own(log, ip, cfg)[..k + 1]
    decreases |log|
  {
    var n := |log| - 1;
    var init, own := log[..n], Own(log, ip, cfg);
    var before := Own(init, ip, cfg);
    if k < |before| {
      place := PlaceOf(init, ip, cfg, k);
      assert init[..place + 1] == log[..place + 1];
      assert before[..k + 1] == own[..k + 1];
    } else {
      place := n;
      assert log[..n + 1] == log;
      assert own[..k + 1] == own;
    }
  }

  predicate Flagged404(log: seq<NginxEvent>, k: nat, cfg: Config)
    requires k < |log|
  {
    VerdictAt(log, k, cfg).Some? && VerdictAt(log, k, cfg).value.reason == Consecutive404
  }

  /**
    In any log, once an address has 2T - 2 counted events in a row that form a burst, it is
    flagged at one of them, whatever its earlier events and whatever traffic of other
    addresses and ignored paths is interleaved.
   */
  lemma BurstIsFlagged(log: seq<NginxEvent>, ip: string, cfg: Config, from: nat, to: nat) returns (k: nat, place: nat)
    requires cfg.consecutiveThreshold > 0 && cfg.consecutiveWindow >= 0
    requires from < to <= |Own(log, ip, cfg)| && to - from >= 2 * cfg.consecutiveThreshold - 2
    requires Burst(Own(log, ip, cfg)[from..to], cfg.consecutiveWindow)
    ensures from <= k < to && place < |log| && log[place] == Own(log, ip, cfg)[k]
    ensures Own(log[..place + 1], ip, cfg) == Own(log, ip, cfg)[..k + 1]
    ensures Flagged404(log, place, cfg)
  {
    k := BurstPoint(Own(log, ip, cfg), from, to, cfg.consecutiveWindow, cfg.consecutiveThreshold);
    place := StreakIsFlagged(log, ip, cfg, k);
  }

  lemma BurstPoint(own: seq<NginxEvent>, from: nat, to: nat, window: int, threshold: int) returns (k: nat)
    requires threshold > 0 && window >= 0 && from < to <= |own| && to - from >= 2 * threshold - 2
    requires Burst(own[from..to], window)
    ensures from <= k < to && own[k].status == NOT_FOUND && Streak(own[..k + 1], window) >= threshold
  {
    var j := LongBurstPoint(own[..from], own[from..to], window, threshold);
    k := from + j - 1;
    CutAndJoin(own, from, to, j);
    assert own[from..to][j - 1].status == NOT_FOUND;
  }

  lemma CutAndJoin(own: seq<NginxEvent>, from: nat, to: nat, j: nat)
    requires from <= to <= |own| && 1 <= j <= to - from
    ensures own[..from] + own[from..to][..j] == own[..from + j]
    ensures own[from..to][j - 1] == own[from + j - 1]
  {
  }

  lemma StreakIsFlagged(log: seq<NginxEvent>, ip: string, cfg: Config, k: nat) returns (place: nat)
    requires var own := Own(log, ip, cfg);
      && k < |own| && own[k].status == NOT_FOUND
      && Streak(own[..k + 1], cfg.consecutiveWindow) >= cfg.consecutiveThreshold
    ensures place < |log| && log[place] == Own(log, ip, cfg)[k] && Flagged404(log, place, cfg)
    ensures Own(log[..place + 1], ip, cfg) == Own(log, ip, cfg)[..k + 1]
  {
    place := PlaceOf(log, ip, cfg, k);
    Flag404Iff(log, place, cfg);
  }

  // ---- authentication failures ----

  /** The positions of an address's authentication failures between two instants. */
  function Failures(log: seq<NginxEvent>, ip: string, from: int, to: int): set<nat> {
    set i: nat | i < |log| && log[i].remoteIp == ip && (log[i].status == 401 || log[i].status == 403)
                 && from <= log[i].ts <= to
  }

  lemma {:induction false} CountIsFailures(log: seq<NginxEvent>, ip: string, from: int, to: int)
    ensures AuthCount(log, ip, from, to) == |Failures(log, ip, from, to)|
  {
    if log == [] {
      assert Failures(log, ip, from, to) == {};
    } else {
      var n := |log| - 1;
      var init := log[..n];
      CountIsFailures(init, ip, from, to);
      var before := Failures(init, ip, from, to);
      assert forall i :: 0 <= i < n ==> init[i] == log[i];
      if InWindow(log[n], ip, from, to) == 1 {
        assert Failures(log, ip, from, to) == before + {n};
      } else {
        assert Failures(log, ip, from, to) == before;
      }
    }
  }

  /** The event table loses nothing the count could see. */
  lemma {:induction false} TableCounts(log: seq<NginxEvent>, ip: string, from: int, to: int, cfg: Config)
    ensures AuthCount(After(log, cfg).events, ip, from, to) == AuthCount(log, ip, from, to)
  {
    if log != [] {
      var init, e := log[..|log| - 1], log[|log| - 1];
      TableCounts(init, ip, from, to, cfg);
      var events := After(init, cfg).events;
      if Suspicious(e) {
        assert (events + [e])[..|events|] == events;
      }
    }
  }

  /**
    Exact sliding window: an authentication failure is flagged if and only if at least T of
    the address's failures so far, itself included, lie in the closed window that ends at it.
   */
  lemma AuthFlagIff(log: seq<NginxEvent>, k: nat, cfg: Config)
    requires k < |log| && (log[k].status == 401 || log[k].status == 403)
    ensures var e := log[k];
      var attempts := |Failures(log[..k + 1], e.remoteIp, e.ts - cfg.authWindow, e.ts)|;
      VerdictAt(log, k, cfg) ==
        if attempts >= cfg.authThreshold then Some(Flag(AuthenticationFailures, attempts)) else None
  {
    AuthVerdict(After(log[..k], cfg), log[k], cfg);
    CountAt(log, k, log[k].remoteIp, log[k].ts - cfg.authWindow, log[k].ts, cfg);
  }

  lemma AuthVerdict(t: Tables, e: NginxEvent, cfg: Config)
    requires e.status == 401 || e.status == 403
    ensures var attempts := AuthCount(Stored(t.events, e), e.remoteIp, e.ts - cfg.authWindow, e.ts);
      Verdict(t, e, cfg) ==
        if attempts >= cfg.authThreshold then Some(Flag(AuthenticationFailures, attempts)) else None
  {
  }

  /** What the count sees when event `k` has just been stored. */
  lemma CountAt(log: seq<NginxEvent>, k: nat, ip: string, from: int, to: int, cfg: Config)
    requires k < |log|
    ensures AuthCount(Stored(After(log[..k], cfg).events, log[k]), ip, from, to)
         == |Failures(log[..k + 1], ip, from, to)|
  {
    var upTo := log[..k + 1];
    TableCounts(upTo, ip, from, to, cfg);
    CountIsFailures(upTo, ip, from, to);
    AfterNext(log, k, cfg);
  }

  lemma AfterNext(log: seq<NginxEvent>, k: nat, cfg: Config)
    requires k < |log|
    ensures After(log[..k + 1], cfg) == Record(After(log[..k], cfg), log[k], cfg)
  {
    assert log[..k + 1][..k] == log[..k];
  }

  /**
    Soundness: an authentication flag falls on a 401 or 403, and it reports exactly the 401s
    and 403s of that address so far that lie in the closed window ending at it, at least T.
   */
  lemma AuthFlagIsBacked(log: seq<NginxEvent>, k: nat, cfg: Config)
    requires k < |log| && VerdictAt(log, k, cfg).Some?
    requires VerdictAt(log, k, cfg).value.reason == AuthenticationFailures
    ensures log[k].status == 401 || log[k].status == 403
    ensures VerdictAt(log, k, cfg).value.attempts >= cfg.authThreshold
    ensures VerdictAt(log, k, cfg).value.attempts == |FailuresUpTo(log, k, cfg.authWindow)|
  {
    AuthReason(After(log[..k], cfg), log[k], cfg);
    AuthFlagIff(log, k, cfg);
    FailuresInPrefix(log, k, cfg.authWindow);
  }

  /** The positions up to `k` of the failures of the address of event `k` in the window ending at it. */
  function FailuresUpTo(log: seq<NginxEvent>, k: nat, window: int): set<nat>
    requires k < |log|
  {
    set i: nat | i <= k && log[i].remoteIp == log[k].remoteIp && (log[i].status == 401 || log[i].status == 403)
                 && log[k].ts - window <= log[i].ts <= log[k].ts
  }

  lemma FailuresInPrefix(log: seq<NginxEvent>, k: nat, window: int)
    requires k < |log|
    ensures FailuresUpTo(log, k, window)
         == Failures(log[..k + 1], log[k].remoteIp, log[k].ts - window, log[k].ts)
  {
    assert forall i :: 0 <= i <= k ==> log[..k + 1][i] == log[i];
  }

  /** Nothing else is ever flagged: no other status, and no 404 on an ignored path. */
  lemma OthersAreNotFlagged(log: seq<NginxEvent>, k: nat, cfg: Config)
    requires k < |log|
    requires if log[k].status == 404 then log[k].path in cfg.ignoredPaths
             else log[k].status != 401 && log[k].status != 403
    ensures VerdictAt(log, k, cfg) == None
  {
    NoVerdict(After(log[..k], cfg), log[k], cfg);
  }

  lemma NoVerdict(t: Tables, e: NginxEvent, cfg: Config)
    requires if e.status == 404 then e.path in cfg.ignoredPaths else e.status != 401 && e.status != 403
    ensures Verdict(t, e, cfg) == None
  {
  }

  lemma AuthReason(t: Tables, e: NginxEvent, cfg: Config)
    ensures var v := Verdict(t, e, cfg);
      v.Some? && v.value.reason == AuthenticationFailures ==> e.status == 401 || e.status == 403
  {
  }

  /**
    Hence any T failures of an address that span at most the window flag it no later than the
    last of them, whatever is interleaved, as long as none of them is stamped after the last.
   */
  lemma FailuresAreFlagged(log: seq<NginxEvent>, ip: string, cfg: Config, places: set<nat>, last: nat)
    requires |places| >= cfg.authThreshold && last in places
    requires forall i :: i in places ==> i <= last < |log| && log[i].remoteIp == ip && AuthFailure(log[i])
    requires forall i :: i in places ==> log[i].ts <= log[last].ts <= log[i].ts + cfg.authWindow
    ensures VerdictAt(log, last, cfg).Some? && VerdictAt(log, last, cfg).value.reason == AuthenticationFailures
  {
    var found := PlacesInPrefix(log, ip, cfg.authWindow, places, last);
    SubsetSize(places, found);
    EnoughFailures(log, last, cfg, found);
  }

  lemma EnoughFailures(log: seq<NginxEvent>, k: nat, cfg: Config, found: set<nat>)
    requires k < |log| && AuthFailure(log[k]) && |found| >= cfg.authThreshold
    requires found == Failures(log[..k + 1], log[k].remoteIp, log[k].ts - cfg.authWindow, log[k].ts)
    ensures VerdictAt(log, k, cfg).Some? && VerdictAt(log, k, cfg).value.reason == AuthenticationFailures
  {
    AuthFlagIff(log, k, cfg);
  }

  lemma PlacesInPrefix(log: seq<NginxEvent>, ip: string, window: int, places: set<nat>, last: nat)
    returns (found: set<nat>)
    requires last < |log|
    requires forall i :: i in places ==> i <= last && log[i].remoteIp == ip && AuthFailure(log[i])
    requires forall i :: i in places ==> log[i].ts <= log[last].ts <= log[i].ts + window
    ensures found == Failures(log[..last + 1], ip, log[last].ts - window, log[last].ts)
    ensures places <= found
  {
    var upTo := log[..last + 1];
    forall i | i in places ensures i < |upTo| && upTo[i] == log[i] {
    }
    found := Failures(upTo, ip, log[last].ts - window, log[last].ts);
    PlacesAreFailures(upTo, ip, places, log[last].ts - window, log[last].ts);
  }

  lemma PlacesAreFailures(log: seq<NginxEvent>, ip: string, places: set<nat>, from: int, to: int)
    requires forall i :: i in places ==>
      i < |log| && log[i].remoteIp == ip && AuthFailure(log[i]) && from <= log[i].ts <= to
    ensures places <= Failures(log, ip, from, to)
  {
  }

  lemma {:induction false} SubsetSize(a: set<nat>, b: set<nat>)
    requires a <= b
    ensures |a| <= |b|
  {
    assert b == a + (b - a);
  }

  // ---- what is kept and what is passed over ----

  /** The events worth keeping: authentication failures and missing pages. */
  function Kept(log: seq<NginxEvent>): seq<NginxEvent> {
    if log == [] then []
    else
      var e := log[|log| - 1];
      Kept(log[..|log| - 1]) + if e.status == 401 || e.status == 403 || e.status == 404 then [e] else []
  }

  /** The event table is that part of the log, in its order, ignored paths included. */
  lemma {:induction false} EventsAreKept(log: seq<NginxEvent>, cfg: Config)
    ensures After(log, cfg).events == Kept(log)
  {
    if log != [] {
      EventsAreKept(log[..|log| - 1], cfg);
    }
  }

  /** The log without the 404s on ignored paths. */
  function Heeded(log: seq<NginxEvent>, cfg: Config): seq<NginxEvent> {
    if log == [] then []
    else
      var e := log[|log| - 1];
      Heeded(log[..|log| - 1], cfg) + if e.status == 404 && e.path in cfg.ignoredPaths then [] else [e]
  }

  lemma AuthCountSnoc(events: seq<NginxEvent>, e: NginxEvent, ip: string, from: int, to: int)
    ensures AuthCount(events + [e], ip, from, to) == AuthCount(events, ip, from, to) + InWindow(e, ip, from, to)
  {
    assert (events + [e])[..|events|] == events;
  }

  lemma {:induction false} HeededCounts(log: seq<NginxEvent>, cfg: Config, ip: string, from: int, to: int)
    ensures AuthCount(Heeded(log, cfg), ip, from, to) == AuthCount(log, ip, from, to)
  {
    if log != [] {
      var init, e := log[..|log| - 1], log[|log| - 1];
      HeededCounts(init, cfg, ip, from, to);
      if e.status == 404 && e.path in cfg.ignoredPaths {
        assert Heeded(log, cfg) == Heeded(init, cfg);
      } else {
        AuthCountSnoc(Heeded(init, cfg), e, ip, from, to);
      }
    }
  }

  /** Both tables of events give every count alike. */
  ghost predicate SameCounts(a: seq<NginxEvent>, b: seq<NginxEvent>) {
    forall ip, from, to :: AuthCount(a, ip, from, to) == AuthCount(b, ip, from, to)
  }

  lemma SameCountsStored(a: seq<NginxEvent>, b: seq<NginxEvent>, e: NginxEvent)
    requires SameCounts(a, b)
    ensures SameCounts(Stored(a, e), Stored(b, e))
  {
    if Suspicious(e) {
      forall ip, from, to ensures AuthCount(a + [e], ip, from, to) == AuthCount(b + [e], ip, from, to) {
        AuthCountSnoc(a, e, ip, from, to);
        AuthCountSnoc(b, e, ip, from, to);
      }
    }
  }

  lemma HeededSameCounts(log: seq<NginxEvent>, cfg: Config)
    ensures SameCounts(After(log, cfg).events, After(Heeded(log, cfg), cfg).events)
  {
    forall ip, from, to
      ensures AuthCount(After(log, cfg).events, ip, from, to)
           == AuthCount(After(Heeded(log, cfg), cfg).events, ip, from, to)
    {
      TableCounts(log, ip, from, to, cfg);
      TableCounts(Heeded(log, cfg), ip, from, to, cfg);
      HeededCounts(log, cfg, ip, from, to);
    }
  }

  /** States and offenders alike, and counts alike. */
  ghost predicate SameDetection(a: Tables, b: Tables) {
    a.states == b.states && a.offenders == b.offenders && SameCounts(a.events, b.events)
  }

  lemma RecordAlike(a: Tables, b: Tables, e: NginxEvent, cfg: Config)
    requires SameDetection(a, b)
    ensures SameDetection(Record(a, e, cfg), Record(b, e, cfg))
  {
    SameCountsStored(a.events, b.events, e);
  }

  /** Missing pages on ignored paths leave no trace in the detection states or among the offenders. */
  lemma {:induction false} IgnoredLeaveNoTrace(log: seq<NginxEvent>, cfg: Config)
    ensures After(log, cfg).states == After(Heeded(log, cfg), cfg).states
    ensures After(log, cfg).offenders == After(Heeded(log, cfg), cfg).offenders
  {
    if log != [] {
      var init, e := log[..|log| - 1], log[|log| - 1];
      var heeded := Heeded(init, cfg);
      IgnoredLeaveNoTrace(init, cfg);
      HeededSameCounts(init, cfg);
      if e.status == 404 && e.path in cfg.ignoredPaths {
        assert Heeded(log, cfg) == heeded;
      } else {
        RecordAlike(After(init, cfg), After(heeded, cfg), e, cfg);
        assert (heeded + [e])[..|heeded|] == heeded;
      }
    }
  }

  // ---- the offender table ----

  /** All verdicts reached on a log, in order. */
  function Verdicts(log: seq<NginxEvent>, cfg: Config): (vs: seq<Option<Flag>>)
    ensures |vs| == |log|
  {
    seq(|log|, k requires 0 <= k < |log| => VerdictAt(log, k, cfg))
  }

  /** The offender table that events and their verdicts leave behind. */
  function OffendersFrom(log: seq<NginxEvent>, vs: seq<Option<Flag>>): map<string, Offender>
    requires |vs| == |log|
  {
    if log == [] then map[]
    else Offenders(OffendersFrom(log[..|log| - 1], vs[..|vs| - 1]), log[|log| - 1], vs[|vs| - 1])
  }

  lemma {:induction false} OffendersFromVerdicts(log: seq<NginxEvent>, cfg: Config)
    ensures After(log, cfg).offenders == OffendersFrom(log, Verdicts(log, cfg))
  {
    if log != [] {
      var n := |log| - 1;
      OffendersFromVerdicts(log[..n], cfg);
      VerdictsPrefix(log, n, cfg);
      assert Verdicts(log, cfg)[n] == Verdict(After(log[..n], cfg), log[n], cfg);
    }
  }

  lemma VerdictsPrefix(log: seq<NginxEvent>, n: nat, cfg: Config)
    requires n <= |log|
    ensures Verdicts(log, cfg)[..n] == Verdicts(log[..n], cfg)
  {
    forall k | 0 <= k < n ensures Verdicts(log, cfg)[k] == Verdicts(log[..n], cfg)[k] {
      assert log[..n][..k] == log[..k];
    }
  }

  predicate FlaggedAt(log: seq<NginxEvent>, vs: seq<Option<Flag>>, k: nat, ip: string) {
    k < |log| && k < |vs| && log[k].remoteIp == ip && vs[k].Some?
  }

  /** An offender row tells of the first and of the latest flag of its address. */
  predicate OffenderMeans(log: seq<NginxEvent>, vs: seq<Option<Flag>>, ip: string, row: Offender,
                          first: nat, latest: nat) {
    && FlaggedAt(log, vs, first, ip) && FlaggedAt(log, vs, latest, ip)
    && (forall k :: 0 <= k < |log| && FlaggedAt(log, vs, k, ip) ==> first <= k <= latest)
    && row.firstSeen == log[first].ts && row.lastSeen == log[latest].ts && row.lastPath == log[latest].path
    && Flag(row.reason, row.attempts) == vs[latest].value
  }

  predicate NeverFlagged(log: seq<NginxEvent>, vs: seq<Option<Flag>>, ip: string) {
    forall k :: 0 <= k < |log| ==> !FlaggedAt(log, vs, k, ip)
  }

  lemma FlaggedInit(log: seq<NginxEvent>, vs: seq<Option<Flag>>, k: nat, ip: string)
    requires |vs| == |log| && k < |log| - 1
    ensures FlaggedAt(log[..|log| - 1], vs[..|log| - 1], k, ip) == FlaggedAt(log, vs, k, ip)
  {
  }

  lemma {:induction false} RowsTellFlags(log: seq<NginxEvent>, vs: seq<Option<Flag>>, ip: string)
    returns (first: nat, latest: nat)
    requires |vs| == |log|
    ensures ip !in OffendersFrom(log, vs) ==> NeverFlagged(log, vs, ip)
    ensures ip in OffendersFrom(log, vs) ==> OffenderMeans(log, vs, ip, OffendersFrom(log, vs)[ip], first, latest)
    decreases |log|
  {
    first, latest := 0, 0;
    if log != [] {
      var n := |log| - 1;
      var init, before := log[..n], vs[..n];
      first, latest := RowsTellFlags(init, before, ip);
      forall k | 0 <= k < n ensures FlaggedAt(init, before, k, ip) == FlaggedAt(log, vs, k, ip) {
        FlaggedInit(log, vs, k, ip);
      }
      if FlaggedAt(log, vs, n, ip) {
        latest := n;
        if ip !in OffendersFrom(init, before) {
          first := n;
        }
      }
    }
  }

  /** The offender table holds exactly the addresses flagged so far, each with its first and latest flag. */
  lemma OffendersAreFlagged(log: seq<NginxEvent>, ip: string, cfg: Config) returns (first: nat, latest: nat)
    ensures ip !in After(log, cfg).offenders ==> NeverFlagged(log, Verdicts(log, cfg), ip)
    ensures ip in After(log, cfg).offenders ==>
      OffenderMeans(log, Verdicts(log, cfg), ip, After(log, cfg).offenders[ip], first, latest)
  {
    OffendersFromVerdicts(log, cfg);
    first, latest := RowsTellFlags(log, Verdicts(log, cfg), ip);
  }

  // ---- the tables as mutable state ----

  class NginxStore {
    var events: seq<NginxEvent>
    var states: map<string, IpState>
    var offenders: map<string, Offender>
    var checkpoint: Option<Checkpoint>

    function Value(): Tables
      reads this
    {
      Tables(events, states, offenders)
    }

    constructor ()
      ensures Value() == NO_TABLES && checkpoint == None
    {
      events, states, offenders, checkpoint := [], map[], map[], None;
    }

    method FlagSecurityOffender(e: NginxEvent, reason: Reason, attempts: int)
      modifies this`offenders
      ensures offenders == Offenders(old(offenders), e, Some(Flag(reason, attempts)))
    {
      if e.remoteIp in offenders {
        var row := offenders[e.remoteIp];
        offenders := offenders[e.remoteIp :=
          row.(reason := reason, lastSeen := e.ts, attempts := attempts, lastPath := e.path)];
      } else {
        offenders := offenders[e.remoteIp := Offender(reason, e.ts, e.ts, attempts, e.path)];
      }
    }

    /** The upsert of a 404: RETURNING the streak. */
    method CountNotFound(e: NginxEvent, window: int) returns (consecutive: int)
      requires e.status == NOT_FOUND
      modifies this`states
      ensures var row := NextState(RowOf(old(states), e.remoteIp), e, window);
        row.Some? && states == old(states)[e.remoteIp := row.value] && consecutive == row.value.consecutive
    {
      var start := e.ts;
      consecutive := 1;
      if e.remoteIp in states {
        var row := states[e.remoteIp];
        if row.lastStatus == NOT_FOUND && e.ts >= row.lastSeen
           && row.streakStart.Some? && e.ts <= row.streakStart.value + window {
          consecutive, start := row.consecutive + 1, row.streakStart.value;
        }
      }
      states := states[e.remoteIp := IpState(consecutive, Some(start), e.ts, e.status)];
    }

    /** SELECT COUNT(*) over the stored events. */
    method CountAuthFailures(ip: string, from: int, to: int) returns (attempts: nat)
      ensures attempts == AuthCount(events, ip, from, to)
      ensures attempts == |Failures(events, ip, from, to)|
    {
      attempts := 0;
      var i := 0;
      while i < |events|
        invariant 0 <= i <= |events|
        invariant attempts == AuthCount(events[..i], ip, from, to)
      {
        assert events[..i + 1][..i] == events[..i];
        if events[i].remoteIp == ip && AuthFailure(events[i]) && from <= events[i].ts <= to {
          attempts := attempts + 1;
        }
        i := i + 1;
      }
      assert events[..i] == events;
      CountIsFailures(events, ip, from, to);
    }

    method UpdateNginxDetection(e: NginxEvent, cfg: Config)
      modifies this`states, this`offenders
      ensures states == Detect(old(states), e, cfg.consecutiveWindow)
      ensures offenders == Offenders(old(offenders), e, VerdictOn(events, old(states), e, cfg))
    {
      if e.status == NOT_FOUND {
        var consecutive := CountNotFound(e, cfg.consecutiveWindow);
        if consecutive >= cfg.consecutiveThreshold {
          FlagSecurityOffender(e, Consecutive404, consecutive);
        }
        return;
      }
      if e.remoteIp in states {
        states := states[e.remoteIp := IpState(0, None, e.ts, e.status)];
      }
      if AuthFailure(e) {
        var attempts := CountAuthFailures(e.remoteIp, e.ts - cfg.authWindow, e.ts);
        if attempts >= cfg.authThreshold {
          FlagSecurityOffender(e, AuthenticationFailures, attempts);
        }
      }
    }

    /** One database transaction per log line; a line that did not parse only moves the checkpoint. */
    method PersistNginxEvent(event: Option<NginxEvent>, offset: int, inode: int, cfg: Config)
      modifies this
      ensures checkpoint == Some(Checkpoint(offset, inode))
      ensures Value() == if event.Some? then Record(old(Value()), event.value, cfg) else old(Value())
    {
      if event.Some? {
        var e := event.value;
        if e.status == 401 || e.status == 403 || e.status == NOT_FOUND {
          events := events + [e];
        }
        if e.status != NOT_FOUND || e.path !in cfg.ignoredPaths {
          UpdateNginxDetection(e, cfg);
        }
      }
      checkpoint := Some(Checkpoint(offset, inode));
    }
  }
}
