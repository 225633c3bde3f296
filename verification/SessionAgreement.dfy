/**
  The two stitchers inside the running pipeline: what a session keeps in memory and prints
  follows from the records it committed, and agrees with the table it wrote.
 */
module SessionAgreement {
  import opened MailLog
  import opened MailTable
  import opened Pipeline
  import opened Placement
  import opened ExactlyOnce
  import opened IngestTheorems
  import opened StepFrames
  import S = Stitcher
  import A = Agreement

  /** Both sides as the session found them. */
  function AtStart(ss: Session): A.Sides { A.Sides(map[], [], ss.startRows) }

  /** Entries hold one line each; ticks list exactly the queues memory expires. */
  predicate TrailOp(start: A.Sides, before: seq<A.Op>, op: A.Op, idleTimeout: int) {
    match op
    case Feed(e, _, _) => e.HasLineText()
    case Tick(now, _, expired) => S.ListsExpired(A.Run(start, before, idleTimeout).queues, now, idleTimeout, expired)
  }

  predicate Trail(start: A.Sides, trail: seq<A.Op>, idleTimeout: int) {
    forall k :: 0 <= k < |trail| ==> TrailOp(start, trail[..k], trail[k], idleTimeout)
  }

  predicate TrailInv(cfg: Config, s: State) {
    && TableInv(s.db.rows)
    && (s.process.Up? ==>
          var ss := s.process.session;
          && TableInv(ss.startRows)
          && A.Run(AtStart(ss), ss.trail, cfg.idleTimeout) == A.Sides(ss.queues, ss.stdout, s.db.rows)
          && Trail(AtStart(ss), ss.trail, cfg.idleTimeout))
  }

  lemma TrailSnoc(start: A.Sides, trail: seq<A.Op>, op: A.Op, idleTimeout: int)
    requires Trail(start, trail, idleTimeout) && TrailOp(start, trail, op, idleTimeout)
    ensures Trail(start, trail + [op], idleTimeout)
    ensures A.Run(start, trail + [op], idleTimeout) == A.Step(A.Run(start, trail, idleTimeout), op, idleTimeout)
  {
    assert (trail + [op])[..|trail|] == trail;
    forall k | 0 <= k < |trail + [op]| ensures TrailOp(start, (trail + [op])[..k], (trail + [op])[k], idleTimeout) {
      if k < |trail| {
        assert (trail + [op])[..k] == trail[..k];
      }
    }
  }

  lemma NextText(cfg: Config, s: State)
    requires Inv(cfg, s) && s.process.Up? && s.process.session.nextSequence < |s.process.session.emitted|
    ensures '\n' !in s.process.session.emitted[s.process.session.nextSequence].text
  {
    var ss := s.process.session;
    var n := |SourcesOf(s.history)|;
    assert Stream(s)[n] == SourceOf(ss.emitted[ss.nextSequence]);
    StreamText(s.files, s.seen, Stream(s), n);
  }

  lemma ProcessTrail(cfg: Config, s: State, at: int, seen: int)
    requires ValidConfig(cfg) && Inv(cfg, s) && TrailInv(cfg, s) && Enabled(cfg, s, ProcessNext(at, seen))
    ensures TrailInv(cfg, Do(cfg, s, ProcessNext(at, seen)))
  {
    var ss := s.process.session;
    var p := ss.pending[ss.nextSequence];
    ProcessSession(cfg, ss, at, seen);
    NextText(cfg, s);
    if p.entry.Some? {
      var e := p.entry.value;
      assert e.HasLineText() by {
        var now :| cfg.parse(p.record.text, now) == p.entry;
      }
      TrailSnoc(AtStart(ss), ss.trail, A.Feed(e, at, seen), cfg.idleTimeout);
      if e.queueId != "" {
        MergeKeepsInvariant(s.db.rows, e, at);
      }
    }
  }

  lemma TickTrail(cfg: Config, s: State, now: int, at: int, expired: seq<MailTransaction>)
    requires TrailInv(cfg, s) && Enabled(cfg, s, EvictTick(now, at, expired))
    ensures TrailInv(cfg, Do(cfg, s, EvictTick(now, at, expired)))
  {
    var ss := s.process.session;
    EvictKeepsInvariant(s.db.rows, now - cfg.idleTimeout, at);
    GrowTrail(cfg, s, Do(cfg, s, EvictTick(now, at, expired)), A.Tick(now, at, expired));
  }

  lemma GrowTrail(cfg: Config, s: State, s': State, op: A.Op)
    requires TrailInv(cfg, s) && s.process.Up? && s'.process.Up? && TableInv(s'.db.rows)
    requires s'.process.session.startRows == s.process.session.startRows
    requires s'.process.session.trail == s.process.session.trail + [op]
    requires TrailOp(AtStart(s.process.session), s.process.session.trail, op, cfg.idleTimeout)
    requires A.Sides(s'.process.session.queues, s'.process.session.stdout, s'.db.rows)
          == A.Step(A.Sides(s.process.session.queues, s.process.session.stdout, s.db.rows), op, cfg.idleTimeout)
    ensures TrailInv(cfg, s')
  {
    var ss := s.process.session;
    TrailSnoc(AtStart(ss), ss.trail, op, cfg.idleTimeout);
  }

  lemma KeepTrail(cfg: Config, s: State, s': State)
    requires TrailInv(cfg, s) && s'.db == s.db
    requires s'.process.Up? ==>
      && s.process.Up?
      && s'.process.session.trail == s.process.session.trail
      && s'.process.session.startRows == s.process.session.startRows
      && s'.process.session.queues == s.process.session.queues
      && s'.process.session.stdout == s.process.session.stdout
    ensures TrailInv(cfg, s')
  {
  }

  lemma StartTrail(cfg: Config, s: State)
    requires TrailInv(cfg, s) && Enabled(cfg, s, Start)
    ensures TrailInv(cfg, Do(cfg, s, Start))
  {
  }

  lemma CrashTrail(cfg: Config, s: State)
    requires TrailInv(cfg, s) && Enabled(cfg, s, Crash)
    ensures TrailInv(cfg, Do(cfg, s, Crash))
  {
    KeepTrail(cfg, s, Do(cfg, s, Crash));
  }

  lemma StepTrail(cfg: Config, s: State, step: Step)
    requires ValidConfig(cfg) && Inv(cfg, s) && TrailInv(cfg, s) && Enabled(cfg, s, step)
    ensures TrailInv(cfg, Do(cfg, s, step))
  {
    match step
    case ProcessNext(at, seen) => ProcessTrail(cfg, s, at, seen);
    case EvictTick(now, at, expired) => TickTrail(cfg, s, now, at, expired);
    case Start => StartTrail(cfg, s);
    case Crash => CrashTrail(cfg, s);
    case _ =>
      SilentStep(cfg, s, step);
      KeepTrail(cfg, s, Do(cfg, s, step));
  }

  lemma {:induction false} RunTrail(cfg: Config, s0: State, steps: seq<Step>)
    requires ValidConfig(cfg) && Init(s0) && LegalRun(cfg, s0, steps)
    ensures TrailInv(cfg, RunSteps(cfg, s0, steps))
    decreases |steps|
  {
    if steps != [] {
      var init := steps[..|steps| - 1];
      RunTrail(cfg, s0, init);
      RunInv(cfg, s0, init);
      StepTrail(cfg, RunSteps(cfg, s0, init), steps[|steps| - 1]);
    }
  }

  // ---- the trail is what the session did ----

  /** What a step has the stitcher do: apply the next record's entry, if it has one, or evict. */
  function OpOf(s: State, step: Step): seq<A.Op>
    requires step.ProcessNext? ==> s.process.Up? && ProcessEnabled(s.process.session)
  {
    match step
    case ProcessNext(at, seen) =>
      var entry := s.process.session.pending[s.process.session.nextSequence].entry;
      if entry.Some? then [A.Feed(entry.value, at, seen)] else []
    case EvictTick(now, at, expired) => [A.Tick(now, at, expired)]
    case _ => []
  }

  /** Those of the steps since the last start. */
  function OpsOf(cfg: Config, s0: State, steps: seq<Step>): seq<A.Op>
    requires LegalRun(cfg, s0, steps)
    decreases |steps|
  {
    if steps == [] || steps[|steps| - 1].Start? then []
    else
      var init := steps[..|steps| - 1];
      OpsOf(cfg, s0, init) + OpOf(RunSteps(cfg, s0, init), steps[|steps| - 1])
  }

  /** The rows the table held at the last start. */
  function FoundRows(cfg: Config, s0: State, steps: seq<Step>): seq<Row>
    requires LegalRun(cfg, s0, steps)
    decreases |steps|
  {
    if steps == [] then []
    else
      var init := steps[..|steps| - 1];
      if steps[|steps| - 1].Start? then RunSteps(cfg, s0, init).db.rows else FoundRows(cfg, s0, init)
  }

  lemma OpsStep(cfg: Config, s: State, step: Step, s': State)
    requires Enabled(cfg, s, step) && s' == Do(cfg, s, step) && s'.process.Up?
    ensures step.Start? ==> s'.process.session.trail == [] && s'.process.session.startRows == s.db.rows
    ensures !step.Start? ==>
      && s.process.Up? && s'.process.session.startRows == s.process.session.startRows
      && s'.process.session.trail == s.process.session.trail + OpOf(s, step)
  {
    match step
    case ProcessNext(at, seen) =>
    case EvictTick(now, at, expired) =>
    case Start =>
    case _ => SilentStep(cfg, s, step);
  }

  lemma {:induction false} RunOps(cfg: Config, s0: State, steps: seq<Step>)
    requires Init(s0) && LegalRun(cfg, s0, steps) && RunSteps(cfg, s0, steps).process.Up?
    ensures RunSteps(cfg, s0, steps).process.session.trail == OpsOf(cfg, s0, steps)
    ensures RunSteps(cfg, s0, steps).process.session.startRows == FoundRows(cfg, s0, steps)
    decreases |steps|
  {
    var init, step := steps[..|steps| - 1], steps[|steps| - 1];
    OpsStep(cfg, RunSteps(cfg, s0, init), step, RunSteps(cfg, s0, steps));
    if !step.Start? {
      RunOps(cfg, s0, init);
    }
  }

  /**
    In any state of any run, the open queues, the output and the table of a session are what
    the two stitchers make, from an empty memory and the rows found at the start, of the
    entries committed since and the evictions since, each with the clocks of its own step.
   */
  lemma SessionIsItsOps(cfg: Config, s0: State, steps: seq<Step>)
    requires ValidConfig(cfg) && Init(s0) && LegalRun(cfg, s0, steps) && RunSteps(cfg, s0, steps).process.Up?
    ensures var s := RunSteps(cfg, s0, steps);
      A.Sides(s.process.session.queues, s.process.session.stdout, s.db.rows)
        == A.Run(A.Sides(map[], [], FoundRows(cfg, s0, steps)), OpsOf(cfg, s0, steps), cfg.idleTimeout)
  {
    RunTrail(cfg, s0, steps);
    RunOps(cfg, s0, steps);
  }

  /**
    In any state of any run, a session that started with nothing open in the table and whose
    ticks concurred holds in memory exactly the table's open rows, and has printed for each
    queue exactly what the rows closed since then record.  If no tick ran, it printed them
    in the order the table closed them.
   */
  lemma SessionsAgree(cfg: Config, s0: State, steps: seq<Step>)
    requires ValidConfig(cfg) && Init(s0) && LegalRun(cfg, s0, steps)
    ensures TableInv(RunSteps(cfg, s0, steps).db.rows)
    ensures var s := RunSteps(cfg, s0, steps);
      s.process.Up? ==>
        var ss := s.process.session;
        (forall i :: 0 <= i < |ss.startRows| ==> ss.startRows[i].terminal)
        && A.TicksConcur(AtStart(ss), ss.trail, cfg.idleTimeout) ==>
          && A.Agree(A.Sides(ss.queues, ss.stdout, s.db.rows), |ss.startRows|)
          && ((forall k :: 0 <= k < |ss.trail| ==> ss.trail[k].Feed?) ==>
                ss.stdout == A.TurnedOver(AtStart(ss), ss.trail, cfg.idleTimeout))
  {
    RunTrail(cfg, s0, steps);
    var s := RunSteps(cfg, s0, steps);
    if s.process.Up? {
      var ss := s.process.session;
      if (forall i :: 0 <= i < |ss.startRows| ==> ss.startRows[i].terminal)
         && A.TicksConcur(AtStart(ss), ss.trail, cfg.idleTimeout) {
        TrailAgrees(AtStart(ss), ss.trail, cfg.idleTimeout);
      }
    }
  }

  lemma TrailAgrees(start: A.Sides, trail: seq<A.Op>, idleTimeout: int)
    requires A.NothingOpen(start) && Trail(start, trail, idleTimeout) && A.TicksConcur(start, trail, idleTimeout)
    ensures A.Agree(A.Run(start, trail, idleTimeout), |start.rows|)
    ensures (forall k :: 0 <= k < |trail| ==> trail[k].Feed?) ==>
      A.Run(start, trail, idleTimeout).out == A.TurnedOver(start, trail, idleTimeout)
  {
    forall k | 0 <= k < |trail| ensures A.Allowed(A.Run(start, trail[..k], idleTimeout), trail[k], idleTimeout) {
      assert TrailOp(start, trail[..k], trail[k], idleTimeout);
    }
    A.AgreementOverRuns(start, trail, idleTimeout);
    if forall k :: 0 <= k < |trail| ==> trail[k].Feed? {
      assert A.FeedsOnly(trail) by {
        forall k | 0 <= k < |trail| ensures trail[k].Feed? && trail[k].entry.HasLineText() {
          assert TrailOp(start, trail[..k], trail[k], idleTimeout);
        }
      }
      A.EmissionOrder(start, trail, idleTimeout);
    }
  }
}
