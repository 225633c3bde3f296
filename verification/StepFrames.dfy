/**
  What the steps of the pipeline leave alone, one lemma a step, so that a proof about one
  part of the state need not look at the whole transition.
 */
module StepFrames {
  import opened MailLog
  import opened LogFollower
  import opened Pipeline

  /** The session commits nothing and stitches nothing; it may have read on. */
  predicate SameBooks(ss: Session, ss': Session) {
    && ss'.queues == ss.queues && ss'.stdout == ss.stdout && ss'.trail == ss.trail && ss'.startRows == ss.startRows
    && ss'.nextSequence == ss.nextSequence && ss.emitted <= ss'.emitted
  }

  /** The database is as before, and so are the books of the session, if there is one. */
  predicate Silent(s: State, s': State) {
    && s'.db == s.db && s'.history == s.history && s'.process.Up? == s.process.Up?
    && (s.process.Up? ==> SameBooks(s.process.session, s'.process.session))
  }

  /** Everything but commits, evictions, starts and crashes. */
  predicate IsSilent(step: Step) {
    !step.ProcessNext? && !step.EvictTick? && !step.Start? && !step.Crash?
  }

  lemma LocalBooks(cfg: Config, ss: Session, l: Local)
    requires LocalEnabled(ss, l)
    ensures SameBooks(ss, LocalStep(cfg, ss, l))
    ensures LocalStep(cfg, ss, l).follower == ss.follower && LocalStep(cfg, ss, l).emitted == ss.emitted
  {
  }

  lemma SessionSilent(s: State, ss': Session)
    requires s.process.Up? && SameBooks(s.process.session, ss')
    ensures Silent(s, s.(process := Up(ss')))
  {
  }

  lemma AppendSilent(cfg: Config, s: State, inode: int, more: string)
    requires Enabled(cfg, s, AppendTo(inode, more))
    ensures Silent(s, Do(cfg, s, AppendTo(inode, more)))
    ensures Do(cfg, s, AppendTo(inode, more)).process == s.process
  {
  }

  lemma RotateSilent(cfg: Config, s: State, replacement: Option<int>, content: string)
    requires Enabled(cfg, s, Rotate(replacement, content))
    ensures Silent(s, Do(cfg, s, Rotate(replacement, content)))
    ensures Do(cfg, s, Rotate(replacement, content)).process == s.process
  {
  }

  lemma InternalSilent(cfg: Config, s: State, l: Local)
    requires Enabled(cfg, s, Internal(l))
    ensures Silent(s, Do(cfg, s, Internal(l)))
  {
    LocalBooks(cfg, s.process.session, l);
    SessionSilent(s, LocalStep(cfg, s.process.session, l));
  }

  lemma ReadSilent(cfg: Config, s: State)
    requires Enabled(cfg, s, ReadLine)
    ensures Silent(s, Do(cfg, s, ReadLine))
  {
    SessionSilent(s, AfterRead(s.process.session, Content(s)));
  }

  /** A step that replaces the follower and nothing else. */
  lemma FollowerSilent(s: State, f: Follower)
    requires s.process.Up?
    ensures Silent(s, s.(process := Up(s.process.session.(follower := f))))
  {
    SessionSilent(s, s.process.session.(follower := f));
  }

  lemma EofSilent(cfg: Config, s: State)
    requires Enabled(cfg, s, ReadEof)
    ensures Silent(s, Do(cfg, s, ReadEof))
  {
    FollowerSilent(s, AfterEof(s.process.session.follower, Content(s)));
  }

  lemma InspectSilent(cfg: Config, s: State, started: int, now: int)
    requires Enabled(cfg, s, InspectPath(started, now))
    ensures Silent(s, Do(cfg, s, InspectPath(started, now)))
  {
    FollowerSilent(s, AfterPoll(s.process.session.follower, s.path, |Content(s)|, started, now, cfg.drainTimeout));
  }

  lemma ReopenSilent(cfg: Config, s: State)
    requires Enabled(cfg, s, Reopen)
    ensures Silent(s, Do(cfg, s, Reopen))
  {
    FollowerSilent(s, Opened(s.path.value, 0, s.process.session.follower.sequence));
  }

  lemma SilentStep(cfg: Config, s: State, step: Step)
    requires Enabled(cfg, s, step) && IsSilent(step)
    ensures Silent(s, Do(cfg, s, step))
  {
    match step
    case AppendTo(inode, more) => AppendSilent(cfg, s, inode, more);
    case Rotate(replacement, content) => RotateSilent(cfg, s, replacement, content);
    case Internal(l) => InternalSilent(cfg, s, l);
    case ReadLine => ReadSilent(cfg, s);
    case ReadEof => EofSilent(cfg, s);
    case InspectPath(started, now) => InspectSilent(cfg, s, started, now);
    case Reopen => ReopenSilent(cfg, s);
  }

  // ---- the follower ----

  /** The session is the one there was, and its follower is the same. */
  predicate SameFollower(s: State, s': State) {
    s.process.Up? && s'.process.Up? && s'.process.session.follower == s.process.session.follower
  }

  /** Steps that leave a running follower alone: those of the environment, the workers and the coordinator. */
  predicate LeavesFollower(step: Step) {
    step.AppendTo? || step.Rotate? || step.Internal? || step.ProcessNext? || step.EvictTick?
  }

  lemma ProcessFollower(ss: Session, at: int, seen: int)
    requires ProcessEnabled(ss)
    ensures Processed(ss, at, seen).follower == ss.follower
  {
  }

  lemma CommitFollower(cfg: Config, s: State, at: int, seen: int)
    requires Enabled(cfg, s, ProcessNext(at, seen))
    ensures SameFollower(s, Do(cfg, s, ProcessNext(at, seen)))
  {
    ProcessFollower(s.process.session, at, seen);
  }

  lemma TickFollower(cfg: Config, s: State, now: int, at: int, expired: seq<MailTransaction>)
    requires Enabled(cfg, s, EvictTick(now, at, expired))
    ensures SameFollower(s, Do(cfg, s, EvictTick(now, at, expired)))
  {
  }

  lemma InternalFollower(cfg: Config, s: State, l: Local)
    requires Enabled(cfg, s, Internal(l))
    ensures SameFollower(s, Do(cfg, s, Internal(l)))
  {
    LocalBooks(cfg, s.process.session, l);
  }

  lemma FollowerLeft(cfg: Config, s: State, step: Step)
    requires s.process.Up? && Enabled(cfg, s, step) && LeavesFollower(step)
    ensures SameFollower(s, Do(cfg, s, step))
  {
    match step
    case AppendTo(inode, more) => AppendSilent(cfg, s, inode, more);
    case Rotate(replacement, content) => RotateSilent(cfg, s, replacement, content);
    case Internal(l) => InternalFollower(cfg, s, l);
    case ProcessNext(at, seen) => CommitFollower(cfg, s, at, seen);
    case EvictTick(now, at, expired) => TickFollower(cfg, s, now, at, expired);
  }
}
