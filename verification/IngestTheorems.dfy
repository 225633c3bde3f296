/** What the pipeline promises of every run, stated without the proof's own invariant. */
module IngestTheorems {
  import opened MailLog
  import opened Framing
  import opened LogFollower
  import opened MailTable
  import opened Pipeline
  import opened ExactlyOnce
  import opened StepFrames

  /** The lines of one file, labelled with it. */
  function Labelled(inode: int, ls: seq<Line>): seq<Source> {
    seq(|ls|, i requires 0 <= i < |ls| => Source(inode, ls[i]))
  }

  /** Events that commit parsed lines, each parsed from its own text at some instant. */
  ghost predicate Faithful(cfg: Config, events: seq<DbEvent>) {
    forall k :: 0 <= k < |events| && events[k].Committed? ==>
      ParsedFrom(cfg, events[k].source.line.text, events[k].entry)
  }

  /** `done` are, of each file, exactly the complete lines of an initial stretch, in file order. */
  predicate FirstLines(files: map<int, string>, done: seq<Source>) {
    forall k :: 0 <= k < |done| ==>
      var i := done[k].inode;
      && i in files
      && End(LinesOf(done, i), 0) <= |files[i]|
      && LinesOf(done, i) == Lines(files[i][..End(LinesOf(done, i), 0)], 0)
  }

  /** Of one file, later means further on; in particular no line occurs twice. */
  predicate NoLineTwice(done: seq<Source>) {
    forall a, b :: 0 <= a < b < |done| && done[a].inode == done[b].inode ==> done[a].line.end < done[b].line.end
  }

  /** The stored checkpoint is the end of the last committed line, a line boundary of its file. */
  predicate CheckpointAtLast(s: State, done: seq<Source>) {
    if done == [] then s.db.checkpoint == None
    else
      var last := done[|done| - 1];
      && s.db.checkpoint == Some(Checkpoint(last.line.end, last.inode))
      && last.inode in s.files && 0 < last.line.end <= |s.files[last.inode]|
      && End(LinesOf(done, last.inode), 0) == last.line.end
      && s.files[last.inode][last.line.end - 1] == '\n'
  }

  /** The database is a sequential run of `events`, which commit each line of each file at most once. */
  ghost predicate RunOf(cfg: Config, s: State, events: seq<DbEvent>) {
    && s.db == Replay(events) && Faithful(cfg, events)
    && FirstLines(s.files, SourcesOf(events)) && NoLineTwice(SourcesOf(events))
    && CheckpointAtLast(s, SourcesOf(events))
  }

  /** The steps of a run that reach the database. */
  function DbSteps(steps: seq<Step>): seq<Step> {
    if steps == [] then []
    else
      var step := steps[|steps| - 1];
      DbSteps(steps[..|steps| - 1]) + if step.ProcessNext? || step.EvictTick? then [step] else []
  }

  /** The event a step leaves behind: the commit or the eviction that it is, at its own time. */
  predicate Leaves(cfg: Config, step: Step, event: DbEvent) {
    match step
    case ProcessNext(at, _) => event.Committed? && event.at == at
    case EvictTick(now, at, _) => event == Swept(now - cfg.idleTimeout, at)
    case _ => false
  }

  /** The events are those of the commits and evictions that ran, in the order in which they ran. */
  predicate RanAs(cfg: Config, ran: seq<Step>, events: seq<DbEvent>) {
    |events| == |ran| && forall k :: 0 <= k < |ran| ==> Leaves(cfg, ran[k], events[k])
  }

  /**
    Over any schedule, crashes and rotations: the database is a sequential run of the events
    in its history, which are the commits and evictions that ran, in that order; the lines
    committed are of each file the first ones, once each and in order; and the stored
    checkpoint is the end of the last of them, which is a line boundary of its file.
   */
  lemma ExactlyOnceAcrossCrashes(cfg: Config, s0: State, steps: seq<Step>)
    requires Init(s0) && LegalRun(cfg, s0, steps)
    ensures var s := RunSteps(cfg, s0, steps);
      RunOf(cfg, s, s.history) && RanAs(cfg, DbSteps(steps), s.history)
  {
    RunInv(cfg, s0, steps);
    HistoryIsRun(cfg, RunSteps(cfg, s0, steps));
    HistoryRan(cfg, s0, steps);
  }

  lemma {:induction false} HistoryRan(cfg: Config, s0: State, steps: seq<Step>)
    requires Init(s0) && LegalRun(cfg, s0, steps)
    ensures RanAs(cfg, DbSteps(steps), RunSteps(cfg, s0, steps).history)
    decreases |steps|
  {
    if steps != [] {
      var init, step := steps[..|steps| - 1], steps[|steps| - 1];
      HistoryRan(cfg, s0, init);
      StepRan(cfg, RunSteps(cfg, s0, init), step);
    }
  }

  /** A commit or an eviction adds its event; no other step adds any. */
  lemma StepRan(cfg: Config, s: State, step: Step)
    requires Enabled(cfg, s, step)
    ensures var history := Do(cfg, s, step).history;
      if step.ProcessNext? || step.EvictTick?
      then
        && |history| == |s.history| + 1 && history[..|s.history|] == s.history
        && Leaves(cfg, step, history[|s.history|])
      else history == s.history
  {
    match step
    case Start =>
    case Crash =>
    case ProcessNext(at, seen) =>
    case EvictTick(now, at, expired) =>
    case _ => SilentStep(cfg, s, step);
  }

  lemma HistoryIsRun(cfg: Config, s: State)
    requires Inv(cfg, s)
    ensures RunOf(cfg, s, s.history)
  {
    var done := SourcesOf(s.history);
    CommittedWorld(cfg, s);
    ReadableFirstLines(s.files, s.seen, done);
    ReadableNoLineTwice(s.files, s.seen, done);
    HistoryCheckpoint(cfg, s, done);
  }

  lemma HistoryCheckpoint(cfg: Config, s: State, done: seq<Source>)
    requires Recorded(cfg, s) && done == SourcesOf(s.history) && Readable(s.files, s.seen, done)
    ensures CheckpointAtLast(s, done)
  {
    CheckpointIsLast(s.history);
    if done != [] {
      var i := done[|done| - 1].inode;
      FramesEnd(LinesOf(done, i), s.files[i], 0);
    }
  }

  lemma CommittedWorld(cfg: Config, s: State)
    requires Inv(cfg, s)
    ensures World(s.files, s.path, s.seen, SourcesOf(s.history))
  {
    var n := |SourcesOf(s.history)|;
    WorldPrefix(s.files, s.path, s.seen, Stream(s), n);
    assert Stream(s)[..n] == SourcesOf(s.history);
  }

  lemma ReadableFirstLines(files: map<int, string>, seen: set<int>, done: seq<Source>)
    requires Readable(files, seen, done)
    ensures FirstLines(files, done)
  {
    forall k | 0 <= k < |done|
      ensures var i := done[k].inode;
        && i in files
        && End(LinesOf(done, i), 0) <= |files[i]|
        && LinesOf(done, i) == Lines(files[i][..End(LinesOf(done, i), 0)], 0)
    {
      FramesAreLines(LinesOf(done, done[k].inode), files[done[k].inode], 0);
    }
  }

  lemma ReadableNoLineTwice(files: map<int, string>, seen: set<int>, done: seq<Source>)
    requires Readable(files, seen, done)
    ensures NoLineTwice(done)
  {
    forall a, b | 0 <= a < b < |done| && done[a].inode == done[b].inode
      ensures done[a].line.end < done[b].line.end
    {
      LaterLineAt(files, seen, done, a, b);
    }
  }

  lemma LaterLineAt(files: map<int, string>, seen: set<int>, done: seq<Source>, a: nat, b: nat)
    requires Readable(files, seen, done) && a < b < |done| && done[a].inode == done[b].inode
    ensures done[a].line.end < done[b].line.end
  {
    var before := done[..b];
    ReadablePrefix(files, seen, done, b);
    assert before[a] == done[a];
    EndCovers(files, seen, before, a);
    LineStartsAfter(files, seen, done, b);
  }

  /** A line begins where the earlier lines of its file end. */
  lemma LineStartsAfter(files: map<int, string>, seen: set<int>, done: seq<Source>, b: nat)
    requires Readable(files, seen, done) && b < |done|
    ensures End(LinesOf(done[..b], done[b].inode), 0) < done[b].line.end
  {
    SourceFramed(files, seen, done, b);
  }

  lemma PrefixFramed(files: map<int, string>, seen: set<int>, stream: seq<Source>, n: nat, i: int)
    returns (upTo: seq<Source>)
    requires Readable(files, seen, stream) && n <= |stream| && i in seen
    ensures upTo == stream[..n] && Frames(LinesOf(upTo, i), files[i], 0)
  {
    upTo := stream[..n];
    ReadablePrefix(files, seen, stream, n);
  }

  lemma SnocFramed(before: seq<Source>, source: Source, content: string)
    requires Frames(LinesOf(before + [source], source.inode), content, 0)
    ensures LineAt(content, End(LinesOf(before, source.inode), 0), source.line)
  {
    LinesOfSnoc(before, source, source.inode);
    FramesLast(LinesOf(before, source.inode), source.line, content, 0);
  }

  /** Every line of the stream lies in its file right after the earlier ones. */
  lemma SourceFramed(files: map<int, string>, seen: set<int>, stream: seq<Source>, k: nat)
    requires Readable(files, seen, stream) && k < |stream|
    ensures LineAt(files[stream[k].inode], End(LinesOf(stream[..k], stream[k].inode), 0), stream[k].line)
  {
    var before, source := stream[..k], stream[k];
    var upTo := PrefixFramed(files, seen, stream, k + 1, source.inode);
    assert upTo == before + [source];
    SnocFramed(before, source, files[source.inode]);
  }

  lemma ReadablePrefix(files: map<int, string>, seen: set<int>, stream: seq<Source>, n: nat)
    requires Readable(files, seen, stream) && n <= |stream|
    ensures Readable(files, seen, stream[..n])
  {
    WorldPrefix(files, None, seen, stream, n);
  }

  lemma EndCovers(files: map<int, string>, seen: set<int>, stream: seq<Source>, a: nat)
    requires Readable(files, seen, stream) && a < |stream|
    ensures stream[a].line.end <= End(LinesOf(stream, stream[a].inode), 0)
  {
    var i := stream[a].inode;
    var all, upTo := LinesOf(stream, i), LinesOf(stream[..a + 1], i);
    LinesOfPrefix(stream, a + 1, i);
    FramesEndMonotone(all, files[i], 0, |upTo|);
    assert all[..|upTo|] == upTo;
    assert stream[..a + 1][a] == stream[a];
    assert End(upTo, 0) == stream[a].line.end;
  }

  lemma {:induction false} OnlyFile(done: seq<Source>, inode: int)
    requires forall k :: 0 <= k < |done| ==> done[k].inode == inode
    ensures done == Labelled(inode, LinesOf(done, inode))
  {
    if done != [] {
      OnlyFile(done[..|done| - 1], inode);
    }
  }

  /** The environment only appends: no rotation. */
  predicate NoRotation(steps: seq<Step>) {
    forall k :: 0 <= k < |steps| ==> !steps[k].Rotate?
  }

  lemma {:induction false} SeenWithoutRotation(cfg: Config, s0: State, steps: seq<Step>)
    requires LegalRun(cfg, s0, steps) && NoRotation(steps)
    ensures RunSteps(cfg, s0, steps).seen == s0.seen
    decreases |steps|
  {
    if steps != [] {
      SeenWithoutRotation(cfg, s0, steps[..|steps| - 1]);
    }
  }

  /** The offset reading would resume from. */
  function Reached(db: Database): int {
    if db.checkpoint.None? then 0 else db.checkpoint.value.offset
  }

  /** The events commit exactly the complete lines of the first `reached` bytes of the file, in order. */
  ghost predicate OneFileRun(cfg: Config, s: State, p: int, reached: int, events: seq<DbEvent>) {
    && s.db == Replay(events) && Faithful(cfg, events)
    && p in s.files && 0 <= reached <= |s.files[p]|
    && (reached > 0 ==> s.files[p][reached - 1] == '\n')
    && SourcesOf(events) == Labelled(p, Lines(s.files[p][..reached], 0))
  }

  /**
    One growing file, any schedule, any number of crashes and restarts: the tables equal a
    sequential run of exactly the complete lines of the content up to the checkpoint, each
    once and in file order, interleaved as they ran with the evictions that ran; and the
    checkpoint is a line boundary.
   */
  lemma ExactlyOnceOneFile(cfg: Config, s0: State, steps: seq<Step>)
    requires Init(s0) && s0.path.Some? && LegalRun(cfg, s0, steps) && NoRotation(steps)
    ensures var s := RunSteps(cfg, s0, steps);
      OneFileRun(cfg, s, s0.path.value, Reached(s.db), s.history) && RanAs(cfg, DbSteps(steps), s.history)
  {
    RunInv(cfg, s0, steps);
    SeenWithoutRotation(cfg, s0, steps);
    OneFileHistory(cfg, RunSteps(cfg, s0, steps), s0.path.value);
    HistoryRan(cfg, s0, steps);
  }

  lemma OneFileHistory(cfg: Config, s: State, p: int)
    requires Inv(cfg, s) && s.seen == {p}
    ensures OneFileRun(cfg, s, p, Reached(s.db), s.history)
  {
    var done := SourcesOf(s.history);
    CommittedWorld(cfg, s);
    HistoryCheckpoint(cfg, s, done);
    OneFileLines(s, p, done);
  }

  lemma OneFileLines(s: State, p: int, done: seq<Source>)
    requires CheckpointAtLast(s, done) && p in s.files
    requires forall k :: 0 <= k < |done| ==> done[k].inode == p
    requires Frames(LinesOf(done, p), s.files[p], 0)
    ensures var reached := Reached(s.db);
      && 0 <= reached <= |s.files[p]| && (reached > 0 ==> s.files[p][reached - 1] == '\n')
      && done == Labelled(p, Lines(s.files[p][..reached], 0))
  {
    OnlyFile(done, p);
    FramesAreLines(LinesOf(done, p), s.files[p], 0);
    if done == [] {
      assert LinesOf(done, p) == [];
    } else {
      assert done[|done| - 1].inode == p;
    }
  }

  /** Every line that was read is newline-free. */
  lemma StreamText(files: map<int, string>, seen: set<int>, stream: seq<Source>, k: nat)
    requires Readable(files, seen, stream) && k < |stream|
    ensures '\n' !in stream[k].line.text
  {
    SourceFramed(files, seen, stream, k);
  }

  // ---- the rotation timer over runs ----

  /** A newly opened file has no timer running. */
  lemma FreshTimer(inode: int, offset: nat, sequence: nat)
    ensures TimerMeans(Opened(inode, offset, sequence))
  {
  }

  /** Reading touches neither the timer nor the polls. */
  lemma ReadTimer(f: Follower, f': Follower)
    requires TimerMeans(f) && f'.inode == f.inode && f'.rotatedAt == f.rotatedAt && f'.polls == f.polls
    ensures TimerMeans(f')
  {
  }

  /** The timer invariant of the session there is, if any. */
  predicate Timed(s: State) {
    s.process.Up? ==> TimerMeans(s.process.session.follower)
  }

  lemma InspectTimer(cfg: Config, s: State, started: int, now: int)
    requires Inv(cfg, s) && Timed(s) && Enabled(cfg, s, InspectPath(started, now))
    ensures Timed(Do(cfg, s, InspectPath(started, now)))
  {
    PollLeavesIff(s.process.session.follower, s.path, |Content(s)|, started, now, cfg.drainTimeout);
  }

  lemma ReadLineTimer(cfg: Config, s: State)
    requires Timed(s) && Enabled(cfg, s, ReadLine)
    ensures Timed(Do(cfg, s, ReadLine))
  {
    ReadTimer(s.process.session.follower, AfterRecord(s.process.session.follower, Content(s)));
  }

  lemma ReadEofTimer(cfg: Config, s: State)
    requires Timed(s) && Enabled(cfg, s, ReadEof)
    ensures Timed(Do(cfg, s, ReadEof))
  {
    ReadTimer(s.process.session.follower, AfterEof(s.process.session.follower, Content(s)));
  }

  lemma StartTimer(cfg: Config, s: State)
    requires Enabled(cfg, s, Start)
    ensures Timed(Do(cfg, s, Start))
  {
    FreshTimer(s.path.value, ResumeOffset(s.db.checkpoint, s.path.value, |s.files[s.path.value]|), 0);
  }

  lemma ReopenTimer(cfg: Config, s: State)
    requires Enabled(cfg, s, Reopen)
    ensures Timed(Do(cfg, s, Reopen))
  {
    FreshTimer(s.path.value, 0, s.process.session.follower.sequence);
  }

  lemma TimerStep(cfg: Config, s: State, step: Step)
    requires Inv(cfg, s) && Enabled(cfg, s, step) && Timed(s)
    ensures Timed(Do(cfg, s, step))
  {
    match step
    case InspectPath(started, now) => InspectTimer(cfg, s, started, now);
    case ReadLine => ReadLineTimer(cfg, s);
    case ReadEof => ReadEofTimer(cfg, s);
    case Start => StartTimer(cfg, s);
    case Reopen => ReopenTimer(cfg, s);
    case Crash => assert Do(cfg, s, step).process.Down?;
    case AppendTo(inode, more) => AppendSilent(cfg, s, inode, more);
    case Rotate(replacement, content) => RotateSilent(cfg, s, replacement, content);
    case _ => FollowerLeft(cfg, s, step);
  }

  lemma {:induction false} RunTimer(cfg: Config, s0: State, steps: seq<Step>)
    requires Init(s0) && LegalRun(cfg, s0, steps)
    ensures Timed(RunSteps(cfg, s0, steps))
    decreases |steps|
  {
    if steps != [] {
      var init := steps[..|steps| - 1];
      RunTimer(cfg, s0, init);
      RunInv(cfg, s0, init);
      TimerStep(cfg, RunSteps(cfg, s0, init), steps[|steps| - 1]);
    }
  }

  lemma AlignedIsLines(f: Follower, ls: seq<Line>, content: string)
    requires Aligned(f, ls, content, 0)
    ensures ls == Lines(content[..f.offset], 0)
  {
    var c, b := content[..f.offset], End(ls, 0);
    FramesTrim(ls, content, 0);
    assert content[..b] + f.partial == c;
    FramesGrow(ls, content[..b], 0, f.partial);
    Resume(ls, c, 0);
    assert c[b..] == f.partial;
    NoNewlineLeft(c, b);
  }

  /** A read that meets the end of the file has taken everything the file then held. */
  lemma EofReadsAll(cfg: Config, s: State)
    requires Inv(cfg, s) && Enabled(cfg, s, ReadEof)
    ensures var s' := Do(cfg, s, ReadEof);
      && s'.process.session.follower.phase == AtEof
      && s'.process.session.follower.offset == |Content(s)|
      && LinesOf(Stream(s), s.process.session.follower.inode) == Lines(Content(s), 0)
  {
    var f := s.process.session.follower;
    AlignedEof(f, LinesOf(Stream(s), f.inode), Content(s), 0);
  }

  /** Between that read and the inspection of the path the follower does nothing else. */
  lemma EofIsHeld(cfg: Config, s: State, step: Step)
    requires s.process.Up? && s.process.session.follower.phase == AtEof && Enabled(cfg, s, step)
    requires !step.InspectPath? && !step.Crash?
    ensures SameFollower(s, Do(cfg, s, step))
  {
    assert !step.Start? && !step.ReadLine? && !step.ReadEof? && !step.Reopen?;
    FollowerLeft(cfg, s, step);
  }

  // ---- the last end of file ----

  /**
    In state `s` the follower stands at the end of file it met in state `t`: same file, which
    has at most grown since, and everything it then held has been taken.
   */
  predicate MetEnd(t: State, s: State) {
    && CanRead(t) && !LineAvailable(t.process.session.follower, Content(t))
    && s.process.Up? && s.process.session.follower.phase == AtEof
    && s.process.session.follower.inode == t.process.session.follower.inode
    && s.process.session.follower.inode in s.files
    && Content(t) <= Content(s)
    && s.process.session.follower.offset == |Content(t)|
  }

  lemma MeetEnd(cfg: Config, t: State)
    requires Inv(cfg, t) && Enabled(cfg, t, ReadEof)
    ensures MetEnd(t, Do(cfg, t, ReadEof))
  {
    EofReadsAll(cfg, t);
  }

  lemma FilesGrow(cfg: Config, s: State, step: Step, inode: int)
    requires Enabled(cfg, s, step) && inode in s.files && inode in s.seen
    ensures inode in Do(cfg, s, step).files && s.files[inode] <= Do(cfg, s, step).files[inode]
  {
    match step
    case AppendTo(i, more) =>
    case Rotate(replacement, content) =>
    case _ => assert Do(cfg, s, step).files == s.files;
  }

  lemma StayAtEnd(cfg: Config, t: State, s: State, step: Step)
    requires MetEnd(t, s) && Inv(cfg, s) && Enabled(cfg, s, step) && !step.InspectPath? && !step.Crash?
    ensures MetEnd(t, Do(cfg, s, step))
  {
    EofIsHeld(cfg, s, step);
    FilesGrow(cfg, s, step, s.process.session.follower.inode);
  }

  /** A step into an end of file from anywhere else is the read that met it. */
  lemma EndIsMetByRead(cfg: Config, s: State, step: Step)
    requires Enabled(cfg, s, step)
    requires var s' := Do(cfg, s, step); s'.process.Up? && s'.process.session.follower.phase == AtEof
    ensures step == ReadEof
      || (s.process.Up? && s.process.session.follower.phase == AtEof && !step.InspectPath? && !step.Crash?)
  {
    match step
    case ReadEof =>
    case InspectPath(started, now) =>
    case Crash =>
    case Start =>
    case Reopen =>
    case ReadLine =>
    case AppendTo(inode, more) => AppendSilent(cfg, s, inode, more);
    case Rotate(replacement, content) => RotateSilent(cfg, s, replacement, content);
    case _ => FollowerLeft(cfg, s, step);
  }

  /** Where an end of file at the end of a run comes from: its last step, or the state before it. */
  lemma EndOfRun(cfg: Config, s0: State, steps: seq<Step>, s: State) returns (before: State)
    requires Init(s0) && LegalRun(cfg, s0, steps) && s == RunSteps(cfg, s0, steps)
    requires s.process.Up? && s.process.session.follower.phase == AtEof
    ensures steps != [] && LegalRun(cfg, s0, steps[..|steps| - 1])
    ensures before == RunSteps(cfg, s0, steps[..|steps| - 1])
    ensures steps[|steps| - 1] == ReadEof ==> MetEnd(before, s)
    ensures steps[|steps| - 1] != ReadEof ==>
      && before.process.Up? && before.process.session.follower.phase == AtEof
      && !steps[|steps| - 1].InspectPath? && !steps[|steps| - 1].Crash?
      && forall t :: MetEnd(t, before) ==> MetEnd(t, s)
  {
    var n := |steps| - 1;
    before := RunSteps(cfg, s0, steps[..n]);
    RunInv(cfg, s0, steps[..n]);
    EndIsMetByRead(cfg, before, steps[n]);
    if steps[n] == ReadEof {
      MeetEnd(cfg, before);
    } else {
      forall t | MetEnd(t, before) ensures MetEnd(t, s) {
        StayAtEnd(cfg, t, before, steps[n]);
      }
    }
  }

  /**
    Whenever the follower stands at an end of file, there is a last read that met it: step `k`
    of the run, taken in state `t`; since then the follower has not moved.
   */
  lemma {:induction false} LastEndOfFile(cfg: Config, s0: State, steps: seq<Step>, s: State) returns (k: nat, t: State)
    requires Init(s0) && LegalRun(cfg, s0, steps) && s == RunSteps(cfg, s0, steps)
    requires s.process.Up? && s.process.session.follower.phase == AtEof
    ensures k < |steps| && steps[k] == ReadEof && t == StateAt(cfg, s0, steps, k)
    ensures MetEnd(t, s)
    ensures forall j :: k < j < |steps| ==> !steps[j].InspectPath? && !steps[j].Crash?
    decreases |steps|
  {
    var before := EndOfRun(cfg, s0, steps, s);
    var n := |steps| - 1;
    if steps[n] == ReadEof {
      k, t := n, before;
    } else {
      k, t := LastEndOfFile(cfg, s0, steps[..n], before);
      StateAtShorter(cfg, s0, steps, n, k);
    }
  }

  /** Having met the end of its file in `t`, the follower has read every complete line it then held. */
  lemma ReadToEnd(cfg: Config, t: State, s: State)
    requires Inv(cfg, s) && MetEnd(t, s)
    ensures LinesOf(Stream(s), s.process.session.follower.inode) == Lines(Content(t), 0)
  {
    var f := s.process.session.follower;
    AlignedIsLines(f, LinesOf(Stream(s), f.inode), Content(s));
    assert Content(s)[..f.offset] == Content(t);
  }

  // ---- leaving a rotated file ----

  /** From poll `k` on, every poll found another file at the path. */
  predicate SawAnother(f: Follower, polls: seq<Poll>, k: nat) {
    forall j :: k <= j < |polls| ==> polls[j].saw.Some? && polls[j].saw.value != f.inode
  }

  /** For at least the timeout before `now`, every poll of the file found another one at the path. */
  predicate DrainedFor(f: Follower, now: int, drainTimeout: int) {
    exists k :: 0 <= k < |f.polls| && SawAnother(f, f.polls, k) && now - f.polls[k].at >= drainTimeout
  }

  lemma LeavingIsDrained(cfg: Config, s: State, started: int, now: int)
    requires Inv(cfg, s) && Timed(s) && Enabled(cfg, s, InspectPath(started, now))
    ensures var f' := AfterPoll(s.process.session.follower, s.path, |Content(s)|, started, now, cfg.drainTimeout);
      f'.phase == Leaving ==> DrainedFor(f', now, cfg.drainTimeout)
  {
    var f := s.process.session.follower;
    var f' := AfterPoll(f, s.path, |Content(s)|, started, now, cfg.drainTimeout);
    PollLeavesIff(f, s.path, |Content(s)|, started, now, cfg.drainTimeout);
    if f'.phase == Leaving {
      var k := StretchStart(f'.polls, f'.inode);
      assert forall j :: k <= j < |f'.polls| ==> SawOther(f'.polls[j], f'.inode);
      assert SawAnother(f', f'.polls, k);
    }
  }

  /** The end-of-file polls of the file the follower is on, read off the run: what the path named at each. */
  function PollsOf(cfg: Config, s0: State, steps: seq<Step>): seq<Poll>
    requires LegalRun(cfg, s0, steps)
    decreases |steps|
  {
    if steps == [] then []
    else
      var init := steps[..|steps| - 1];
      match steps[|steps| - 1]
      case InspectPath(started, _) => PollsOf(cfg, s0, init) + [Poll(started, RunSteps(cfg, s0, init).path)]
      case Start => []
      case Reopen => []
      case _ => PollsOf(cfg, s0, init)
  }

  lemma PollsStep(cfg: Config, s: State, step: Step)
    requires Enabled(cfg, s, step) && Do(cfg, s, step).process.Up?
    ensures var polls := Do(cfg, s, step).process.session.follower.polls;
      match step
      case InspectPath(started, _) => polls == s.process.session.follower.polls + [Poll(started, s.path)]
      case Start => polls == []
      case Reopen => polls == []
      case _ => s.process.Up? && polls == s.process.session.follower.polls
  {
    match step
    case InspectPath(started, now) =>
    case Start =>
    case Reopen =>
    case ReadLine =>
    case ReadEof =>
    case AppendTo(inode, more) => AppendSilent(cfg, s, inode, more);
    case Rotate(replacement, content) => RotateSilent(cfg, s, replacement, content);
    case _ => FollowerLeft(cfg, s, step);
  }

  lemma {:induction false} RunPolls(cfg: Config, s0: State, steps: seq<Step>)
    requires Init(s0) && LegalRun(cfg, s0, steps) && RunSteps(cfg, s0, steps).process.Up?
    ensures RunSteps(cfg, s0, steps).process.session.follower.polls == PollsOf(cfg, s0, steps)
    decreases |steps|
  {
    var init, step := steps[..|steps| - 1], steps[|steps| - 1];
    PollsStep(cfg, RunSteps(cfg, s0, init), step);
    if !step.Start? {
      RunPolls(cfg, s0, init);
    }
  }

  /**
    Over every run: an inspection of the path decides to leave the file if and only if, of the
    polls made since the file was opened, those of the last stretch, this one included, all
    found another file at the path, and the first of that stretch is the drain timeout or more
    ago.
   */
  lemma RotationLeftIff(cfg: Config, s0: State, steps: seq<Step>, started: int, now: int, k: nat)
    requires Init(s0) && LegalRun(cfg, s0, steps)
    requires Enabled(cfg, RunSteps(cfg, s0, steps), InspectPath(started, now))
    requires var s := RunSteps(cfg, s0, steps);
      LastStretch(PollsOf(cfg, s0, steps) + [Poll(started, s.path)], s.process.session.follower.inode, k)
    ensures var s := RunSteps(cfg, s0, steps);
      var polls := PollsOf(cfg, s0, steps) + [Poll(started, s.path)];
      var leaves := Do(cfg, s, InspectPath(started, now)).process.session.follower.phase == Leaving;
      leaves <==> k < |polls| && now - polls[k].at >= cfg.drainTimeout
  {
    var s := RunSteps(cfg, s0, steps);
    RunInv(cfg, s0, steps);
    RunTimer(cfg, s0, steps);
    RunPolls(cfg, s0, steps);
    StretchIsUnique(PollsOf(cfg, s0, steps) + [Poll(started, s.path)], s.process.session.follower.inode, k);
    PollLeavesIff(s.process.session.follower, s.path, |Content(s)|, started, now, cfg.drainTimeout);
  }

  /**
    The follower decides to leave a file only when, for at least the drain timeout, every
    end-of-file poll has found another file at the path.  The decision follows a last read to
    the end, in state `t`, and by then every complete line the file held in `t` has been read.
   */
  lemma RotationIsDrained(cfg: Config, s0: State, steps: seq<Step>, started: int, now: int)
    returns (k: nat, t: State)
    requires Init(s0) && LegalRun(cfg, s0, steps)
    requires Enabled(cfg, RunSteps(cfg, s0, steps), InspectPath(started, now))
    ensures k < |steps| && steps[k] == ReadEof && t == StateAt(cfg, s0, steps, k)
    ensures var s := RunSteps(cfg, s0, steps);
      && MetEnd(t, s)
      && s.process.session.nextSequence <= |s.process.session.emitted|
      && LinesOf(Stream(s), s.process.session.follower.inode) == Lines(Content(t), 0)
    ensures var s := RunSteps(cfg, s0, steps);
      var f' := Do(cfg, s, InspectPath(started, now)).process.session.follower;
      f'.phase == Leaving ==> DrainedFor(f', now, cfg.drainTimeout)
  {
    var s := RunSteps(cfg, s0, steps);
    RunInv(cfg, s0, steps);
    RunTimer(cfg, s0, steps);
    k, t := LastEndOfFile(cfg, s0, steps, s);
    ReadToEnd(cfg, t, s);
    LeavingIsDrained(cfg, s, started, now);
  }
}
