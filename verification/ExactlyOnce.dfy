/**
  Crash-safe, exactly-once ingestion: whatever the schedule, the crashes and the rotations,
  the lines committed from each file are its first lines, each once, in file order, and the
  database is what running them one after another would have left.
 */
module ExactlyOnce {
  import opened MailLog
  import opened Framing
  import opened LogFollower
  import opened MailTable
  import opened Pipeline
  import opened Placement

  /** The lines of one file within a sequence of lines of several. */
  function LinesOf(stream: seq<Source>, inode: int): seq<Line> {
    if stream == [] then []
    else
      var source := stream[|stream| - 1];
      LinesOf(stream[..|stream| - 1], inode) + if source.inode == inode then [source.line] else []
  }

  /** Read but not yet committed, in reading order. */
  function Outstanding(ss: Session): seq<Source>
    requires ss.nextSequence <= |ss.emitted|
  {
    seq(|ss.emitted| - ss.nextSequence, i requires 0 <= i < |ss.emitted| - ss.nextSequence =>
      SourceOf(ss.emitted[ss.nextSequence + i]))
  }

  /** Everything committed, followed by everything on its way. */
  function Stream(s: State): seq<Source>
    requires s.process.Up? ==> s.process.session.nextSequence <= |s.process.session.emitted|
  {
    SourcesOf(s.history) + if s.process.Up? then Outstanding(s.process.session) else []
  }

  /** Of every file, the stream holds the first lines, and only files the path has named. */
  predicate Readable(files: map<int, string>, seen: set<int>, stream: seq<Source>) {
    && seen <= files.Keys
    && (forall k :: 0 <= k < |stream| ==> stream[k].inode in seen)
    && (forall i :: i in seen ==> Frames(LinesOf(stream, i), files[i], 0))
  }

  /** Once the stream has reached the file at the path, it stays there. */
  predicate PathLast(path: Option<int>, stream: seq<Source>) {
    path.Some? ==> forall a, b ::
      0 <= a < b < |stream| && stream[a].inode == path.value ==> stream[b].inode == path.value
  }

  predicate World(files: map<int, string>, path: Option<int>, seen: set<int>, stream: seq<Source>) {
    && (path.Some? ==> path.value in seen)
    && Readable(files, seen, stream) && PathLast(path, stream)
  }

  /** The follower stands right after the stream's last line of its file. */
  predicate Following(files: map<int, string>, path: Option<int>, seen: set<int>, f: Follower, stream: seq<Source>) {
    && f.inode in seen && f.inode in files
    && Aligned(f, LinesOf(stream, f.inode), files[f.inode], 0)
    && (path.Some? && path.value != f.inode ==> forall k :: 0 <= k < |stream| ==> stream[k].inode != path.value)
    && (f.phase == Leaving ==> path != Some(f.inode))
  }

  ghost predicate Recorded(cfg: Config, s: State) {
    && s.db == Replay(s.history)
    && forall k :: 0 <= k < |s.history| && s.history[k].Committed? ==>
         ParsedFrom(cfg, s.history[k].source.line.text, s.history[k].entry)
  }

  ghost predicate Inv(cfg: Config, s: State) {
    && Recorded(cfg, s)
    && (s.process.Up? ==> SessionInv(cfg, s.process.session))
    && World(s.files, s.path, s.seen, Stream(s))
    && (s.process.Up? ==> Following(s.files, s.path, s.seen, s.process.session.follower, Stream(s)))
  }

  // ---- filtering ----

  lemma LinesOfSnoc(stream: seq<Source>, source: Source, inode: int)
    ensures LinesOf(stream + [source], inode)
         == LinesOf(stream, inode) + if source.inode == inode then [source.line] else []
  {
    assert (stream + [source])[..|stream|] == stream;
  }

  lemma {:induction false} LinesOfAbsent(stream: seq<Source>, inode: int)
    requires forall k :: 0 <= k < |stream| ==> stream[k].inode != inode
    ensures LinesOf(stream, inode) == []
  {
    if stream != [] {
      LinesOfAbsent(stream[..|stream| - 1], inode);
    }
  }

  lemma {:induction false} LinesOfPrefix(stream: seq<Source>, n: nat, inode: int)
    requires n <= |stream|
    ensures LinesOf(stream[..n], inode) <= LinesOf(stream, inode)
    decreases |stream| - n
  {
    if n == |stream| {
      assert stream[..n] == stream;
    } else {
      LinesOfPrefix(stream, n + 1, inode);
      assert stream[..n + 1][..n] == stream[..n];
    }
  }

  lemma SourcesSnoc(events: seq<DbEvent>, event: DbEvent)
    ensures SourcesOf(events + [event]) == SourcesOf(events) + if event.Committed? then [event.source] else []
  {
    assert (events + [event])[..|events|] == events;
  }

  lemma ReplaySnoc(events: seq<DbEvent>, event: DbEvent)
    ensures Replay(events + [event]) == Execute(Replay(events), event)
  {
    assert (events + [event])[..|events|] == events;
  }

  /** The stored checkpoint is the end of the last line committed. */
  lemma {:induction false} CheckpointIsLast(events: seq<DbEvent>)
    ensures var sources := SourcesOf(events);
      Replay(events).checkpoint ==
        if sources == [] then None
        else Some(Checkpoint(sources[|sources| - 1].line.end, sources[|sources| - 1].inode))
  {
    if events != [] {
      CheckpointIsLast(events[..|events| - 1]);
    }
  }

  // ---- the environment ----

  lemma WorldAppend(files: map<int, string>, path: Option<int>, seen: set<int>, stream: seq<Source>,
                    inode: int, more: string)
    requires World(files, path, seen, stream) && inode in files
    ensures World(files[inode := files[inode] + more], path, seen, stream)
  {
    if inode in seen {
      FramesGrow(LinesOf(stream, inode), files[inode], 0, more);
    }
  }

  lemma WorldRotate(files: map<int, string>, path: Option<int>, seen: set<int>, stream: seq<Source>,
                    inode: int, content: string)
    requires World(files, path, seen, stream) && inode !in seen
    ensures World(files[inode := content], Some(inode), seen + {inode}, stream)
  {
    LinesOfAbsent(stream, inode);
  }

  lemma WorldPrefix(files: map<int, string>, path: Option<int>, seen: set<int>, stream: seq<Source>, n: nat)
    requires World(files, path, seen, stream) && n <= |stream|
    ensures World(files, path, seen, stream[..n])
  {
    forall i | i in seen ensures Frames(LinesOf(stream[..n], i), files[i], 0) {
      LinesOfPrefix(stream, n, i);
      var ls, short := LinesOf(stream, i), LinesOf(stream[..n], i);
      FramesPrefix(ls, files[i], 0, |short|);
      assert ls[..|short|] == short;
    }
  }

  /** A line read from the followed file joins the stream. */
  lemma WorldEmit(files: map<int, string>, path: Option<int>, seen: set<int>, f: Follower, stream: seq<Source>)
    requires World(files, path, seen, stream) && Following(files, path, seen, f, stream)
    requires LineAvailable(f, files[f.inode]) && f.phase == Reading
    ensures var stream' := stream + [SourceOf(NextRecord(f, files[f.inode]))];
      && World(files, path, seen, stream')
      && Following(files, path, seen, AfterRecord(f, files[f.inode]), stream')
  {
    var content := files[f.inode];
    var source := SourceOf(NextRecord(f, content));
    var stream' := stream + [source];
    AlignedRecord(f, LinesOf(stream, f.inode), content, 0);
    LinesOfSnoc(stream, source, f.inode);
    forall i | i in seen ensures Frames(LinesOf(stream', i), files[i], 0) {
      LinesOfSnoc(stream, source, i);
      if i != f.inode {
        assert LinesOf(stream', i) == LinesOf(stream, i);
      }
    }
  }

  /** Starting from the checkpoint puts the follower right after the last committed line. */
  lemma StartFollows(files: map<int, string>, p: int, seen: set<int>, history: seq<DbEvent>)
    requires World(files, Some(p), seen, SourcesOf(history))
    ensures Following(files, Some(p), seen,
              Opened(p, ResumeOffset(Replay(history).checkpoint, p, |files[p]|), 0), SourcesOf(history))
  {
    var stream := SourcesOf(history);
    var ls := LinesOf(stream, p);
    CheckpointIsLast(history);
    FramesEnd(ls, files[p], 0);
    if stream == [] || stream[|stream| - 1].inode != p {
      forall k | 0 <= k < |stream| ensures stream[k].inode != p {
      }
      LinesOfAbsent(stream, p);
    } else {
      assert End(ls, 0) == stream[|stream| - 1].line.end;
    }
  }

  /** Opening the path anew: none of its lines has been read yet. */
  lemma ReopenFollows(files: map<int, string>, path: Option<int>, seen: set<int>, f: Follower, stream: seq<Source>)
    requires World(files, path, seen, stream) && Following(files, path, seen, f, stream)
    requires f.phase == Leaving && path.Some?
    ensures Following(files, path, seen, Opened(path.value, 0, f.sequence), stream)
  {
    LinesOfAbsent(stream, path.value);
  }

  lemma InspectFollows(files: map<int, string>, path: Option<int>, seen: set<int>, f: Follower, stream: seq<Source>,
                       started: int, now: int, drainTimeout: int)
    requires World(files, path, seen, stream) && Following(files, path, seen, f, stream) && f.phase == AtEof
    ensures Following(files, path, seen, AfterPoll(f, path, |files[f.inode]|, started, now, drainTimeout), stream)
  {
  }

  // ---- each step ----

  /** Steps that leave the files, the follower and the stream alone. */
  lemma SameStreamInv(cfg: Config, s: State, s': State)
    requires Inv(cfg, s) && s.process.Up? && s'.process.Up?
    requires Recorded(cfg, s') && SessionInv(cfg, s'.process.session)
    requires s'.files == s.files && s'.path == s.path && s'.seen == s.seen
    requires s'.process.session.follower == s.process.session.follower
    requires Stream(s') == Stream(s)
    ensures Inv(cfg, s')
  {
  }

  lemma RecordedSnoc(cfg: Config, s: State, event: DbEvent, process: Process)
    requires Recorded(cfg, s)
    requires event.Committed? ==> ParsedFrom(cfg, event.source.line.text, event.entry)
    ensures Recorded(cfg, s.(db := Execute(s.db, event), history := s.history + [event], process := process))
  {
    ReplaySnoc(s.history, event);
  }

  /** Committing the next record moves the boundary within the stream, not the stream. */
  lemma StreamAfterCommit(history: seq<DbEvent>, event: DbEvent, ss: Session, ss': Session)
    requires event.Committed? && ss.nextSequence < |ss.emitted| && event.source == SourceOf(ss.emitted[ss.nextSequence])
    requires ss'.emitted == ss.emitted && ss'.nextSequence == ss.nextSequence + 1
    ensures SourcesOf(history + [event]) + Outstanding(ss') == SourcesOf(history) + Outstanding(ss)
  {
    var done, rest := SourcesOf(history), Outstanding(ss');
    SourcesSnoc(history, event);
    assert Outstanding(ss) == [event.source] + rest;
    assert done + ([event.source] + rest) == (done + [event.source]) + rest;
  }

  lemma CommitInv(cfg: Config, s: State, at: int, seen: int)
    requires Inv(cfg, s) && Enabled(cfg, s, ProcessNext(at, seen))
    ensures Inv(cfg, Do(cfg, s, ProcessNext(at, seen)))
  {
    var ss := s.process.session;
    var ss' := Processed(ss, at, seen);
    var p := ss.pending[ss.nextSequence];
    var event := Committed(SourceOf(p.record), p.entry, at);
    ProcessSession(cfg, ss, at, seen);
    RecordedSnoc(cfg, s, event, Up(ss'));
    StreamAfterCommit(s.history, event, ss, ss');
    SameStreamInv(cfg, s, Do(cfg, s, ProcessNext(at, seen)));
  }

  lemma TickRecorded(cfg: Config, s: State, now: int, at: int, expired: seq<MailTransaction>)
    requires Recorded(cfg, s) && Enabled(cfg, s, EvictTick(now, at, expired))
    ensures Recorded(cfg, Do(cfg, s, EvictTick(now, at, expired)))
  {
    RecordedSnoc(cfg, s, Swept(now - cfg.idleTimeout, at), Up(Ticked(cfg, s.process.session, now, at, expired)));
  }

  lemma StreamAfterTick(history: seq<DbEvent>, event: DbEvent, ss: Session, ss': Session)
    requires event.Swept? && ss.nextSequence <= |ss.emitted|
    requires ss'.emitted == ss.emitted && ss'.nextSequence == ss.nextSequence
    ensures SourcesOf(history + [event]) + Outstanding(ss') == SourcesOf(history) + Outstanding(ss)
  {
    SourcesSnoc(history, event);
    assert Outstanding(ss') == Outstanding(ss);
  }

  lemma TickInv(cfg: Config, s: State, now: int, at: int, expired: seq<MailTransaction>)
    requires Inv(cfg, s) && Enabled(cfg, s, EvictTick(now, at, expired))
    ensures Inv(cfg, Do(cfg, s, EvictTick(now, at, expired)))
  {
    var ss := s.process.session;
    TickSession(cfg, ss, now, at, expired);
    TickRecorded(cfg, s, now, at, expired);
    StreamAfterTick(s.history, Swept(now - cfg.idleTimeout, at), ss, Ticked(cfg, ss, now, at, expired));
    SameStreamInv(cfg, s, Do(cfg, s, EvictTick(now, at, expired)));
  }

  lemma StreamAfterRead(history: seq<DbEvent>, ss: Session, ss': Session, r: LineRecord)
    requires ss.nextSequence <= |ss.emitted| && ss'.nextSequence == ss.nextSequence && ss'.emitted == ss.emitted + [r]
    ensures SourcesOf(history) + Outstanding(ss') == (SourcesOf(history) + Outstanding(ss)) + [SourceOf(r)]
  {
    assert Outstanding(ss') == Outstanding(ss) + [SourceOf(r)];
  }

  /** A step that changes only the session, with the stream it leads to. */
  lemma SessionStepInv(cfg: Config, s: State, ss': Session, stream: seq<Source>)
    requires Inv(cfg, s) && s.process.Up? && SessionInv(cfg, ss')
    requires SourcesOf(s.history) + Outstanding(ss') == stream
    requires World(s.files, s.path, s.seen, stream) && Following(s.files, s.path, s.seen, ss'.follower, stream)
    ensures Inv(cfg, s.(process := Up(ss')))
  {
    assert Stream(s.(process := Up(ss'))) == stream;
  }

  lemma InternalInv(cfg: Config, s: State, l: Local)
    requires Inv(cfg, s) && Enabled(cfg, s, Internal(l))
    ensures Inv(cfg, Do(cfg, s, Internal(l)))
  {
    var ss := s.process.session;
    LocalSession(cfg, ss, l);
    LocalFrame(cfg, ss, l);
    SameReadingInv(cfg, s, LocalStep(cfg, ss, l));
  }

  lemma SameReadingInv(cfg: Config, s: State, ss': Session)
    requires Inv(cfg, s) && s.process.Up? && SessionInv(cfg, ss')
    requires ss'.follower == s.process.session.follower && ss'.emitted == s.process.session.emitted
    requires ss'.nextSequence == s.process.session.nextSequence
    ensures Inv(cfg, s.(process := Up(ss')))
  {
    assert Outstanding(ss') == Outstanding(s.process.session);
    SessionStepInv(cfg, s, ss', Stream(s));
  }

  lemma ReadInv(cfg: Config, s: State)
    requires Inv(cfg, s) && Enabled(cfg, s, ReadLine)
    ensures Inv(cfg, Do(cfg, s, ReadLine))
  {
    var ss, content := s.process.session, Content(s);
    var ss' := AfterRead(ss, content);
    var r := NextRecord(ss.follower, content);
    ReadSession(cfg, ss, content);
    WorldEmit(s.files, s.path, s.seen, ss.follower, Stream(s));
    StreamAfterRead(s.history, ss, ss', r);
    SessionStepInv(cfg, s, ss', Stream(s) + [SourceOf(r)]);
  }

  /** Steps that only change the follower. */
  lemma FollowerStepInv(cfg: Config, s: State, f: Follower)
    requires Inv(cfg, s) && s.process.Up? && f.sequence == s.process.session.follower.sequence
    requires Following(s.files, s.path, s.seen, f, Stream(s))
    ensures Inv(cfg, s.(process := Up(s.process.session.(follower := f))))
  {
    var ss := s.process.session;
    FollowerOnly(cfg, ss, f);
    assert Outstanding(ss.(follower := f)) == Outstanding(ss);
  }

  lemma EofInv(cfg: Config, s: State)
    requires Inv(cfg, s) && Enabled(cfg, s, ReadEof)
    ensures Inv(cfg, Do(cfg, s, ReadEof))
  {
    var f := s.process.session.follower;
    AlignedEof(f, LinesOf(Stream(s), f.inode), Content(s), 0);
    FollowerStepInv(cfg, s, AfterEof(f, Content(s)));
  }

  lemma InspectInv(cfg: Config, s: State, started: int, now: int)
    requires Inv(cfg, s) && Enabled(cfg, s, InspectPath(started, now))
    ensures Inv(cfg, Do(cfg, s, InspectPath(started, now)))
  {
    var f := s.process.session.follower;
    InspectFollows(s.files, s.path, s.seen, f, Stream(s), started, now, cfg.drainTimeout);
    FollowerStepInv(cfg, s, AfterPoll(f, s.path, |Content(s)|, started, now, cfg.drainTimeout));
  }

  lemma ReopenInv(cfg: Config, s: State)
    requires Inv(cfg, s) && Enabled(cfg, s, Reopen)
    ensures Inv(cfg, Do(cfg, s, Reopen))
  {
    var f := s.process.session.follower;
    ReopenFollows(s.files, s.path, s.seen, f, Stream(s));
    FollowerStepInv(cfg, s, Opened(s.path.value, 0, f.sequence));
  }

  lemma StartInv(cfg: Config, s: State)
    requires Inv(cfg, s) && Enabled(cfg, s, Start)
    ensures Inv(cfg, Do(cfg, s, Start))
  {
    NewSessionInv(cfg, s);
    assert Stream(s) == SourcesOf(s.history);
    assert Stream(Do(cfg, s, Start)) == SourcesOf(s.history);
    StartFollows(s.files, s.path.value, s.seen, s.history);
  }

  lemma CrashInv(cfg: Config, s: State)
    requires Inv(cfg, s) && Enabled(cfg, s, Crash)
    ensures Inv(cfg, Do(cfg, s, Crash))
  {
    var n := |SourcesOf(s.history)|;
    WorldPrefix(s.files, s.path, s.seen, Stream(s), n);
    assert Stream(s)[..n] == SourcesOf(s.history);
    assert Stream(Do(cfg, s, Crash)) == SourcesOf(s.history);
  }

  lemma AppendInv(cfg: Config, s: State, inode: int, more: string)
    requires Inv(cfg, s) && Enabled(cfg, s, AppendTo(inode, more))
    ensures Inv(cfg, Do(cfg, s, AppendTo(inode, more)))
  {
    WorldAppend(s.files, s.path, s.seen, Stream(s), inode, more);
    if s.process.Up? && s.process.session.follower.inode == inode {
      var f := s.process.session.follower;
      AlignedGrow(f, LinesOf(Stream(s), inode), s.files[inode], 0, more);
    }
  }

  lemma RotateInv(cfg: Config, s: State, replacement: Option<int>, content: string)
    requires Inv(cfg, s) && Enabled(cfg, s, Rotate(replacement, content))
    ensures Inv(cfg, Do(cfg, s, Rotate(replacement, content)))
  {
    if replacement.Some? {
      WorldRotate(s.files, s.path, s.seen, Stream(s), replacement.value, content);
    }
  }

  lemma StepInv(cfg: Config, s: State, step: Step)
    requires Inv(cfg, s) && Enabled(cfg, s, step)
    ensures Inv(cfg, Do(cfg, s, step))
  {
    match step
    case AppendTo(inode, more) => AppendInv(cfg, s, inode, more);
    case Rotate(replacement, content) => RotateInv(cfg, s, replacement, content);
    case Start => StartInv(cfg, s);
    case Crash => CrashInv(cfg, s);
    case Internal(l) => InternalInv(cfg, s, l);
    case ProcessNext(at, seen) => CommitInv(cfg, s, at, seen);
    case EvictTick(now, at, expired) => TickInv(cfg, s, now, at, expired);
    case ReadLine => ReadInv(cfg, s);
    case ReadEof => EofInv(cfg, s);
    case InspectPath(started, now) => InspectInv(cfg, s, started, now);
    case Reopen => ReopenInv(cfg, s);
  }

  lemma InitInv(cfg: Config, s: State)
    requires Init(s)
    ensures Inv(cfg, s)
  {
    assert Stream(s) == [];
  }

  lemma {:induction false} RunInv(cfg: Config, s: State, steps: seq<Step>)
    requires Init(s) && LegalRun(cfg, s, steps)
    ensures Inv(cfg, RunSteps(cfg, s, steps))
    decreases |steps|
  {
    if steps == [] {
      InitInv(cfg, s);
    } else {
      RunInv(cfg, s, steps[..|steps| - 1]);
      StepInv(cfg, RunSteps(cfg, s, steps[..|steps| - 1]), steps[|steps| - 1]);
    }
  }
}
