/**
  The concurrent pipeline processes records one by one in reading order, each exactly once,
  and what it has closed or stored stays; for every run.
 */
module OrderTheorems {
  import opened MailLog
  import opened LogFollower
  import opened MailTable
  import opened Pipeline
  import opened Placement
  import opened ExactlyOnce
  import opened StepFrames
  import SessionAgreement

  // ---- one place for every record ----

  /** Processed records are nowhere in flight, every other one is in exactly one place, no number is unknown. */
  ghost predicate OnePlaceEach(ss: Session) {
    && (forall k :: 0 <= k < ss.nextSequence ==> InFlight(ss)[k] == 0)
    && (forall k :: ss.nextSequence <= k < |ss.emitted| ==> InFlight(ss)[k] == 1)
    && (forall k :: |ss.emitted| <= k ==> InFlight(ss)[k] == 0)
  }

  lemma PlacedMeansOne(ss: Session)
    requires Placed(ss)
    ensures OnePlaceEach(ss)
  {
  }

  /**
    In every state of every run each record read and not yet processed is in exactly one of
    the follower's hand, the record channel, a worker, the parsed channel or the reorder
    buffer, and the next record to arrive at the buffer is never there already.
   */
  lemma EveryRecordInOnePlace(cfg: Config, s0: State, steps: seq<Step>)
    requires Init(s0) && LegalRun(cfg, s0, steps)
    ensures var s := RunSteps(cfg, s0, steps);
      s.process.Up? ==>
        && OnePlaceEach(s.process.session)
        && (s.process.session.parsed != [] ==>
              s.process.session.parsed[0].record.sequence !in s.process.session.pending)
  {
    RunInv(cfg, s0, steps);
    var s := RunSteps(cfg, s0, steps);
    if s.process.Up? {
      PlacedMeansOne(s.process.session);
      if s.process.session.parsed != [] {
        NeverOverwrites(s.process.session);
      }
    }
  }

  // ---- processed in reading order ----

  function SourcesUpTo(emitted: seq<LineRecord>, n: nat): seq<Source>
    requires n <= |emitted|
  {
    seq(n, i requires 0 <= i < n => SourceOf(emitted[i]))
  }

  /** What the session has committed is, record by record, the first records it read. */
  predicate CommittedPrefix(history: seq<DbEvent>, ss: Session) {
    var done := SourcesOf(history);
    && ss.nextSequence <= |ss.emitted| && ss.nextSequence <= |done|
    && done[|done| - ss.nextSequence..] == SourcesUpTo(ss.emitted, ss.nextSequence)
  }

  lemma CommitExtends(history: seq<DbEvent>, ss: Session, event: DbEvent, ss': Session)
    requires CommittedPrefix(history, ss) && ss.nextSequence < |ss.emitted|
    requires event.Committed? && event.source == SourceOf(ss.emitted[ss.nextSequence])
    requires ss'.emitted == ss.emitted && ss'.nextSequence == ss.nextSequence + 1
    ensures CommittedPrefix(history + [event], ss')
  {
    var done, n := SourcesOf(history), ss.nextSequence;
    SourcesSnoc(history, event);
    var done' := done + [event.source];
    assert done'[|done'| - (n + 1)..] == done[|done| - n..] + [event.source];
  }

  lemma KeepPrefix(history: seq<DbEvent>, ss: Session, history': seq<DbEvent>, ss': Session)
    requires CommittedPrefix(history, ss) && SourcesOf(history') == SourcesOf(history)
    requires ss'.nextSequence == ss.nextSequence && ss.emitted <= ss'.emitted
    ensures CommittedPrefix(history', ss')
  {
    assert SourcesUpTo(ss'.emitted, ss.nextSequence) == SourcesUpTo(ss.emitted, ss.nextSequence);
  }

  lemma OrderCommit(cfg: Config, s: State, at: int, seen: int)
    requires Inv(cfg, s) && Enabled(cfg, s, ProcessNext(at, seen)) && CommittedPrefix(s.history, s.process.session)
    ensures var s' := Do(cfg, s, ProcessNext(at, seen)); CommittedPrefix(s'.history, s'.process.session)
  {
    var ss := s.process.session;
    var p := ss.pending[ss.nextSequence];
    ProcessSession(cfg, ss, at, seen);
    CommitExtends(s.history, ss, Committed(SourceOf(p.record), p.entry, at), Processed(ss, at, seen));
  }

  lemma OrderStart(cfg: Config, s: State)
    requires Enabled(cfg, s, Start)
    ensures var s' := Do(cfg, s, Start); s'.process.Up? && CommittedPrefix(s'.history, s'.process.session)
  {
  }

  lemma OrderTick(cfg: Config, s: State, now: int, at: int, expired: seq<MailTransaction>)
    requires Enabled(cfg, s, EvictTick(now, at, expired)) && CommittedPrefix(s.history, s.process.session)
    ensures var s' := Do(cfg, s, EvictTick(now, at, expired)); CommittedPrefix(s'.history, s'.process.session)
  {
    var ss, event := s.process.session, Swept(now - cfg.idleTimeout, at);
    SourcesSnoc(s.history, event);
    KeepPrefix(s.history, ss, s.history + [event], Ticked(cfg, ss, now, at, expired));
  }

  lemma OrderSilent(s: State, s': State)
    requires Silent(s, s') && (s.process.Up? ==> CommittedPrefix(s.history, s.process.session))
    ensures s'.process.Up? ==> CommittedPrefix(s'.history, s'.process.session)
  {
    if s.process.Up? {
      KeepPrefix(s.history, s.process.session, s'.history, s'.process.session);
    }
  }

  lemma OrderStep(cfg: Config, s: State, step: Step) returns (s': State)
    requires Inv(cfg, s) && Enabled(cfg, s, step)
    requires s.process.Up? ==> CommittedPrefix(s.history, s.process.session)
    ensures s' == Do(cfg, s, step)
    ensures s'.process.Up? ==> CommittedPrefix(s'.history, s'.process.session)
  {
    s' := Do(cfg, s, step);
    match step
    case ProcessNext(at, seen) => OrderCommit(cfg, s, at, seen);
    case EvictTick(now, at, expired) => OrderTick(cfg, s, now, at, expired);
    case Start => OrderStart(cfg, s);
    case Crash => assert s'.process.Down?;
    case _ =>
      SilentStep(cfg, s, step);
      OrderSilent(s, s');
  }

  /**
    In every state of every run, the lines a session has committed are exactly the records
    numbered 0 up to the next one, in that order, whatever order the workers finished in.
   */
  lemma {:induction false} ProcessedInOrder(cfg: Config, s0: State, steps: seq<Step>)
    requires Init(s0) && LegalRun(cfg, s0, steps)
    ensures var s := RunSteps(cfg, s0, steps); s.process.Up? ==> CommittedPrefix(s.history, s.process.session)
    decreases |steps|
  {
    if steps != [] {
      var init := steps[..|steps| - 1];
      ProcessedInOrder(cfg, s0, init);
      RunInv(cfg, s0, init);
      var _ := OrderStep(cfg, RunSteps(cfg, s0, init), steps[|steps| - 1]);
    }
  }

  // ---- what is stored stays ----

  predicate Distinct(entries: seq<LogEntry>) {
    forall i, j :: 0 <= i < j < |entries| ==> entries[i].rawHash != entries[j].rawHash
  }

  /** Every committed entry's line is stored, and everything stored was committed. */
  predicate StoresExactly(entries: seq<LogEntry>, events: seq<DbEvent>) {
    && (forall k :: 0 <= k < |events| && events[k].Committed? && events[k].entry.Some? ==>
          HasHash(entries, events[k].entry.value.rawHash))
    && (forall i :: 0 <= i < |entries| ==> WasCommitted(events, entries[i]))
  }

  predicate HasHash(entries: seq<LogEntry>, hash: string) {
    exists i :: 0 <= i < |entries| && entries[i].rawHash == hash
  }

  predicate WasCommitted(events: seq<DbEvent>, e: LogEntry) {
    exists k :: 0 <= k < |events| && events[k].Committed? && events[k].entry == Some(e)
  }

  lemma InsertStores(entries: seq<LogEntry>, e: LogEntry)
    requires Distinct(entries)
    ensures Distinct(InsertEntry(entries, e)) && HasHash(InsertEntry(entries, e), e.rawHash)
    ensures entries <= InsertEntry(entries, e)
    ensures forall i :: |entries| <= i < |InsertEntry(entries, e)| ==> InsertEntry(entries, e)[i] == e
  {
    if !HasHash(entries, e.rawHash) {
      var more := InsertEntry(entries, e);
      assert more == entries + [e];
      assert more[|entries|].rawHash == e.rawHash;
    }
  }

  lemma HashesStay(entries: seq<LogEntry>, more: seq<LogEntry>, hash: string)
    requires entries <= more && HasHash(entries, hash)
    ensures HasHash(more, hash)
  {
    var i :| 0 <= i < |entries| && entries[i].rawHash == hash;
    assert more[i] == entries[i];
  }

  lemma CommittedStays(events: seq<DbEvent>, event: DbEvent, e: LogEntry)
    requires WasCommitted(events, e)
    ensures WasCommitted(events + [event], e)
  {
    var k :| 0 <= k < |events| && events[k].Committed? && events[k].entry == Some(e);
    assert (events + [event])[k] == events[k];
  }

  /** maillog_entries: one row per distinct line hash among the committed entries. */
  lemma {:induction false} EntriesDeduplicated(events: seq<DbEvent>)
    ensures Distinct(Replay(events).entries) && StoresExactly(Replay(events).entries, events)
    decreases |events|
  {
    if events != [] {
      var n := |events| - 1;
      EntriesDeduplicated(events[..n]);
      assert events == events[..n] + [events[n]];
      StoreStep(events[..n], events[n], Replay(events[..n]).entries, Replay(events).entries);
    }
  }

  lemma StoreStep(events: seq<DbEvent>, event: DbEvent, entries: seq<LogEntry>, entries': seq<LogEntry>)
    requires Distinct(entries) && StoresExactly(entries, events)
    requires entries' ==
      if event.Committed? && event.entry.Some? then InsertEntry(entries, event.entry.value) else entries
    ensures Distinct(entries') && StoresExactly(entries', events + [event])
  {
    var all := events + [event];
    if event.Committed? && event.entry.Some? {
      InsertStores(entries, event.entry.value);
    }
    assert all[|events|] == event;
    forall k | 0 <= k < |all| && all[k].Committed? && all[k].entry.Some?
      ensures HasHash(entries', all[k].entry.value.rawHash)
    {
      if k < |events| {
        assert all[k] == events[k];
        HashesStay(entries, entries', all[k].entry.value.rawHash);
      }
    }
    forall i | 0 <= i < |entries'| ensures WasCommitted(all, entries'[i]) {
      if i < |entries| {
        assert entries'[i] == entries[i];
        CommittedStays(events, event, entries[i]);
      } else {
        assert entries'[i] == event.entry.value;
      }
    }
  }

  lemma RowsCommit(cfg: Config, s: State, at: int, seen: int)
    requires TableInv(s.db.rows) && Enabled(cfg, s, ProcessNext(at, seen))
    ensures Preserves(s.db.rows, Do(cfg, s, ProcessNext(at, seen)).db.rows)
  {
    var p := s.process.session.pending[s.process.session.nextSequence];
    if p.entry.Some? && p.entry.value.queueId != "" {
      MergeKeepsInvariant(s.db.rows, p.entry.value, at);
    }
  }

  lemma RowsStep(cfg: Config, s: State, step: Step)
    requires TableInv(s.db.rows) && Enabled(cfg, s, step)
    ensures Preserves(s.db.rows, Do(cfg, s, step).db.rows)
  {
    match step
    case ProcessNext(at, seen) => RowsCommit(cfg, s, at, seen);
    case EvictTick(now, at, expired) => EvictKeepsInvariant(s.db.rows, now - cfg.idleTimeout, at);
    case Start => assert Do(cfg, s, step).db == s.db;
    case Crash => assert Do(cfg, s, step).db == s.db;
    case _ => SilentStep(cfg, s, step);
  }

  /** Over whole runs, crashes included: a row once closed is never changed again, and no row disappears. */
  lemma {:induction false} ClosedRowsAreFinal(cfg: Config, s0: State, steps: seq<Step>, k: nat)
    requires ValidConfig(cfg) && Init(s0) && LegalRun(cfg, s0, steps) && k <= |steps|
    ensures LegalRun(cfg, s0, steps[..k])
    ensures Preserves(RunSteps(cfg, s0, steps[..k]).db.rows, RunSteps(cfg, s0, steps).db.rows)
    decreases |steps|
  {
    if k == |steps| {
      assert steps[..k] == steps;
    } else {
      var init := steps[..|steps| - 1];
      ClosedRowsAreFinal(cfg, s0, init, k);
      assert init[..k] == steps[..k];
      SessionAgreement.RunTrail(cfg, s0, init);
      RowsStep(cfg, RunSteps(cfg, s0, init), steps[|steps| - 1]);
    }
  }
}
