/**
  What mail_transactions means, queue by queue, after any run of the pipeline: a ledger that
  looks at one queue's committed entries and at the sweeps alone tells every row of the queue.
 */
module TableMeaning {
  import opened MailLog
  import opened MailTable
  import opened StitcherRuns
  import opened Agreement
  import P = Pipeline
  import E = ExactlyOnce
  import I = IngestTheorems

  /** Consecutive entries of one queue that make up one closed row. */
  datatype Group = Group(entries: seq<LogEntry>, timedOut: bool)

  /** One queue's groups so far, the entries since the last one, and when the newest of them came. */
  datatype Ledger = Ledger(closed: seq<Group>, rest: seq<LogEntry>, touched: int)

  const NEW: Ledger := Ledger([], [], 0)

  function Enter(l: Ledger, e: LogEntry, at: int): Ledger {
    if IsTerminalStatus(e.status) then Ledger(l.closed + [Group(l.rest + [e], false)], [], at)
    else Ledger(l.closed, l.rest + [e], at)
  }

  function Expire(l: Ledger, cutoff: int): Ledger {
    if l.rest != [] && l.touched < cutoff then Ledger(l.closed + [Group(l.rest, true)], [], l.touched) else l
  }

  function Note(l: Ledger, event: P.DbEvent, q: string): Ledger {
    match event
    case Committed(_, entry, at) => if entry.Some? && entry.value.queueId == q then Enter(l, entry.value, at) else l
    case Swept(cutoff, _) => Expire(l, cutoff)
  }

  function LedgerOf(events: seq<P.DbEvent>, q: string): Ledger {
    if events == [] then NEW else Note(LedgerOf(events[..|events| - 1], q), events[|events| - 1], q)
  }

  predicate Full(groups: seq<Group>) {
    forall i :: 0 <= i < |groups| ==> groups[i].entries != []
  }

  /** The transaction a closed row records. */
  function Stored(g: Group): MailTransaction
    requires g.entries != []
  {
    if g.timedOut then Written(Meaning(g.entries).(timedOut := true)) else Meaning(g.entries)
  }

  function StoredAll(groups: seq<Group>): seq<MailTransaction>
    requires Full(groups)
  {
    seq(|groups|, i requires 0 <= i < |groups| => Stored(groups[i]))
  }

  predicate OpenMeans(row: Row, rest: seq<LogEntry>, touched: int) {
    rest != [] && row.raw != "" && View(row) == Meaning(rest) && row.updatedAt == touched
  }

  /**
    The rows of a queue are those of its ledger: the closed ones record its groups in order,
    and there is an open one, which records the rest, exactly when there is a rest.
   */
  predicate RowsMean(rows: seq<Row>, l: Ledger, q: string) {
    && Full(l.closed) && ClosedFor(rows, 0, q) == StoredAll(l.closed)
    && (HasOpen(rows, q) <==> l.rest != [])
    && forall i :: 0 <= i < |rows| && OpenFor(rows[i], q) ==> OpenMeans(rows[i], l.rest, l.touched)
  }

  // ---- one entry ----

  lemma StoredSnoc(groups: seq<Group>, g: Group)
    requires Full(groups) && g.entries != []
    ensures Full(groups + [g]) && StoredAll(groups + [g]) == StoredAll(groups) + [Stored(g)]
  {
  }

  /** The row the merge writes means the entries since the last group and the new one. */
  lemma MergedRow(rows: seq<Row>, l: Ledger, e: LogEntry, at: int, k: nat, row: Row)
    requires TableInv(rows) && RowsMean(rows, l, e.queueId) && e.HasLineText()
    requires k == MergePosition(rows, e.queueId) && k < |Merge(rows, e, at)| && row == Merge(rows, e, at)[k]
    ensures OpenMeans(row, l.rest + [e], at) && row.terminal == IsTerminalStatus(e.status)
  {
    var n := NewestOpen(rows, e.queueId);
    if n > 0 {
      assert OpenMeans(rows[k], l.rest, l.touched);
      AbsorbAgrees(rows[k], e, at);
      MeaningSnoc(l.rest, e);
    } else {
      assert l.rest + [e] == [e];
      OpenAgrees(e, at);
      MeaningOfOne(e);
    }
  }

  lemma PutOpen(rows: seq<Row>, k: nat, row: Row, rows': seq<Row>, i: nat)
    requires Put(rows, k, row, rows') && PutPlace(rows, k, row.queueId) && i < |rows'|
    ensures OpenFor(rows'[i], row.queueId) ==> i == k && rows'[i] == row && !row.terminal
  {
    if i != k {
      assert rows'[i] == rows[i];
    }
  }

  lemma PutCloses(rows: seq<Row>, l: Ledger, k: nat, row: Row, rows': seq<Row>, e: LogEntry, at: int)
    requires RowsMean(rows, l, row.queueId) && Put(rows, k, row, rows') && PutPlace(rows, k, row.queueId)
    requires OpenMeans(row, l.rest + [e], at) && row.terminal && IsTerminalStatus(e.status)
    ensures RowsMean(rows', Enter(l, e, at), row.queueId)
  {
    PutClosedFor(rows, 0, k, row, rows', row.queueId);
    StoredSnoc(l.closed, Group(l.rest + [e], false));
    forall i | 0 <= i < |rows'| ensures !OpenFor(rows'[i], row.queueId) {
      PutOpen(rows, k, row, rows', i);
    }
  }

  lemma PutKeeps(rows: seq<Row>, l: Ledger, k: nat, row: Row, rows': seq<Row>, e: LogEntry, at: int)
    requires RowsMean(rows, l, row.queueId) && Put(rows, k, row, rows') && PutPlace(rows, k, row.queueId)
    requires OpenMeans(row, l.rest + [e], at) && !row.terminal && !IsTerminalStatus(e.status)
    ensures RowsMean(rows', Enter(l, e, at), row.queueId)
  {
    PutClosedFor(rows, 0, k, row, rows', row.queueId);
    assert ClosedFor(rows, 0, row.queueId) + [] == ClosedFor(rows, 0, row.queueId);
    forall i | 0 <= i < |rows'| && OpenFor(rows'[i], row.queueId) ensures OpenMeans(rows'[i], l.rest + [e], at) {
      PutOpen(rows, k, row, rows', i);
    }
    assert OpenFor(rows'[k], row.queueId);
  }

  lemma PutElsewhere(rows: seq<Row>, l: Ledger, k: nat, row: Row, rows': seq<Row>, q: string)
    requires RowsMean(rows, l, q) && Put(rows, k, row, rows') && PutPlace(rows, k, row.queueId) && row.queueId != q
    ensures RowsMean(rows', l, q)
  {
    PutClosedFor(rows, 0, k, row, rows', q);
    assert ClosedFor(rows, 0, q) + [] == ClosedFor(rows, 0, q);
    OpenElsewhere(rows, k, row, rows', q);
  }

  /** Writing a row of another queue leaves the open rows of this one where they are. */
  lemma OpenElsewhere(rows: seq<Row>, k: nat, row: Row, rows': seq<Row>, q: string)
    requires Put(rows, k, row, rows') && PutPlace(rows, k, row.queueId) && row.queueId != q
    ensures HasOpen(rows', q) <==> HasOpen(rows, q)
    ensures forall i :: 0 <= i < |rows'| && OpenFor(rows'[i], q) ==>
      i < |rows| && OpenFor(rows[i], q) && rows'[i] == rows[i]
  {
    if HasOpen(rows, q) {
      var i :| 0 <= i < |rows| && OpenFor(rows[i], q);
      assert OpenFor(rows'[i], q);
    }
    if HasOpen(rows', q) {
      var i :| 0 <= i < |rows'| && OpenFor(rows'[i], q);
      assert OpenFor(rows[i], q);
    }
  }

  lemma MergeMeans(rows: seq<Row>, l: Ledger, e: LogEntry, at: int, q: string, rows': seq<Row>)
    requires TableInv(rows) && RowsMean(rows, l, q) && e.HasLineText() && rows' == Merge(rows, e, at)
    ensures RowsMean(rows', if e.queueId == q then Enter(l, e, at) else l, q)
  {
    var k := MergePosition(rows, e.queueId);
    MergeIsPut(rows, e, at);
    if e.queueId != q {
      PutElsewhere(rows, l, k, rows'[k], rows', q);
    } else {
      MergedRow(rows, l, e, at, k, rows'[k]);
      if IsTerminalStatus(e.status) {
        PutCloses(rows, l, k, rows'[k], rows', e, at);
      } else {
        PutKeeps(rows, l, k, rows'[k], rows', e, at);
      }
    }
  }

  // ---- one sweep ----

  lemma SweepCloses(rows: seq<Row>, l: Ledger, rows': seq<Row>, cutoff: int, at: int, q: string)
    requires TableInv(rows) && RowsMean(rows, l, q) && SweptTo(rows, rows', cutoff, at)
    requires l.rest != [] && l.touched < cutoff
    ensures RowsMean(rows', Expire(l, cutoff), q)
  {
    var k :| 0 <= k < |rows| && OpenFor(rows[k], q);
    assert OpenMeans(rows[k], l.rest, l.touched) && RowInv(rows[k]);
    SweptClosedFor(rows, rows', 0, cutoff, at, k);
    SweptView(rows[k], at);
    StoredSnoc(l.closed, Group(l.rest, true));
    NoneOpenAfter(rows, rows', cutoff, at, k);
  }

  lemma SweepKeeps(rows: seq<Row>, l: Ledger, rows': seq<Row>, cutoff: int, at: int, q: string)
    requires RowsMean(rows, l, q) && SweptTo(rows, rows', cutoff, at) && (l.rest == [] || cutoff <= l.touched)
    ensures RowsMean(rows', l, q)
  {
    forall i | 0 <= i < |rows| && rows[i].queueId == q ensures !Idle(rows[i], cutoff) && rows'[i] == rows[i] {
      if OpenFor(rows[i], q) {
        assert OpenMeans(rows[i], l.rest, l.touched);
      }
    }
    UnsweptClosedFor(rows, rows', 0, cutoff, at, q);
    SameOpen(rows, rows', q);
  }

  lemma SameOpen(rows: seq<Row>, rows': seq<Row>, q: string)
    requires |rows'| == |rows|
    requires forall i :: 0 <= i < |rows| && rows[i].queueId == q ==> rows'[i] == rows[i]
    requires forall i :: 0 <= i < |rows| ==> rows'[i].queueId == rows[i].queueId
    ensures HasOpen(rows', q) <==> HasOpen(rows, q)
    ensures forall i :: 0 <= i < |rows| && OpenFor(rows'[i], q) ==> OpenFor(rows[i], q) && rows'[i] == rows[i]
  {
    if HasOpen(rows, q) {
      var i :| 0 <= i < |rows| && OpenFor(rows[i], q);
      assert OpenFor(rows'[i], q);
    }
    if HasOpen(rows', q) {
      var i :| 0 <= i < |rows'| && OpenFor(rows'[i], q);
      assert OpenFor(rows[i], q);
    }
  }

  // ---- any sequence of events ----

  /** Every entry committed holds the text of one line. */
  predicate LineTexts(events: seq<P.DbEvent>) {
    forall k :: 0 <= k < |events| && events[k].Committed? && events[k].entry.Some? ==>
      events[k].entry.value.HasLineText()
  }

  lemma EventMeans(rows: seq<Row>, l: Ledger, event: P.DbEvent, q: string, rows': seq<Row>)
    requires TableInv(rows) && RowsMean(rows, l, q) && q != ""
    requires event.Committed? && event.entry.Some? ==> event.entry.value.HasLineText()
    requires rows' == match event
      case Committed(_, entry, at) =>
        if entry.Some? && entry.value.queueId != "" then Merge(rows, entry.value, at) else rows
      case Swept(cutoff, at) => Evict(rows, cutoff, at)
    ensures TableInv(rows') && RowsMean(rows', Note(l, event, q), q)
  {
    match event
    case Committed(_, entry, at) =>
      if entry.Some? && entry.value.queueId != "" {
        MergeKeepsInvariant(rows, entry.value, at);
        MergeMeans(rows, l, entry.value, at, q, rows');
      }
    case Swept(cutoff, at) =>
      EvictKeepsInvariant(rows, cutoff, at);
      if l.rest != [] && l.touched < cutoff {
        SweepCloses(rows, l, rows', cutoff, at, q);
      } else {
        SweepKeeps(rows, l, rows', cutoff, at, q);
      }
  }

  lemma {:induction false} ReplayMeans(events: seq<P.DbEvent>, q: string)
    requires LineTexts(events) && q != ""
    ensures TableInv(P.Replay(events).rows) && RowsMean(P.Replay(events).rows, LedgerOf(events, q), q)
    decreases |events|
  {
    if events == [] {
      assert StoredAll([]) == [];
    } else {
      var init, event := events[..|events| - 1], events[|events| - 1];
      ReplayMeans(init, q);
      EventMeans(P.Replay(init).rows, LedgerOf(init, q), event, q, P.Replay(events).rows);
    }
  }

  // ---- the ledger keeps every entry, once and in order ----

  /** The entries an event sequence commits, in order. */
  function EntriesOf(events: seq<P.DbEvent>): seq<LogEntry> {
    if events == [] then []
    else
      var event := events[|events| - 1];
      EntriesOf(events[..|events| - 1]) +
      if event.Committed? && event.entry.Some? then [event.entry.value] else []
  }

  function Flat(groups: seq<Group>): seq<LogEntry> {
    if groups == [] then [] else Flat(groups[..|groups| - 1]) + groups[|groups| - 1].entries
  }

  lemma FlatSnoc(groups: seq<Group>, g: Group)
    ensures Flat(groups + [g]) == Flat(groups) + g.entries
  {
    assert (groups + [g])[..|groups|] == groups;
  }

  lemma MineSnoc(entries: seq<LogEntry>, e: LogEntry, q: string)
    ensures Mine(entries + [e], q) == Mine(entries, q) + if e.queueId == q then [e] else []
  {
    assert (entries + [e])[..|entries|] == entries;
  }

  lemma EnterKeeps(l: Ledger, e: LogEntry, at: int)
    ensures Flat(Enter(l, e, at).closed) + Enter(l, e, at).rest == Flat(l.closed) + l.rest + [e]
  {
    FlatSnoc(l.closed, Group(l.rest + [e], false));
  }

  lemma ExpireKeeps(l: Ledger, cutoff: int)
    ensures Flat(Expire(l, cutoff).closed) + Expire(l, cutoff).rest == Flat(l.closed) + l.rest
  {
    FlatSnoc(l.closed, Group(l.rest, true));
  }

  lemma {:induction false} LedgerKeepsEntries(events: seq<P.DbEvent>, q: string)
    ensures Flat(LedgerOf(events, q).closed) + LedgerOf(events, q).rest == Mine(EntriesOf(events), q)
    decreases |events|
  {
    if events != [] {
      var init, event := events[..|events| - 1], events[|events| - 1];
      var l := LedgerOf(init, q);
      LedgerKeepsEntries(init, q);
      match event
      case Committed(_, entry, at) =>
        if entry.Some? {
          MineSnoc(EntriesOf(init), entry.value, q);
          EnterKeeps(l, entry.value, at);
        } else {
          assert EntriesOf(events) == EntriesOf(init);
        }
      case Swept(cutoff, at) =>
        assert EntriesOf(events) == EntriesOf(init);
        ExpireKeeps(l, cutoff);
    }
  }

  predicate SameCut(l: Ledger, c: Cutting) {
    && l.rest == c.rest && |l.closed| == |c.groups|
    && forall i :: 0 <= i < |c.groups| ==> l.closed[i] == Group(c.groups[i], false)
  }

  lemma EnterCuts(l: Ledger, mine: seq<LogEntry>, e: LogEntry, at: int)
    requires SameCut(l, Cut(mine))
    ensures SameCut(Enter(l, e, at), Cut(mine + [e]))
  {
    CutSnoc(mine, e);
  }

  /** Without sweeps the ledger is the cutting after each terminal status. */
  lemma {:induction false} LedgerIsCut(events: seq<P.DbEvent>, q: string)
    requires forall k :: 0 <= k < |events| ==> events[k].Committed?
    ensures SameCut(LedgerOf(events, q), Cut(Mine(EntriesOf(events), q)))
    decreases |events|
  {
    if events != [] {
      var init, event := events[..|events| - 1], events[|events| - 1];
      LedgerIsCut(init, q);
      if event.entry.Some? {
        var e := event.entry.value;
        MineSnoc(EntriesOf(init), e, q);
        if e.queueId == q {
          EnterCuts(LedgerOf(init, q), Mine(EntriesOf(init), q), e, event.at);
        } else {
          assert Mine(EntriesOf(events), q) == Mine(EntriesOf(init), q);
        }
      } else {
        assert EntriesOf(events) == EntriesOf(init);
      }
    }
  }

  // ---- the raw lines of a queue's rows ----

  function AllRaw(txs: seq<MailTransaction>): seq<string> {
    if txs == [] then [] else AllRaw(txs[..|txs| - 1]) + txs[|txs| - 1].raw
  }

  function OpenLines(rows: seq<Row>, q: string): seq<string> {
    var n := NewestOpen(rows, q);
    if n > 0 then View(rows[n - 1]).raw else []
  }

  lemma RawsConcat(a: seq<LogEntry>, b: seq<LogEntry>)
    ensures Raws(a + b) == Raws(a) + Raws(b)
  {
  }

  lemma {:induction false} StoredRaw(groups: seq<Group>)
    requires Full(groups)
    ensures AllRaw(StoredAll(groups)) == Raws(Flat(groups))
  {
    if groups != [] {
      var init, g := groups[..|groups| - 1], groups[|groups| - 1];
      StoredRaw(init);
      assert StoredAll(groups)[..|groups| - 1] == StoredAll(init);
      assert Stored(g).raw == Raws(g.entries);
      RawsConcat(Flat(init), g.entries);
    }
  }

  lemma RowsKeepLines(rows: seq<Row>, l: Ledger, q: string)
    requires RowsMean(rows, l, q)
    ensures AllRaw(ClosedFor(rows, 0, q)) + OpenLines(rows, q) == Raws(Flat(l.closed) + l.rest)
  {
    StoredRaw(l.closed);
    RawsConcat(Flat(l.closed), l.rest);
    var n := NewestOpen(rows, q);
    if n > 0 {
      assert OpenMeans(rows[n - 1], l.rest, l.touched);
    } else {
      assert l.rest == [];
    }
  }

  // ---- every run of the pipeline ----

  lemma {:induction false} CommittedText(events: seq<P.DbEvent>, k: nat)
    requires k < |events| && events[k].Committed?
    requires forall i :: 0 <= i < |P.SourcesOf(events)| ==> '\n' !in P.SourcesOf(events)[i].line.text
    ensures '\n' !in events[k].source.line.text
    decreases |events|
  {
    var last := |events| - 1;
    var before := P.SourcesOf(events[..last]);
    if k == last {
      assert P.SourcesOf(events)[|before|] == events[k].source;
    } else {
      forall i | 0 <= i < |before| ensures '\n' !in before[i].line.text {
        assert P.SourcesOf(events)[i] == before[i];
      }
      CommittedText(events[..last], k);
    }
  }

  lemma HistoryTexts(cfg: P.Config, s: P.State)
    requires P.ValidConfig(cfg) && E.Inv(cfg, s)
    ensures LineTexts(s.history)
  {
    var done := P.SourcesOf(s.history);
    I.CommittedWorld(cfg, s);
    forall i | 0 <= i < |done| ensures '\n' !in done[i].line.text {
      I.StreamText(s.files, s.seen, done, i);
    }
    forall k | 0 <= k < |s.history| && s.history[k].Committed? && s.history[k].entry.Some?
      ensures s.history[k].entry.value.HasLineText()
    {
      CommittedText(s.history, k);
      var now :| cfg.parse(s.history[k].source.line.text, now) == s.history[k].entry;
    }
  }

  /**
    After any run, through crashes, rotations and evictions, the rows of every queue are
    those its ledger tells from the queue's own committed entries and the sweeps.
   */
  lemma TableMeans(cfg: P.Config, s0: P.State, steps: seq<P.Step>, q: string)
    requires P.ValidConfig(cfg) && P.Init(s0) && P.LegalRun(cfg, s0, steps) && q != ""
    ensures var s := P.RunSteps(cfg, s0, steps);
      TableInv(s.db.rows) && RowsMean(s.db.rows, LedgerOf(s.history, q), q)
  {
    var s := P.RunSteps(cfg, s0, steps);
    E.RunInv(cfg, s0, steps);
    HistoryTexts(cfg, s);
    ReplayMeans(s.history, q);
  }

  /**
    After any run, the lines of a queue's closed rows in order, followed by those of its open
    row, are exactly the raw lines of the entries committed for it.
   */
  lemma TableKeepsLines(cfg: P.Config, s0: P.State, steps: seq<P.Step>, q: string)
    requires P.ValidConfig(cfg) && P.Init(s0) && P.LegalRun(cfg, s0, steps) && q != ""
    ensures var s := P.RunSteps(cfg, s0, steps);
      AllRaw(ClosedFor(s.db.rows, 0, q)) + OpenLines(s.db.rows, q) == Raws(Mine(EntriesOf(s.history), q))
  {
    var s := P.RunSteps(cfg, s0, steps);
    TableMeans(cfg, s0, steps, q);
    LedgerKeepsEntries(s.history, q);
    RowsKeepLines(s.db.rows, LedgerOf(s.history, q), q);
  }

  predicate NoEviction(steps: seq<P.Step>) {
    forall k :: 0 <= k < |steps| ==> !steps[k].EvictTick?
  }

  lemma {:induction false} DbStepsAmong(steps: seq<P.Step>)
    requires NoEviction(steps)
    ensures NoEviction(I.DbSteps(steps))
  {
    if steps != [] {
      DbStepsAmong(steps[..|steps| - 1]);
    }
  }

  /** The rows of a queue are the meanings of the groups cut, and one open row for the rest. */
  predicate RowsAreCut(rows: seq<Row>, c: Cutting, q: string) {
    && (forall i :: 0 <= i < |c.groups| ==> c.groups[i] != [])
    && ClosedFor(rows, 0, q) == Meanings(c.groups)
    && (HasOpen(rows, q) <==> c.rest != [])
    && (forall i :: 0 <= i < |rows| && OpenFor(rows[i], q) ==> c.rest != [] && View(rows[i]) == Meaning(c.rest))
  }

  lemma CutRows(rows: seq<Row>, l: Ledger, c: Cutting, q: string)
    requires RowsMean(rows, l, q) && SameCut(l, c)
    ensures RowsAreCut(rows, c, q)
  {
    forall i | 0 <= i < |c.groups| ensures c.groups[i] != [] && Stored(l.closed[i]) == Meaning(c.groups[i]) {
    }
    assert StoredAll(l.closed) == Meanings(c.groups);
    forall i | 0 <= i < |rows| && OpenFor(rows[i], q) ensures c.rest != [] && View(rows[i]) == Meaning(c.rest) {
      assert OpenMeans(rows[i], l.rest, l.touched);
    }
  }

  /**
    After any run without eviction, whatever its crashes and rotations, the rows of a queue are
    the meanings of its committed entries cut after each terminal status, and one open row for
    what is left over.
   */
  lemma TableIsCut(cfg: P.Config, s0: P.State, steps: seq<P.Step>, q: string)
    requires P.ValidConfig(cfg) && P.Init(s0) && P.LegalRun(cfg, s0, steps) && NoEviction(steps) && q != ""
    ensures var s := P.RunSteps(cfg, s0, steps);
      RowsAreCut(s.db.rows, Cut(Mine(EntriesOf(s.history), q)), q)
  {
    var s := P.RunSteps(cfg, s0, steps);
    TableMeans(cfg, s0, steps, q);
    I.HistoryRan(cfg, s0, steps);
    DbStepsAmong(steps);
    OnlyCommits(cfg, I.DbSteps(steps), s.history);
    LedgerIsCut(s.history, q);
    CutRows(s.db.rows, LedgerOf(s.history, q), Cut(Mine(EntriesOf(s.history), q)), q);
  }

  lemma OnlyCommits(cfg: P.Config, ran: seq<P.Step>, events: seq<P.DbEvent>)
    requires I.RanAs(cfg, ran, events) && NoEviction(ran)
    ensures forall k :: 0 <= k < |events| ==> events[k].Committed?
  {
    forall k | 0 <= k < |events| ensures events[k].Committed? {
      assert I.Leaves(cfg, ran[k], events[k]);
    }
  }
}
