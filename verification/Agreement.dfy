/**
  The two stitching implementations side by side: the in-memory stitcher and the
  UPDATE-or-INSERT on mail_transactions, fed the same entries and ticks.
 */
module Agreement {
  import opened MailLog
  import opened MailTable
  import S = Stitcher
  import opened TextList

  /** The transaction a row records: a NULL score reads as 0, the text splits into lines. */
  function View(row: Row): MailTransaction {
    MailTransaction(
      row.arrival, row.last, row.queueId, row.host, row.process, row.mailFrom, row.mailTo, row.status,
      row.relay, row.delay, row.delays, row.dsn, row.messageId, row.sizeBytes, row.queuedAs, row.mailId,
      row.subject, row.hits, row.helo, row.amavisOrigin, row.isJunk,
      if row.spamScore.Some? then row.spamScore.value else 0.0,
      row.timedOut, Split(row.raw, '\n'))
  }

  /** Eviction writes a status into the table where memory leaves it empty. */
  function Written(tx: MailTransaction): MailTransaction {
    if tx.timedOut && tx.status == "" then tx.(status := "timed_out") else tx
  }

  /** The table's text is the newline-join of the lines memory lists. */
  lemma RawIsJoin(row: Row)
    ensures row.raw == Join(View(row).raw, '\n')
  {
    JoinSplit(row.raw, '\n');
  }

  predicate HasOpen(rows: seq<Row>, q: string) {
    exists i :: 0 <= i < |rows| && OpenFor(rows[i], q)
  }

  /** An open row and the open queue it belongs to. */
  predicate OpenRowAgrees(queues: S.Queues, row: Row) {
    row.raw != "" && row.queueId in queues && queues[row.queueId].transaction == View(row)
  }

  /** Open in memory exactly when the table has the queue's open row, with the same fields. */
  predicate OpenAgree(queues: S.Queues, rows: seq<Row>) {
    && (forall i :: 0 <= i < |rows| && !rows[i].terminal ==> OpenRowAgrees(queues, rows[i]))
    && (forall q :: q in queues ==> HasOpen(rows, q))
  }

  /** What the closed rows of a queue at or after position `from` record, oldest first. */
  function ClosedFor(rows: seq<Row>, from: nat, q: string): seq<MailTransaction> {
    if |rows| <= from then []
    else ClosedFor(rows[..|rows| - 1], from, q) + ClosedOne(rows[|rows| - 1], q)
  }

  function ClosedOne(row: Row, q: string): seq<MailTransaction> {
    if row.terminal && row.queueId == q then [View(row)] else []
  }

  /** The transactions emitted for a queue, in emission order, as the table writes them. */
  function EmittedFor(out: seq<MailTransaction>, q: string): seq<MailTransaction> {
    if out == [] then [] else EmittedFor(out[..|out| - 1], q) + EmittedOne(out[|out| - 1], q)
  }

  function EmittedOne(tx: MailTransaction, q: string): seq<MailTransaction> {
    if tx.queueId == q then [Written(tx)] else []
  }

  /** Both sides of a session: open queues, everything emitted, and the table. */
  datatype Sides = Sides(queues: S.Queues, out: seq<MailTransaction>, rows: seq<Row>)

  /**
    Agreement since the table held `from` rows, all closed: the open queues agree, and the
    rows of each queue that closed since then are its emitted transactions, in order.
   */
  ghost predicate Agree(s: Sides, from: nat) {
    && TableInv(s.rows) && S.WellFiled(s.queues)
    && from <= |s.rows| && (forall i :: 0 <= i < from ==> s.rows[i].terminal)
    && OpenAgree(s.queues, s.rows)
    && forall q :: EmittedFor(s.out, q) == ClosedFor(s.rows, from, q)
  }

  /** `at` is the database clock, `seen` the process clock; `expired` is the eviction's emission order. */
  datatype Op =
    | Feed(entry: LogEntry, at: int, seen: int)
    | Tick(now: int, at: int, expired: seq<MailTransaction>)

  function Emitted(e: Option<MailTransaction>): seq<MailTransaction> {
    if e.Some? then [e.value] else []
  }

  function Step(s: Sides, op: Op, idleTimeout: int): Sides {
    match op
    case Feed(e, at, seen) =>
      var applied := S.ApplyEntry(s.queues, e, seen);
      Sides(applied.queues, s.out + Emitted(applied.emitted),
            if e.queueId != "" then Merge(s.rows, e, at) else s.rows)
    case Tick(now, at, expired) =>
      Sides(s.queues - S.ExpiredIds(s.queues, now, idleTimeout), s.out + expired,
            Evict(s.rows, now - idleTimeout, at))
  }

  function Run(s: Sides, ops: seq<Op>, idleTimeout: int): Sides {
    if ops == [] then s else Step(Run(s, ops[..|ops| - 1], idleTimeout), ops[|ops| - 1], idleTimeout)
  }

  /** Memory and table reach the same verdict about every open queue. */
  predicate SameVerdict(s: Sides, now: int, idleTimeout: int) {
    && (forall i :: 0 <= i < |s.rows| && !s.rows[i].terminal && s.rows[i].queueId in s.queues ==>
          (Idle(s.rows[i], now - idleTimeout) <==> S.Expired(s.queues[s.rows[i].queueId], now, idleTimeout)))
  }

  predicate Allowed(s: Sides, op: Op, idleTimeout: int) {
    match op
    case Feed(e, _, _) => e.HasLineText()
    case Tick(now, _, expired) =>
      S.ListsExpired(s.queues, now, idleTimeout, expired) && SameVerdict(s, now, idleTimeout)
  }

  predicate AllAllowed(s: Sides, ops: seq<Op>, idleTimeout: int) {
    forall k :: 0 <= k < |ops| ==> Allowed(Run(s, ops[..k], idleTimeout), ops[k], idleTimeout)
  }

  // ---- one entry ----

  lemma AbsorbAgrees(row: Row, e: LogEntry, at: int)
    requires row.raw != "" && e.HasLineText()
    ensures S.Absorb(View(row), e) == View(Updated(row, e, at))
    ensures Updated(row, e, at).raw != ""
  {
    SplitFree(e.raw, '\n');
    SplitConcat(row.raw, e.raw, '\n');
    assert row.raw + ['\n'] + e.raw == row.raw + "\n" + e.raw;
  }

  lemma OpenAgrees(e: LogEntry, at: int)
    requires e.HasLineText()
    ensures S.Absorb(S.Opened(e), e) == View(Inserted(e, at))
  {
    SplitFree(e.raw, '\n');
    assert [] + [e.raw] == [e.raw];
  }

  /** The position the merge writes: the queue's newest open row, or a new row at the end. */
  function MergePosition(rows: seq<Row>, q: string): nat {
    var n := NewestOpen(rows, q);
    if n > 0 then n - 1 else |rows|
  }

  /** `rows'` is `rows` with `row` put at `k`. */
  predicate Put(rows: seq<Row>, k: nat, row: Row, rows': seq<Row>) {
    k <= |rows| && rows' == if k < |rows| then rows[k := row] else rows + [row]
  }

  /** `k` is where `q` may be written: its open row, or a new last row when it has none. */
  predicate PutPlace(rows: seq<Row>, k: nat, q: string) {
    && k <= |rows|
    && (k < |rows| ==> OpenFor(rows[k], q))
    && (forall i :: 0 <= i < |rows| && i != k ==> !OpenFor(rows[i], q))
    && (forall i :: k < i < |rows| ==> rows[i].queueId != q)
  }

  lemma MergeIsPut(rows: seq<Row>, e: LogEntry, at: int)
    requires TableInv(rows)
    ensures var k := MergePosition(rows, e.queueId);
      && PutPlace(rows, k, e.queueId)
      && k < |Merge(rows, e, at)|
      && Put(rows, k, Merge(rows, e, at)[k], Merge(rows, e, at))
      && Merge(rows, e, at)[k].queueId == e.queueId
  {
    var n := NewestOpen(rows, e.queueId);
    if n > 0 {
      forall i | 0 <= i < n - 1 ensures !OpenFor(rows[i], e.queueId) {
      }
    }
  }

  /** What memory does with an entry, told as the table tells it: a row view put or closed. */
  predicate QueuesAfter(queues: S.Queues, row: Row, applied: S.Applied) {
    if row.terminal then applied.emitted == Some(View(row)) && !row.timedOut && applied.queues == queues - {row.queueId}
    else
      && applied.emitted == None && row.raw != ""
      && row.queueId in applied.queues && applied.queues[row.queueId].transaction == View(row)
      && applied.queues == queues[row.queueId := applied.queues[row.queueId]]
  }

  lemma AbsorbedStatus(queues: S.Queues, tx: MailTransaction, e: LogEntry, row: Row, seen: int)
    requires e.queueId != ""
    requires tx == if e.queueId in queues then queues[e.queueId].transaction else S.Opened(e)
    requires S.Absorb(tx, e) == View(row) && row.raw != "" && row.queueId == e.queueId && !row.timedOut
    requires row.terminal == IsTerminalStatus(row.status)
    ensures QueuesAfter(queues, row, S.ApplyEntry(queues, e, seen))
  {
  }

  /**
    One entry: memory emits exactly when the merge closes a row (although memory tests the
    merged status and the table the entry's own), and the two hold the same data.
   */
  lemma FeedStep(s: Sides, from: nat, e: LogEntry, at: int, seen: int)
    requires Agree(s, from) && e.HasLineText() && e.queueId != ""
    ensures var k := MergePosition(s.rows, e.queueId);
      && from <= k < |Merge(s.rows, e, at)|
      && QueuesAfter(s.queues, Merge(s.rows, e, at)[k], S.ApplyEntry(s.queues, e, seen))
  {
    var n := NewestOpen(s.rows, e.queueId);
    if n > 0 {
      var row := s.rows[n - 1];
      assert OpenRowAgrees(s.queues, row);
      assert RowInv(row);
      StatusAfterMerge(row.status, e.status);
      AbsorbAgrees(row, e, at);
      AbsorbedStatus(s.queues, View(row), e, Updated(row, e, at), seen);
    } else {
      assert e.queueId !in s.queues;
      OpenAgrees(e, at);
      AbsorbedStatus(s.queues, S.Opened(e), e, Inserted(e, at), seen);
    }
  }

  lemma PutOpenAgree(queues: S.Queues, rows: seq<Row>, k: nat, row: Row, rows': seq<Row>, applied: S.Applied)
    requires OpenAgree(queues, rows) && Put(rows, k, row, rows') && PutPlace(rows, k, row.queueId)
    requires QueuesAfter(queues, row, applied)
    ensures OpenAgree(applied.queues, rows')
  {
    forall i | 0 <= i < |rows'| && !rows'[i].terminal ensures OpenRowAgrees(applied.queues, rows'[i]) {
      if i != k {
        PutOther(queues, rows, k, row, rows', applied, i);
      }
    }
    forall q | q in applied.queues ensures HasOpen(rows', q) {
      PutHasOpen(queues, rows, k, row, rows', applied, q);
    }
  }

  lemma PutOther(queues: S.Queues, rows: seq<Row>, k: nat, row: Row, rows': seq<Row>, applied: S.Applied, i: nat)
    requires OpenAgree(queues, rows) && Put(rows, k, row, rows') && PutPlace(rows, k, row.queueId)
    requires QueuesAfter(queues, row, applied) && i < |rows'| && i != k && !rows'[i].terminal
    ensures OpenRowAgrees(applied.queues, rows'[i])
  {
    assert rows'[i] == rows[i];
    assert !OpenFor(rows[i], row.queueId);
    assert OpenRowAgrees(queues, rows[i]);
  }

  lemma PutHasOpen(queues: S.Queues, rows: seq<Row>, k: nat, row: Row, rows': seq<Row>, applied: S.Applied, q: string)
    requires OpenAgree(queues, rows) && Put(rows, k, row, rows') && PutPlace(rows, k, row.queueId)
    requires QueuesAfter(queues, row, applied) && q in applied.queues
    ensures HasOpen(rows', q)
  {
    if q == row.queueId {
      assert OpenFor(rows'[k], q);
    } else {
      assert HasOpen(rows, q);
      var i :| 0 <= i < |rows| && OpenFor(rows[i], q);
      assert OpenFor(rows'[i], q);
    }
  }

  lemma {:induction false} PutClosedFor(rows: seq<Row>, from: nat, k: nat, row: Row, rows': seq<Row>, q: string)
    requires Put(rows, k, row, rows') && PutPlace(rows, k, row.queueId) && from <= k
    ensures ClosedFor(rows', from, q) == ClosedFor(rows, from, q) + ClosedOne(row, q)
    decreases |rows|, 1
  {
    var last := |rows'| - 1;
    if k == last {
      assert rows'[..last] == rows[..last];
      assert rows'[last] == row;
      if |rows| == k {
        assert rows[..last] == rows;
      } else {
        assert ClosedOne(rows[last], q) == [];
        assert ClosedFor(rows, from, q) == ClosedFor(rows[..last], from, q) + [];
      }
    } else {
      PutClosedForEarlier(rows, from, k, row, rows', q);
    }
  }

  lemma PutClosedForEarlier(rows: seq<Row>, from: nat, k: nat, row: Row, rows': seq<Row>, q: string)
    requires Put(rows, k, row, rows') && PutPlace(rows, k, row.queueId) && from <= k < |rows| - 1
    ensures ClosedFor(rows', from, q) == ClosedFor(rows, from, q) + ClosedOne(row, q)
    decreases |rows|, 0
  {
    var init, init', other := PutInit(rows, k, row, rows');
    PutClosedFor(init, from, k, row, init', q);
    AddBehind(init, init', from, row, other, q);
  }

  /** A row of another queue behind both does not disturb the equation. */
  lemma AddBehind(init: seq<Row>, init': seq<Row>, from: nat, row: Row, other: Row, q: string)
    requires from <= |init| && from <= |init'| && row.queueId != other.queueId
    requires ClosedFor(init', from, q) == ClosedFor(init, from, q) + ClosedOne(row, q)
    ensures ClosedFor(init' + [other], from, q) == ClosedFor(init + [other], from, q) + ClosedOne(row, q)
  {
    ClosedForSnoc(init, from, other, q);
    ClosedForSnoc(init', from, other, q);
    Commute(ClosedFor(init, from, q), ClosedOne(row, q), ClosedOne(other, q));
  }

  lemma ClosedForSnoc(rows: seq<Row>, from: nat, row: Row, q: string)
    requires from <= |rows|
    ensures ClosedFor(rows + [row], from, q) == ClosedFor(rows, from, q) + ClosedOne(row, q)
  {
    assert (rows + [row])[..|rows|] == rows;
  }

  lemma PutInit(rows: seq<Row>, k: nat, row: Row, rows': seq<Row>)
    returns (init: seq<Row>, init': seq<Row>, other: Row)
    requires Put(rows, k, row, rows') && PutPlace(rows, k, row.queueId) && k < |rows| - 1
    ensures rows == init + [other] && rows' == init' + [other] && other.queueId != row.queueId
    ensures Put(init, k, row, init') && PutPlace(init, k, row.queueId)
  {
    var last := |rows| - 1;
    init, init', other := rows[..last], rows[..last][k := row], rows[last];
  }

  /** Of two additions at most one of which is not empty, the order does not matter. */
  lemma Commute(a: seq<MailTransaction>, x: seq<MailTransaction>, y: seq<MailTransaction>)
    requires x == [] || y == []
    ensures (a + x) + y == (a + y) + x
  {
  }

  lemma EmittedForSnoc(out: seq<MailTransaction>, tx: MailTransaction, q: string)
    ensures EmittedFor(out + [tx], q) == EmittedFor(out, q) + EmittedOne(tx, q)
  {
    assert (out + [tx])[..|out|] == out;
  }

  lemma FeedClosed(s: Sides, from: nat, row: Row, k: nat, rows': seq<Row>, applied: S.Applied, q: string)
    requires EmittedFor(s.out, q) == ClosedFor(s.rows, from, q)
    requires Put(s.rows, k, row, rows') && PutPlace(s.rows, k, row.queueId) && from <= k
    requires QueuesAfter(s.queues, row, applied)
    ensures EmittedFor(s.out + Emitted(applied.emitted), q) == ClosedFor(rows', from, q)
  {
    PutClosedFor(s.rows, from, k, row, rows', q);
    if row.terminal {
      EmittedForSnoc(s.out, View(row), q);
    } else {
      assert s.out + [] == s.out;
    }
  }

  lemma FeedAgrees(s: Sides, from: nat, e: LogEntry, at: int, seen: int, idleTimeout: int)
    requires Agree(s, from) && e.HasLineText()
    ensures Agree(Step(s, Feed(e, at, seen), idleTimeout), from)
  {
    if e.queueId == "" {
      assert s.out + [] == s.out;
    } else {
      var rows' := Merge(s.rows, e, at);
      var applied := S.ApplyEntry(s.queues, e, seen);
      var k := MergePosition(s.rows, e.queueId);
      FeedStep(s, from, e, at, seen);
      MergeIsPut(s.rows, e, at);
      MergeKeepsInvariant(s.rows, e, at);
      S.ApplyKeepsFiling(s.queues, e, seen);
      PutAgrees(s, from, rows'[k], k, rows', applied);
    }
  }

  lemma PutAgrees(s: Sides, from: nat, row: Row, k: nat, rows': seq<Row>, applied: S.Applied)
    requires Agree(s, from) && TableInv(rows') && S.WellFiled(applied.queues)
    requires Put(s.rows, k, row, rows') && PutPlace(s.rows, k, row.queueId) && from <= k
    requires QueuesAfter(s.queues, row, applied)
    ensures Agree(Sides(applied.queues, s.out + Emitted(applied.emitted), rows'), from)
  {
    PutOpenAgree(s.queues, s.rows, k, row, rows', applied);
    forall q ensures EmittedFor(s.out + Emitted(applied.emitted), q) == ClosedFor(rows', from, q) {
      FeedClosed(s, from, row, k, rows', applied, q);
    }
  }

  // ---- one eviction tick ----

  lemma {:induction false} EmittedForConcat(a: seq<MailTransaction>, b: seq<MailTransaction>, q: string)
    ensures EmittedFor(a + b, q) == EmittedFor(a, q) + EmittedFor(b, q)
  {
    if b == [] {
      assert a + b == a;
    } else {
      var init, tx := b[..|b| - 1], b[|b| - 1];
      var before, rest, one := EmittedFor(a, q), EmittedFor(init, q), EmittedOne(tx, q);
      calc {
        EmittedFor(a + b, q);
        { assert a + b == (a + init) + [tx]; EmittedForSnoc(a + init, tx, q); }
        EmittedFor(a + init, q) + one;
        { EmittedForConcat(a, init, q); }
        before + rest + one;
        before + (rest + one);
        before + EmittedFor(b, q);
      }
    }
  }

  lemma {:induction false} EmittedForAbsent(txs: seq<MailTransaction>, q: string)
    requires forall i :: 0 <= i < |txs| ==> txs[i].queueId != q
    ensures EmittedFor(txs, q) == []
  {
    if txs != [] {
      EmittedForAbsent(txs[..|txs| - 1], q);
    }
  }

  lemma {:induction false} EmittedForOnce(txs: seq<MailTransaction>, k: nat)
    requires k < |txs|
    requires forall i, j :: 0 <= i < j < |txs| ==> txs[i].queueId != txs[j].queueId
    ensures EmittedFor(txs, txs[k].queueId) == [Written(txs[k])]
  {
    var last := |txs| - 1;
    if k == last {
      EmittedForAbsent(txs[..last], txs[k].queueId);
    } else {
      EmittedForOnce(txs[..last], k);
    }
  }

  /** What a sweep changes, row by row. */
  predicate SweptTo(rows: seq<Row>, rows': seq<Row>, cutoff: int, at: int) {
    && |rows'| == |rows|
    && forall i :: 0 <= i < |rows| ==> rows'[i] == EvictRow(rows[i], cutoff, at)
  }

  lemma EvictSweeps(rows: seq<Row>, cutoff: int, at: int) returns (rows': seq<Row>)
    requires TableInv(rows)
    ensures rows' == Evict(rows, cutoff, at)
    ensures SweptTo(rows, rows', cutoff, at) && TableInv(rows') && Preserves(rows, rows')
  {
    rows' := Evict(rows, cutoff, at);
    EvictKeepsInvariant(rows, cutoff, at);
  }

  /** An expired queue's open row: what memory emits and what the table then records. */
  lemma SweptView(row: Row, at: int)
    requires !row.timedOut
    ensures Written(View(row).(timedOut := true)) == View(TimedOut(row, at))
    ensures TimedOut(row, at).terminal && TimedOut(row, at).queueId == row.queueId
  {
  }

  lemma {:induction false} UnsweptClosedFor(rows: seq<Row>, rows': seq<Row>, from: nat, cutoff: int, at: int, q: string)
    requires SweptTo(rows, rows', cutoff, at)
    requires forall i :: 0 <= i < |rows| && rows[i].queueId == q ==> !Idle(rows[i], cutoff)
    ensures ClosedFor(rows', from, q) == ClosedFor(rows, from, q)
  {
    if |rows| > from {
      var last := |rows| - 1;
      UnsweptClosedFor(rows[..last], rows'[..last], from, cutoff, at, q);
      assert ClosedOne(rows'[last], q) == ClosedOne(rows[last], q) by {
        if rows[last].queueId == q {
          assert rows'[last] == rows[last];
        } else {
          assert rows'[last].queueId == rows[last].queueId;
        }
      }
    }
  }

  /** `k` is the newest row of its queue, and the only one a sweep at this cutoff closes. */
  predicate SweptAlone(rows: seq<Row>, cutoff: int, k: nat) {
    && k < |rows| && Idle(rows[k], cutoff)
    && forall i :: 0 <= i < |rows| && rows[i].queueId == rows[k].queueId && i != k ==> i < k && rows[i].terminal
  }

  lemma {:induction false} SweptClosedFor(rows: seq<Row>, rows': seq<Row>, from: nat, cutoff: int, at: int, k: nat)
    requires SweptTo(rows, rows', cutoff, at) && from <= k && SweptAlone(rows, cutoff, k)
    ensures ClosedFor(rows', from, rows[k].queueId)
         == ClosedFor(rows, from, rows[k].queueId) + [View(TimedOut(rows[k], at))]
  {
    var last, q := |rows| - 1, rows[k].queueId;
    var init, init' := rows[..last], rows'[..last];
    assert rows == init + [rows[last]] && rows' == init' + [rows'[last]];
    if k == last {
      UnsweptClosedFor(init, init', from, cutoff, at, q);
      SweptLast(init, init', from, rows[k], at);
    } else {
      SweptClosedFor(init, init', from, cutoff, at, k);
      SweptEarlier(init, init', from, rows[last], rows'[last], q, [View(TimedOut(rows[k], at))]);
    }
  }

  lemma SweptLast(init: seq<Row>, init': seq<Row>, from: nat, row: Row, at: int)
    requires from <= |init| && from <= |init'| && !row.terminal
    requires ClosedFor(init', from, row.queueId) == ClosedFor(init, from, row.queueId)
    ensures ClosedFor(init' + [TimedOut(row, at)], from, row.queueId)
         == ClosedFor(init + [row], from, row.queueId) + [View(TimedOut(row, at))]
  {
    ClosedForSnoc(init, from, row, row.queueId);
    ClosedForSnoc(init', from, TimedOut(row, at), row.queueId);
  }

  lemma SweptEarlier(init: seq<Row>, init': seq<Row>, from: nat, other: Row, other': Row, q: string,
                     more: seq<MailTransaction>)
    requires from <= |init| && from <= |init'| && other.queueId != q && other'.queueId != q
    requires ClosedFor(init', from, q) == ClosedFor(init, from, q) + more
    ensures ClosedFor(init' + [other'], from, q) == ClosedFor(init + [other], from, q) + more
  {
    ClosedForSnoc(init, from, other, q);
    ClosedForSnoc(init', from, other', q);
  }

  lemma ExpiredEmitted(s: Sides, now: int, expired: seq<MailTransaction>, idleTimeout: int, q: string)
    requires S.ListsExpired(s.queues, now, idleTimeout, expired)
    ensures EmittedFor(expired, q) ==
      if q in S.ExpiredIds(s.queues, now, idleTimeout)
      then [Written(s.queues[q].transaction.(timedOut := true))] else []
  {
    if q in S.ExpiredIds(s.queues, now, idleTimeout) {
      assert q in S.Ids(expired);
      var j :| 0 <= j < |expired| && S.Ids(expired)[j] == q;
      EmittedForOnce(expired, j);
    } else {
      EmittedForAbsent(expired, q);
    }
  }

  lemma ExpiredClosed(s: Sides, from: nat, now: int, at: int, idleTimeout: int, rows': seq<Row>, q: string)
    requires Agree(s, from) && SameVerdict(s, now, idleTimeout) && SweptTo(s.rows, rows', now - idleTimeout, at)
    ensures ClosedFor(rows', from, q) == ClosedFor(s.rows, from, q) +
      if q in S.ExpiredIds(s.queues, now, idleTimeout)
      then [Written(s.queues[q].transaction.(timedOut := true))] else []
  {
    if q in S.ExpiredIds(s.queues, now, idleTimeout) {
      assert HasOpen(s.rows, q);
      var k :| 0 <= k < |s.rows| && OpenFor(s.rows[k], q);
      assert OpenRowAgrees(s.queues, s.rows[k]);
      SweptClosedFor(s.rows, rows', from, now - idleTimeout, at, k);
      assert RowInv(s.rows[k]);
      SweptView(s.rows[k], at);
    } else {
      forall i | 0 <= i < |s.rows| && s.rows[i].queueId == q ensures !Idle(s.rows[i], now - idleTimeout) {
        if !s.rows[i].terminal {
          assert OpenRowAgrees(s.queues, s.rows[i]);
        }
      }
      UnsweptClosedFor(s.rows, rows', from, now - idleTimeout, at, q);
    }
  }

  lemma TickClosed(s: Sides, from: nat, now: int, at: int, expired: seq<MailTransaction>, idleTimeout: int,
                   rows': seq<Row>, q: string)
    requires Agree(s, from) && Allowed(s, Tick(now, at, expired), idleTimeout)
    requires SweptTo(s.rows, rows', now - idleTimeout, at)
    ensures EmittedFor(s.out + expired, q) == ClosedFor(rows', from, q)
  {
    EmittedForConcat(s.out, expired, q);
    ExpiredEmitted(s, now, expired, idleTimeout, q);
    ExpiredClosed(s, from, now, at, idleTimeout, rows', q);
  }

  lemma TickOpenAgree(s: Sides, now: int, at: int, idleTimeout: int, queues': S.Queues, rows': seq<Row>)
    requires OpenAgree(s.queues, s.rows) && SameVerdict(s, now, idleTimeout)
    requires queues' == s.queues - S.ExpiredIds(s.queues, now, idleTimeout)
    requires SweptTo(s.rows, rows', now - idleTimeout, at)
    ensures OpenAgree(queues', rows')
  {
    forall i | 0 <= i < |rows'| && !rows'[i].terminal ensures OpenRowAgrees(queues', rows'[i]) {
      assert rows'[i] == s.rows[i];
      assert OpenRowAgrees(s.queues, s.rows[i]);
    }
    forall q | q in queues' ensures HasOpen(rows', q) {
      assert HasOpen(s.rows, q);
      var i :| 0 <= i < |s.rows| && OpenFor(s.rows[i], q);
      assert OpenRowAgrees(s.queues, s.rows[i]);
      assert rows'[i] == s.rows[i];
      assert OpenFor(rows'[i], q);
    }
  }

  lemma TickAgrees(s: Sides, from: nat, now: int, at: int, expired: seq<MailTransaction>, idleTimeout: int,
                   after: Sides)
    requires Agree(s, from) && Allowed(s, Tick(now, at, expired), idleTimeout)
    requires after.queues == s.queues - S.ExpiredIds(s.queues, now, idleTimeout)
    requires after.out == s.out + expired && after.rows == Evict(s.rows, now - idleTimeout, at)
    ensures Agree(after, from)
  {
    var rows' := EvictSweeps(s.rows, now - idleTimeout, at);
    SweepAgrees(s, from, now, at, expired, idleTimeout, after);
  }

  lemma SweepAgrees(s: Sides, from: nat, now: int, at: int, expired: seq<MailTransaction>, idleTimeout: int,
                    after: Sides)
    requires Agree(s, from) && Allowed(s, Tick(now, at, expired), idleTimeout)
    requires SweptTo(s.rows, after.rows, now - idleTimeout, at) && TableInv(after.rows) && Preserves(s.rows, after.rows)
    requires after.queues == s.queues - S.ExpiredIds(s.queues, now, idleTimeout) && after.out == s.out + expired
    ensures Agree(after, from)
  {
    TickOpenAgree(s, now, at, idleTimeout, after.queues, after.rows);
    forall q ensures EmittedFor(after.out, q) == ClosedFor(after.rows, from, q) {
      TickClosed(s, from, now, at, expired, idleTimeout, after.rows, q);
    }
  }

  // ---- whole runs ----

  /** Nothing open anywhere and nothing emitted yet. */
  predicate NothingOpen(s: Sides) {
    && s.queues == map[] && s.out == [] && TableInv(s.rows)
    && forall i :: 0 <= i < |s.rows| ==> s.rows[i].terminal
  }

  lemma AgreeAtStart(s: Sides)
    requires NothingOpen(s)
    ensures Agree(s, |s.rows|)
  {
  }

  /**
    Started together with nothing open and given the same entries and ticks, the two
    implementations agree after every run in which each tick reaches the same verdict.
   */
  lemma {:induction false} AgreementOverRuns(s: Sides, ops: seq<Op>, idleTimeout: int)
    requires NothingOpen(s) && AllAllowed(s, ops, idleTimeout)
    ensures Agree(Run(s, ops, idleTimeout), |s.rows|)
    decreases |ops|
  {
    if ops == [] {
      AgreeAtStart(s);
    } else {
      var init := ops[..|ops| - 1];
      assert forall k :: 0 <= k < |init| ==> init[..k] == ops[..k] && init[k] == ops[k];
      AgreementOverRuns(s, init, idleTimeout);
      var before := Run(s, init, idleTimeout);
      assert Allowed(before, ops[|ops| - 1], idleTimeout);
      AllowedStep(before, |s.rows|, ops[|ops| - 1], idleTimeout, Run(s, ops, idleTimeout));
    }
  }

  lemma AllowedStep(s: Sides, from: nat, op: Op, idleTimeout: int, after: Sides)
    requires Agree(s, from) && Allowed(s, op, idleTimeout) && after == Step(s, op, idleTimeout)
    ensures Agree(after, from)
  {
    match op
    case Feed(e, at, seen) => FeedAgrees(s, from, e, at, seen, idleTimeout);
    case Tick(now, at, expired) => TickAgrees(s, from, now, at, expired, idleTimeout, after);
  }

  /** A session, whose stitcher always starts empty, starts in agreement exactly when the table has nothing open. */
  lemma FreshSessionAgreesIff(rows: seq<Row>)
    requires TableInv(rows)
    ensures Agree(Sides(map[], [], rows), |rows|) <==> forall i :: 0 <= i < |rows| ==> rows[i].terminal
  {
    if forall i :: 0 <= i < |rows| ==> rows[i].terminal {
      AgreeAtStart(Sides(map[], [], rows));
    }
  }

  /**
    Otherwise the two part: when a queue left open by an earlier session is closed, the table
    records all its lines and the restarted memory emits only the last.
   */
  lemma RestartForgets(rows: seq<Row>, e: LogEntry, at: int, seen: int)
    requires TableInv(rows) && e.HasLineText() && e.queueId != "" && IsTerminalStatus(e.status)
    requires NewestOpen(rows, e.queueId) > 0 && rows[NewestOpen(rows, e.queueId) - 1].raw != ""
    ensures var k := NewestOpen(rows, e.queueId) - 1;
      var emitted := S.ApplyEntry(map[], e, seen).emitted;
      && emitted.Some? && emitted.value.raw == [e.raw]
      && Merge(rows, e, at)[k].terminal
      && View(Merge(rows, e, at)[k]).raw == View(rows[k]).raw + [e.raw] != emitted.value.raw
  {
    var k := NewestOpen(rows, e.queueId) - 1;
    TerminalStatusLength(e.status);
    AbsorbAgrees(rows[k], e, at);
    OpenAgrees(e, at);
    assert S.Absorb(S.Opened(e), e).raw == [] + [e.raw];
    assert |View(rows[k]).raw| > 0;
  }

  // ---- emission order without eviction ----

  /** The rows of `after` that are closed and were absent or open in `before`, as recorded. */
  function Turned(before: seq<Row>, after: seq<Row>): seq<MailTransaction> {
    if after == [] then []
    else
      var last := |after| - 1;
      Turned(before, after[..last]) +
      if after[last].terminal && !(last < |before| && before[last].terminal) then [View(after[last])] else []
  }

  /** The rows turned terminal by each operation of a run, in the order of the operations. */
  function TurnedOver(s: Sides, ops: seq<Op>, idleTimeout: int): seq<MailTransaction> {
    if ops == [] then []
    else
      var init := ops[..|ops| - 1];
      TurnedOver(s, init, idleTimeout)
      + Turned(Run(s, init, idleTimeout).rows, Run(s, ops, idleTimeout).rows)
  }

  lemma {:induction false} TurnedNone(before: seq<Row>, after: seq<Row>)
    requires after <= before
    ensures Turned(before, after) == []
  {
    if after != [] {
      TurnedNone(before, after[..|after| - 1]);
    }
  }

  lemma {:induction false} TurnedPut(before: seq<Row>, k: nat, row: Row, n: nat)
    requires k < n <= |before| + 1 && (n == |before| + 1 ==> k == |before|)
    requires k < |before| ==> !before[k].terminal
    ensures var after := if k < |before| then before[k := row] else before + [row];
      Turned(before, after[..n]) == if row.terminal then [View(row)] else []
  {
    var after := if k < |before| then before[k := row] else before + [row];
    assert after[..n][..n - 1] == after[..n - 1];
    if n - 1 == k {
      assert after[..k] == before[..k];
      TurnedNone(before, after[..k]);
    } else {
      TurnedPut(before, k, row, n - 1);
    }
  }

  predicate FeedsOnly(ops: seq<Op>) {
    forall k :: 0 <= k < |ops| ==> ops[k].Feed? && ops[k].entry.HasLineText()
  }

  /** A feed emits exactly what it turns terminal in the table. */
  lemma FeedTurns(s: Sides, from: nat, e: LogEntry, at: int, seen: int)
    requires Agree(s, from) && e.HasLineText()
    ensures Turned(s.rows, if e.queueId != "" then Merge(s.rows, e, at) else s.rows)
         == Emitted(S.ApplyEntry(s.queues, e, seen).emitted)
  {
    if e.queueId == "" {
      TurnedNone(s.rows, s.rows);
    } else {
      var k := MergePosition(s.rows, e.queueId);
      MergeIsPut(s.rows, e, at);
      FeedStep(s, from, e, at, seen);
      PutTurns(s.queues, s.rows, k, Merge(s.rows, e, at)[k], Merge(s.rows, e, at), S.ApplyEntry(s.queues, e, seen));
    }
  }

  lemma PutTurns(queues: S.Queues, rows: seq<Row>, k: nat, row: Row, rows': seq<Row>, applied: S.Applied)
    requires Put(rows, k, row, rows') && PutPlace(rows, k, row.queueId) && QueuesAfter(queues, row, applied)
    ensures Turned(rows, rows') == Emitted(applied.emitted)
  {
    TurnedPut(rows, k, row, |rows'|);
    assert rows'[..|rows'|] == rows';
  }

  /**
    Without eviction, what memory emits is, in order and one for one, what the rows record
    at the moment the table turns them terminal.
   */
  lemma {:induction false} EmissionOrder(s: Sides, ops: seq<Op>, idleTimeout: int)
    requires NothingOpen(s) && FeedsOnly(ops)
    ensures Run(s, ops, idleTimeout).out == TurnedOver(s, ops, idleTimeout)
    decreases |ops|
  {
    if ops != [] {
      var init, op := ops[..|ops| - 1], ops[|ops| - 1];
      EmissionOrder(s, init, idleTimeout);
      AgreementOverRuns(s, init, idleTimeout);
      FeedTurns(Run(s, init, idleTimeout), |s.rows|, op.entry, op.at, op.seen);
    }
  }

  // ---- exactly when evictions agree ----

  /**
    A tick keeps the agreement if and only if memory and table reach the same verdict about
    every open queue, whatever the clocks they were stamped with.
   */
  lemma TickAgreesIff(s: Sides, from: nat, now: int, at: int, expired: seq<MailTransaction>, idleTimeout: int)
    requires Agree(s, from) && S.ListsExpired(s.queues, now, idleTimeout, expired)
    ensures Agree(Step(s, Tick(now, at, expired), idleTimeout), from) <==> SameVerdict(s, now, idleTimeout)
  {
    var after := AfterTick(s, now, at, expired, idleTimeout);
    if SameVerdict(s, now, idleTimeout) {
      TickAgrees(s, from, now, at, expired, idleTimeout, after);
    } else {
      SplitTick(s, now, at, idleTimeout, after.queues, after.rows);
    }
  }

  lemma AfterTick(s: Sides, now: int, at: int, expired: seq<MailTransaction>, idleTimeout: int) returns (after: Sides)
    ensures after == Step(s, Tick(now, at, expired), idleTimeout)
    ensures after.queues == s.queues - S.ExpiredIds(s.queues, now, idleTimeout)
    ensures after.out == s.out + expired && after.rows == Evict(s.rows, now - idleTimeout, at)
  {
    after := Step(s, Tick(now, at, expired), idleTimeout);
  }

  lemma SplitTick(s: Sides, now: int, at: int, idleTimeout: int, queues': S.Queues, rows': seq<Row>)
    requires TableInv(s.rows) && !SameVerdict(s, now, idleTimeout)
    requires queues' == s.queues - S.ExpiredIds(s.queues, now, idleTimeout)
    requires rows' == Evict(s.rows, now - idleTimeout, at)
    ensures !OpenAgree(queues', rows')
  {
    var i := SplitRow(s, now, idleTimeout);
    SplitVerdict(s.queues, s.rows, now, at, idleTimeout, queues', rows', i);
  }

  lemma SplitRow(s: Sides, now: int, idleTimeout: int) returns (i: nat)
    requires !SameVerdict(s, now, idleTimeout)
    ensures i < |s.rows| && !s.rows[i].terminal && s.rows[i].queueId in s.queues
    ensures Idle(s.rows[i], now - idleTimeout) != S.Expired(s.queues[s.rows[i].queueId], now, idleTimeout)
  {
    i :| 0 <= i < |s.rows| && !s.rows[i].terminal && s.rows[i].queueId in s.queues
      && Idle(s.rows[i], now - idleTimeout) != S.Expired(s.queues[s.rows[i].queueId], now, idleTimeout);
  }

  /** If the row goes and the queue stays, or the other way round, the open sets differ afterwards. */
  lemma SplitVerdict(queues: S.Queues, rows: seq<Row>, now: int, at: int, idleTimeout: int,
                     queues': S.Queues, rows': seq<Row>, i: nat)
    requires TableInv(rows) && i < |rows| && !rows[i].terminal && rows[i].queueId in queues
    requires Idle(rows[i], now - idleTimeout) != S.Expired(queues[rows[i].queueId], now, idleTimeout)
    requires queues' == queues - S.ExpiredIds(queues, now, idleTimeout)
    requires SweptTo(rows, rows', now - idleTimeout, at)
    ensures !OpenAgree(queues', rows')
  {
    if Idle(rows[i], now - idleTimeout) {
      NoneOpenAfter(rows, rows', now - idleTimeout, at, i);
      assert rows[i].queueId in queues';
    } else {
      assert rows'[i] == rows[i];
      assert !OpenRowAgrees(queues', rows'[i]);
    }
  }

  lemma NoneOpenAfter(rows: seq<Row>, rows': seq<Row>, cutoff: int, at: int, i: nat)
    requires TableInv(rows) && SweptTo(rows, rows', cutoff, at) && i < |rows| && Idle(rows[i], cutoff)
    ensures !HasOpen(rows', rows[i].queueId)
  {
    var q := rows[i].queueId;
    forall k | 0 <= k < |rows'| ensures !OpenFor(rows'[k], q) {
      assert rows'[k] == EvictRow(rows[k], cutoff, at);
      assert k != i && rows[k].queueId == q ==> rows[k].terminal;
    }
  }

  predicate WellFed(s: Sides, op: Op, idleTimeout: int) {
    match op
    case Feed(e, _, _) => e.HasLineText()
    case Tick(now, _, expired) => S.ListsExpired(s.queues, now, idleTimeout, expired)
  }

  predicate AllWellFed(s: Sides, ops: seq<Op>, idleTimeout: int) {
    forall k :: 0 <= k < |ops| ==> WellFed(Run(s, ops[..k], idleTimeout), ops[k], idleTimeout)
  }

  /** Every tick of the run reached the same verdict in memory and in the table. */
  predicate TicksConcur(s: Sides, ops: seq<Op>, idleTimeout: int) {
    forall k :: 0 <= k < |ops| && ops[k].Tick? ==> SameVerdict(Run(s, ops[..k], idleTimeout), ops[k].now, idleTimeout)
  }

  ghost predicate AlwaysAgree(s: Sides, ops: seq<Op>, idleTimeout: int) {
    forall k :: 0 <= k <= |ops| ==> Agree(Run(s, ops[..k], idleTimeout), |s.rows|)
  }

  /**
    Over whole runs from nothing open: the two implementations agree at every moment if and
    only if every tick reached the same verdict in both.
   */
  lemma AgreementIff(s: Sides, ops: seq<Op>, idleTimeout: int)
    requires NothingOpen(s) && AllWellFed(s, ops, idleTimeout)
    ensures AlwaysAgree(s, ops, idleTimeout) <==> TicksConcur(s, ops, idleTimeout)
  {
    if TicksConcur(s, ops, idleTimeout) {
      forall k | 0 <= k <= |ops| ensures Agree(Run(s, ops[..k], idleTimeout), |s.rows|) {
        PrefixAllowed(s, ops, idleTimeout, k);
        AgreementOverRuns(s, ops[..k], idleTimeout);
      }
    }
    if AlwaysAgree(s, ops, idleTimeout) {
      forall k | 0 <= k < |ops| && ops[k].Tick?
        ensures SameVerdict(Run(s, ops[..k], idleTimeout), ops[k].now, idleTimeout)
      {
        AgreedTickConcurs(s, ops, idleTimeout, k);
      }
    }
  }

  lemma PrefixAllowed(s: Sides, ops: seq<Op>, idleTimeout: int, n: nat)
    requires AllWellFed(s, ops, idleTimeout) && TicksConcur(s, ops, idleTimeout) && n <= |ops|
    ensures AllAllowed(s, ops[..n], idleTimeout)
  {
    forall k | 0 <= k < n ensures Allowed(Run(s, ops[..n][..k], idleTimeout), ops[..n][k], idleTimeout) {
      assert ops[..n][..k] == ops[..k];
      assert WellFed(Run(s, ops[..k], idleTimeout), ops[k], idleTimeout);
    }
  }

  lemma AgreedTickConcurs(s: Sides, ops: seq<Op>, idleTimeout: int, k: nat)
    requires AllWellFed(s, ops, idleTimeout) && AlwaysAgree(s, ops, idleTimeout) && k < |ops| && ops[k].Tick?
    ensures SameVerdict(Run(s, ops[..k], idleTimeout), ops[k].now, idleTimeout)
  {
    var before := Run(s, ops[..k], idleTimeout);
    assert ops[..k + 1][..k] == ops[..k] && ops[..k + 1][k] == ops[k];
    assert Run(s, ops[..k + 1], idleTimeout) == Step(before, ops[k], idleTimeout);
    assert WellFed(before, ops[k], idleTimeout);
    TickAgreesIff(before, |s.rows|, ops[k].now, ops[k].at, ops[k].expired, idleTimeout);
  }

  // ---- the same, told by the stamps ----

  /**
    A row is stamped when its transaction starts, the queue in memory after it has committed:
    the row's stamp is not the later one.
   */
  predicate Stamped(s: Sides) {
    forall i :: 0 <= i < |s.rows| && !s.rows[i].terminal && s.rows[i].queueId in s.queues ==>
      s.rows[i].updatedAt <= s.queues[s.rows[i].queueId].lastSeen
  }

  /** The cutoff falls strictly between the two stamps, or on both. */
  predicate Straddled(row: Row, queue: S.QueuedTransaction, cutoff: int) {
    row.updatedAt < cutoff < queue.lastSeen || row.updatedAt == cutoff == queue.lastSeen
  }

  predicate NoneStraddled(s: Sides, now: int, idleTimeout: int) {
    forall i :: 0 <= i < |s.rows| && !s.rows[i].terminal && s.rows[i].queueId in s.queues ==>
      !Straddled(s.rows[i], s.queues[s.rows[i].queueId], now - idleTimeout)
  }

  lemma StampsDecide(s: Sides, now: int, idleTimeout: int)
    requires Stamped(s)
    ensures SameVerdict(s, now, idleTimeout) <==> NoneStraddled(s, now, idleTimeout)
  {
  }

  /**
    With the stamps the code produces, a tick keeps the agreement if and only if no open queue
    has the cutoff strictly between its two stamps (the table drops it, memory keeps it) or
    exactly on both (memory drops it, the table keeps it).
   */
  lemma TickAgreesIffStamps(s: Sides, from: nat, now: int, at: int, expired: seq<MailTransaction>, idleTimeout: int)
    requires Agree(s, from) && Stamped(s) && S.ListsExpired(s.queues, now, idleTimeout, expired)
    ensures Agree(Step(s, Tick(now, at, expired), idleTimeout), from) <==> NoneStraddled(s, now, idleTimeout)
  {
    TickAgreesIff(s, from, now, at, expired, idleTimeout);
    StampsDecide(s, now, idleTimeout);
  }

  predicate AllowedByStamps(s: Sides, op: Op, idleTimeout: int) {
    match op
    case Feed(e, at, seen) => e.HasLineText() && at <= seen
    case Tick(now, _, expired) =>
      S.ListsExpired(s.queues, now, idleTimeout, expired) && NoneStraddled(s, now, idleTimeout)
  }

  predicate AllByStamps(s: Sides, ops: seq<Op>, idleTimeout: int) {
    forall k :: 0 <= k < |ops| ==> AllowedByStamps(Run(s, ops[..k], idleTimeout), ops[k], idleTimeout)
  }

  lemma FeedKeepsStamps(s: Sides, e: LogEntry, at: int, seen: int, idleTimeout: int)
    requires TableInv(s.rows) && Stamped(s) && at <= seen
    ensures Stamped(Step(s, Feed(e, at, seen), idleTimeout))
  {
    if e.queueId != "" {
      MergeIsPut(s.rows, e, at);
      var s' := Step(s, Feed(e, at, seen), idleTimeout);
      var k := MergePosition(s.rows, e.queueId);
      assert s'.rows[k].updatedAt == at;
      forall i | 0 <= i < |s'.rows| && !s'.rows[i].terminal && s'.rows[i].queueId in s'.queues
        ensures s'.rows[i].updatedAt <= s'.queues[s'.rows[i].queueId].lastSeen
      {
        if i != k {
          assert s'.rows[i] == s.rows[i];
          assert !OpenFor(s.rows[i], e.queueId);
        }
      }
    }
  }

  lemma TickKeepsStamps(s: Sides, now: int, at: int, expired: seq<MailTransaction>, idleTimeout: int)
    requires Stamped(s)
    ensures Stamped(Step(s, Tick(now, at, expired), idleTimeout))
  {
    var s' := Step(s, Tick(now, at, expired), idleTimeout);
    forall i | 0 <= i < |s'.rows| && !s'.rows[i].terminal && s'.rows[i].queueId in s'.queues
      ensures s'.rows[i].updatedAt <= s'.queues[s'.rows[i].queueId].lastSeen
    {
      assert s'.rows[i] == s.rows[i];
    }
  }

  /** With such stamps and no straddled tick, the two agree through entries and evictions alike. */
  lemma {:induction false} StampedAgreement(s: Sides, ops: seq<Op>, idleTimeout: int)
    requires NothingOpen(s) && AllByStamps(s, ops, idleTimeout)
    ensures Agree(Run(s, ops, idleTimeout), |s.rows|) && Stamped(Run(s, ops, idleTimeout))
    decreases |ops|
  {
    if ops == [] {
      AgreeAtStart(s);
    } else {
      var n := |ops| - 1;
      InitByStamps(s, ops, idleTimeout);
      StampedAgreement(s, ops[..n], idleTimeout);
      StampedStep(Run(s, ops[..n], idleTimeout), |s.rows|, ops[n], idleTimeout, Run(s, ops, idleTimeout));
    }
  }

  lemma InitByStamps(s: Sides, ops: seq<Op>, idleTimeout: int)
    requires AllByStamps(s, ops, idleTimeout) && ops != []
    ensures AllByStamps(s, ops[..|ops| - 1], idleTimeout)
    ensures AllowedByStamps(Run(s, ops[..|ops| - 1], idleTimeout), ops[|ops| - 1], idleTimeout)
  {
    var init := ops[..|ops| - 1];
    forall k | 0 <= k < |init| ensures AllowedByStamps(Run(s, init[..k], idleTimeout), init[k], idleTimeout) {
      assert init[..k] == ops[..k];
    }
  }

  lemma StampedStep(s: Sides, from: nat, op: Op, idleTimeout: int, after: Sides)
    requires Agree(s, from) && Stamped(s) && AllowedByStamps(s, op, idleTimeout) && after == Step(s, op, idleTimeout)
    ensures Agree(after, from) && Stamped(after)
  {
    match op
    case Feed(e, at, seen) =>
      FeedAgrees(s, from, e, at, seen, idleTimeout);
      FeedKeepsStamps(s, e, at, seen, idleTimeout);
    case Tick(now, at, expired) =>
      TickAgreesIffStamps(s, from, now, at, expired, idleTimeout);
      TickKeepsStamps(s, now, at, expired, idleTimeout);
  }

  /** Memory and table stamped each open queue with the same instant. */
  predicate OneClock(s: Sides) {
    forall i :: 0 <= i < |s.rows| && !s.rows[i].terminal && s.rows[i].queueId in s.queues ==>
      s.queues[s.rows[i].queueId].lastSeen == s.rows[i].updatedAt
  }

  /** No open queue has been idle for exactly the timeout. */
  predicate OffBoundary(s: Sides, now: int, idleTimeout: int) {
    forall q :: q in s.queues ==> now - s.queues[q].lastSeen != idleTimeout
  }

  /** Were the two stamps always equal, only queues idle for exactly the timeout would tell the two apart. */
  lemma OneClockBoundary(s: Sides, from: nat, now: int, at: int, expired: seq<MailTransaction>, idleTimeout: int)
    requires Agree(s, from) && OneClock(s) && S.ListsExpired(s.queues, now, idleTimeout, expired)
    ensures Agree(Step(s, Tick(now, at, expired), idleTimeout), from) <==> OffBoundary(s, now, idleTimeout)
  {
    TickAgreesIffStamps(s, from, now, at, expired, idleTimeout);
    BoundaryIsStraddled(s, now, idleTimeout);
  }

  lemma BoundaryIsStraddled(s: Sides, now: int, idleTimeout: int)
    requires OpenAgree(s.queues, s.rows) && OneClock(s)
    ensures NoneStraddled(s, now, idleTimeout) <==> OffBoundary(s, now, idleTimeout)
  {
    if !OffBoundary(s, now, idleTimeout) {
      var q :| q in s.queues && now - s.queues[q].lastSeen == idleTimeout;
      assert HasOpen(s.rows, q);
      var k :| 0 <= k < |s.rows| && OpenFor(s.rows[k], q);
      assert Straddled(s.rows[k], s.queues[q], now - idleTimeout);
    }
  }
}
