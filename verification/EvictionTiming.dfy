/**
  When idle queues are evicted: never before the timeout, and, with punctual ticks, less
  than one tick interval after it.
 */
module EvictionTiming {
  import opened MailLog
  import opened Stitcher
  import R = StitcherRuns
  import T = MailTable

  const MINUTE: int := 60_000_000_000

  function MinDuration(a: int, b: int): int {
    if a < b then a else b
  }

  /** Half the timeout, at most a minute, and never zero. */
  function TickInterval(idleTimeout: int): (interval: int)
    requires idleTimeout > 0
    ensures 0 < interval <= idleTimeout && interval <= 60_000_000_000
    ensures idleTimeout < 120_000_000_000 ==> idleTimeout - 1 <= 2 * interval <= idleTimeout + 1
    ensures idleTimeout >= 120_000_000_000 ==> interval == 60_000_000_000
  {
    var half := MinDuration(idleTimeout / 2, MINUTE);
    if half <= 0 then 1 else half
  }

  // ---- never too early ----

  /** Operation `j` is the queue's latest entry. */
  predicate LatestTake(ops: seq<R.Op>, q: string, j: nat) {
    && j < |ops| && ops[j].Take? && ops[j].entry.queueId == q
    && forall k :: j < k < |ops| && ops[k].Take? ==> ops[k].entry.queueId != q
  }

  lemma {:induction false} NoEmptyQueueId(ops: seq<R.Op>, idleTimeout: int)
    ensures "" !in R.Run(ops, idleTimeout).queues
  {
    if ops != [] {
      NoEmptyQueueId(ops[..|ops| - 1], idleTimeout);
    }
  }

  /** The time stamp an open queue carries is that of its latest entry. */
  lemma {:induction false} LastSeenIsLatest(ops: seq<R.Op>, idleTimeout: int, q: string) returns (j: nat)
    requires q in R.Run(ops, idleTimeout).queues
    ensures LatestTake(ops, q, j) && R.Run(ops, idleTimeout).queues[q].lastSeen == ops[j].now
    decreases |ops|
  {
    NoEmptyQueueId(ops, idleTimeout);
    var n := |ops| - 1;
    var init := ops[..n];
    match ops[n]
    case Take(e, now) =>
      if e.queueId == q {
        j := n;
      } else {
        j := LastSeenIsLatest(init, idleTimeout, q);
        assert init[j] == ops[j];
        assert forall k :: 0 <= k < n ==> init[k] == ops[k];
      }
    case Sweep(now, expired) =>
      j := LastSeenIsLatest(init, idleTimeout, q);
      assert init[j] == ops[j];
      assert forall k :: 0 <= k < n ==> init[k] == ops[k];
  }

  /**
    In any run, whatever a sweep emits as timed out had its queue's latest entry at least the
    timeout before the sweep.
   */
  lemma NeverTooEarly(ops: seq<R.Op>, idleTimeout: int, k: nat, i: nat) returns (j: nat)
    requires R.Legal(ops, idleTimeout) && k < |ops| && ops[k].Sweep? && i < |ops[k].expired|
    ensures LatestTake(ops[..k], ops[k].expired[i].queueId, j)
    ensures ops[k].expired[i].timedOut && ops[k].now - ops[j].now >= idleTimeout
  {
    var q := ops[k].expired[i].queueId;
    var queues := R.Run(ops[..k], idleTimeout).queues;
    assert ListsExpired(queues, ops[k].now, idleTimeout, ops[k].expired);
    assert q in ExpiredIds(queues, ops[k].now, idleTimeout);
    j := LastSeenIsLatest(ops[..k], idleTimeout, q);
  }

  // ---- soon enough: the stitcher in any run ----

  function SweepCount(ops: seq<R.Op>): nat {
    if ops == [] then 0 else SweepCount(ops[..|ops| - 1]) + if ops[|ops| - 1].Sweep? then 1 else 0
  }

  /** The sweeps of a run happen at regular ticks: the n-th of them n intervals after the start. */
  predicate Punctual(ops: seq<R.Op>, start: int, interval: int) {
    forall k :: 0 <= k < |ops| && ops[k].Sweep? ==> ops[k].now == start + (SweepCount(ops[..k]) + 1) * interval
  }

  /** No entry of the queue after operation `j`; entries of other queues are not restricted. */
  predicate Untouched(ops: seq<R.Op>, q: string, j: nat) {
    forall k :: j < k < |ops| && ops[k].Take? ==> ops[k].entry.queueId != q
  }

  /** A sweep by which a queue last seen at `seen` has been idle for the timeout. */
  predicate Due(op: R.Op, seen: int, idleTimeout: int) {
    op.Sweep? && op.now - seen >= idleTimeout
  }

  predicate NoneDue(ops: seq<R.Op>, j: nat, n: nat, seen: int, idleTimeout: int) {
    forall k :: j < k < n && k < |ops| ==> !Due(ops[k], seen, idleTimeout)
  }

  lemma OtherTakeKeeps(b: R.Book, e: LogEntry, now: int, idleTimeout: int, q: string)
    requires e.queueId != q
    ensures var b' := R.Step(b, R.Take(e, now), idleTimeout);
      (q in b'.queues <==> q in b.queues) && (q in b.queues ==> b'.queues[q] == b.queues[q])
  {
  }

  lemma SweepKeepsIff(b: R.Book, now: int, expired: seq<MailTransaction>, idleTimeout: int, q: string)
    ensures var b' := R.Step(b, R.Sweep(now, expired), idleTimeout);
      && (q in b'.queues <==> q in b.queues && now - b.queues[q].lastSeen < idleTimeout)
      && (q in b'.queues ==> b'.queues[q] == b.queues[q])
  {
  }

  lemma RunPrefix(ops: seq<R.Op>, idleTimeout: int, n: nat)
    requires 0 < n <= |ops|
    ensures R.Run(ops[..n], idleTimeout) == R.Step(R.Run(ops[..n - 1], idleTimeout), ops[n - 1], idleTimeout)
  {
    assert ops[..n][..n - 1] == ops[..n - 1];
  }

  /** One operation that is not an entry of the queue. */
  lemma OtherOp(b: R.Book, op: R.Op, idleTimeout: int, q: string)
    requires op.Take? ==> op.entry.queueId != q
    ensures var b' := R.Step(b, op, idleTimeout);
      && (q in b'.queues <==> q in b.queues && !Due(op, b.queues[q].lastSeen, idleTimeout))
      && (q in b'.queues ==> b'.queues[q] == b.queues[q])
  {
    match op
    case Take(e, now) => OtherTakeKeeps(b, e, now, idleTimeout, q);
    case Sweep(now, expired) => SweepKeepsIff(b, now, expired, idleTimeout, q);
  }

  /**
    In any run, a queue that gets no further entry stays open, unchanged, exactly until the
    first sweep by which it has been idle for the timeout.
   */
  lemma {:induction false} StaysOpenIff(ops: seq<R.Op>, idleTimeout: int, q: string, j: nat, n: nat)
    requires j < n <= |ops| && Untouched(ops, q, j) && q in R.Run(ops[..j + 1], idleTimeout).queues
    ensures var queue := R.Run(ops[..j + 1], idleTimeout).queues[q];
      var queues := R.Run(ops[..n], idleTimeout).queues;
      && (q in queues <==> NoneDue(ops, j, n, queue.lastSeen, idleTimeout))
      && (q in queues ==> queues[q] == queue)
    decreases n
  {
    if n > j + 1 {
      StaysOpenIff(ops, idleTimeout, q, j, n - 1);
      RunPrefix(ops, idleTimeout, n);
      OpenNext(ops, idleTimeout, q, j, n, R.Run(ops[..j + 1], idleTimeout).queues[q],
               R.Run(ops[..n - 1], idleTimeout));
    }
  }

  lemma OpenNext(ops: seq<R.Op>, idleTimeout: int, q: string, j: nat, n: nat, queue: QueuedTransaction, b: R.Book)
    requires j + 1 < n <= |ops| && Untouched(ops, q, j)
    requires q in b.queues <==> NoneDue(ops, j, n - 1, queue.lastSeen, idleTimeout)
    requires q in b.queues ==> b.queues[q] == queue
    ensures var queues := R.Step(b, ops[n - 1], idleTimeout).queues;
      && (q in queues <==> NoneDue(ops, j, n, queue.lastSeen, idleTimeout))
      && (q in queues ==> queues[q] == queue)
  {
    OtherOp(b, ops[n - 1], idleTimeout, q);
  }

  /** The first due sweep after `j`. */
  lemma {:induction false} FirstDue(ops: seq<R.Op>, j: nat, k: nat, seen: int, idleTimeout: int) returns (e: nat)
    requires j < k < |ops| && Due(ops[k], seen, idleTimeout)
    ensures j < e <= k && Due(ops[e], seen, idleTimeout) && NoneDue(ops, j, e, seen, idleTimeout)
    decreases k
  {
    if NoneDue(ops, j, k, seen, idleTimeout) {
      e := k;
    } else {
      var i :| j < i < k && Due(ops[i], seen, idleTimeout);
      e := FirstDue(ops, j, i, seen, idleTimeout);
    }
  }

  /** The tick before a sweep: another sweep of the run one interval earlier, or the start. */
  lemma {:induction false} TickBefore(ops: seq<R.Op>, n: nat) returns (p: nat)
    requires n <= |ops| && SweepCount(ops[..n]) > 0
    ensures p < n && ops[p].Sweep? && SweepCount(ops[..n]) == SweepCount(ops[..p]) + 1
    decreases n
  {
    assert ops[..n][..n - 1] == ops[..n - 1];
    if ops[n - 1].Sweep? {
      p := n - 1;
    } else {
      p := TickBefore(ops, n - 1);
    }
  }

  lemma OneIntervalEarlier(ops: seq<R.Op>, start: int, interval: int, e: nat) returns (p: nat)
    requires Punctual(ops, start, interval) && e < |ops| && ops[e].Sweep?
    ensures p == |ops| ==> ops[e].now == start + interval
    ensures p != |ops| ==> p < e && ops[p].Sweep? && ops[e].now == ops[p].now + interval
  {
    if SweepCount(ops[..e]) == 0 {
      p := |ops|;
    } else {
      p := TickBefore(ops, e);
      var c := SweepCount(ops[..p]);
      assert start + (c + 2) * interval == start + (c + 1) * interval + interval;
    }
  }

  /**
    In any run with punctual ticks, a queue whose latest entry is operation `j` is open until
    one sweep and gone from then on, whatever other queues do in between.  That sweep emits
    it, after an idle time of at least the timeout, less than the timeout plus one interval,
    and so less than twice the timeout.
   */
  lemma EvictedInTime(ops: seq<R.Op>, idleTimeout: int, start: int, q: string, j: nat, late: nat) returns (e: nat)
    requires idleTimeout > 0 && R.Legal(ops, idleTimeout) && Punctual(ops, start, TickInterval(idleTimeout))
    requires j < |ops| && ops[j].Take? && ops[j].entry.queueId == q && Untouched(ops, q, j)
    requires q in R.Run(ops[..j + 1], idleTimeout).queues && start <= ops[j].now
    requires forall k :: 0 <= k < j && ops[k].Sweep? ==> ops[k].now <= ops[j].now
    requires j < late < |ops| && Due(ops[late], ops[j].now, idleTimeout)
    ensures j < e <= late && ops[e].Sweep? && q in Ids(ops[e].expired)
    ensures forall n :: j < n <= |ops| ==> (q in R.Run(ops[..n], idleTimeout).queues <==> n <= e)
    ensures idleTimeout <= ops[e].now - ops[j].now < idleTimeout + TickInterval(idleTimeout) <= 2 * idleTimeout
  {
    var seen := ops[j].now;
    TakenNow(ops, idleTimeout, q, j);
    e := FirstDue(ops, j, late, seen, idleTimeout);
    forall n | j < n <= |ops| ensures q in R.Run(ops[..n], idleTimeout).queues <==> n <= e {
      StaysOpenIff(ops, idleTimeout, q, j, n);
    }
    var p := OneIntervalEarlier(ops, start, TickInterval(idleTimeout), e);
    if p < |ops| && p > j {
      assert !Due(ops[p], seen, idleTimeout);
    }
    DueIsListed(ops, idleTimeout, q, j, e);
  }

  lemma TakenNow(ops: seq<R.Op>, idleTimeout: int, q: string, j: nat)
    requires j < |ops| && ops[j].Take? && ops[j].entry.queueId == q
    requires q in R.Run(ops[..j + 1], idleTimeout).queues
    ensures R.Run(ops[..j + 1], idleTimeout).queues[q].lastSeen == ops[j].now
  {
    NoEmptyQueueId(ops[..j + 1], idleTimeout);
    assert ops[..j + 1][..j] == ops[..j] && ops[..j + 1][j] == ops[j];
  }

  lemma DueIsListed(ops: seq<R.Op>, idleTimeout: int, q: string, j: nat, e: nat)
    requires R.Legal(ops, idleTimeout) && j < e < |ops| && Untouched(ops, q, j)
    requires q in R.Run(ops[..j + 1], idleTimeout).queues
    requires var seen := R.Run(ops[..j + 1], idleTimeout).queues[q].lastSeen;
      Due(ops[e], seen, idleTimeout) && NoneDue(ops, j, e, seen, idleTimeout)
    ensures q in Ids(ops[e].expired)
  {
    StaysOpenIff(ops, idleTimeout, q, j, e);
    var queues := R.Run(ops[..e], idleTimeout).queues;
    assert ListsExpired(queues, ops[e].now, idleTimeout, ops[e].expired);
    assert q in ExpiredIds(queues, ops[e].now, idleTimeout);
  }

  // ---- soon enough: the table in any run ----

  function EvictionCount(ops: seq<T.TableOp>): nat {
    if ops == [] then 0 else EvictionCount(ops[..|ops| - 1]) + if ops[|ops| - 1].Evicting? then 1 else 0
  }

  /** The n-th eviction happens n intervals after the start, with the timeout before that as its cutoff. */
  predicate PunctualEvictions(ops: seq<T.TableOp>, start: int, interval: int, idleTimeout: int) {
    forall k :: 0 <= k < |ops| && ops[k].Evicting? ==>
      ops[k].cutoff + idleTimeout == start + (EvictionCount(ops[..k]) + 1) * interval
  }

  predicate UntouchedRow(ops: seq<T.TableOp>, q: string, j: nat) {
    forall k :: j <= k < |ops| && ops[k].Merging? ==> ops[k].entry.queueId != q
  }

  predicate Past(op: T.TableOp, updatedAt: int) {
    op.Evicting? && updatedAt < op.cutoff
  }

  predicate NonePast(ops: seq<T.TableOp>, j: nat, n: nat, updatedAt: int) {
    forall k :: j <= k < n && k < |ops| ==> !Past(ops[k], updatedAt)
  }

  /** One operation on a row that it does not feed. */
  lemma RowStep(rows: seq<T.Row>, op: T.TableOp, i: nat)
    requires i < |rows| && (op.Merging? ==> rows[i].terminal || op.entry.queueId != rows[i].queueId)
    ensures i < |T.Perform(rows, op)|
    ensures T.Perform(rows, op)[i] ==
      if op.Evicting? && T.Idle(rows[i], op.cutoff) then T.TimedOut(rows[i], op.at) else rows[i]
  {
  }

  lemma PerformPrefix(rows: seq<T.Row>, ops: seq<T.TableOp>, n: nat)
    requires 0 < n <= |ops|
    ensures T.PerformAll(rows, ops[..n]) == T.Perform(T.PerformAll(rows, ops[..n - 1]), ops[n - 1])
  {
    assert ops[..n][..n - 1] == ops[..n - 1];
  }

  /** In any run an open row that is not fed stays as it is until the first eviction past its stamp. */
  lemma {:induction false} RowKept(rows: seq<T.Row>, ops: seq<T.TableOp>, i: nat, j: nat, n: nat)
    requires j <= n <= |ops| && i < |T.PerformAll(rows, ops[..j])|
    requires var row := T.PerformAll(rows, ops[..j])[i];
      !row.terminal && UntouchedRow(ops, row.queueId, j) && NonePast(ops, j, n, row.updatedAt)
    ensures i < |T.PerformAll(rows, ops[..n])|
    ensures T.PerformAll(rows, ops[..n])[i] == T.PerformAll(rows, ops[..j])[i]
    decreases n
  {
    if n > j {
      RowKept(rows, ops, i, j, n - 1);
      PerformPrefix(rows, ops, n);
      RowStep(T.PerformAll(rows, ops[..n - 1]), ops[n - 1], i);
    }
  }

  predicate RowAt(rows: seq<T.Row>, i: nat, row: T.Row) {
    i < |rows| && rows[i] == row
  }

  /** A closed row stays, whatever is merged or evicted later. */
  lemma {:induction false} RowClosed(rows: seq<T.Row>, ops: seq<T.TableOp>, i: nat, j: nat, n: nat, row: T.Row)
    requires j <= n <= |ops| && row.terminal && RowAt(T.PerformAll(rows, ops[..j]), i, row)
    ensures RowAt(T.PerformAll(rows, ops[..n]), i, row)
    decreases n
  {
    if n > j {
      RowClosed(rows, ops, i, j, n - 1, row);
      ClosedNext(rows, ops, i, n, row);
    }
  }

  lemma ClosedNext(rows: seq<T.Row>, ops: seq<T.TableOp>, i: nat, n: nat, row: T.Row)
    requires 0 < n <= |ops| && row.terminal && RowAt(T.PerformAll(rows, ops[..n - 1]), i, row)
    ensures RowAt(T.PerformAll(rows, ops[..n]), i, row)
  {
    PerformPrefix(rows, ops, n);
    RowStep(T.PerformAll(rows, ops[..n - 1]), ops[n - 1], i);
  }

  lemma {:induction false} FirstPast(ops: seq<T.TableOp>, j: nat, k: nat, updatedAt: int) returns (e: nat)
    requires j <= k < |ops| && Past(ops[k], updatedAt)
    ensures j <= e <= k && Past(ops[e], updatedAt) && NonePast(ops, j, e, updatedAt)
    decreases k
  {
    if NonePast(ops, j, k, updatedAt) {
      e := k;
    } else {
      var i :| j <= i < k && Past(ops[i], updatedAt);
      e := FirstPast(ops, j, i, updatedAt);
    }
  }

  lemma {:induction false} EvictionBefore(ops: seq<T.TableOp>, n: nat) returns (p: nat)
    requires n <= |ops| && EvictionCount(ops[..n]) > 0
    ensures p < n && ops[p].Evicting? && EvictionCount(ops[..n]) == EvictionCount(ops[..p]) + 1
    decreases n
  {
    assert ops[..n][..n - 1] == ops[..n - 1];
    if ops[n - 1].Evicting? {
      p := n - 1;
    } else {
      p := EvictionBefore(ops, n - 1);
    }
  }

  lemma OneCutoffEarlier(ops: seq<T.TableOp>, start: int, interval: int, idleTimeout: int, e: nat) returns (p: nat)
    requires PunctualEvictions(ops, start, interval, idleTimeout) && e < |ops| && ops[e].Evicting?
    ensures p == |ops| ==> ops[e].cutoff + idleTimeout == start + interval
    ensures p != |ops| ==> p < e && ops[p].Evicting? && ops[e].cutoff == ops[p].cutoff + interval
  {
    if EvictionCount(ops[..e]) == 0 {
      p := |ops|;
    } else {
      p := EvictionBefore(ops, e);
      var c := EvictionCount(ops[..p]);
      assert start + (c + 2) * interval == start + (c + 1) * interval + interval;
    }
  }

  /** Before eviction `e` the row is as it was, from then on it is closed as timed out. */
  predicate ClosedAt(rows: seq<T.Row>, ops: seq<T.TableOp>, i: nat, row: T.Row, n: nat, e: nat)
    requires n <= |ops| && e < |ops| && ops[e].Evicting?
  {
    var now := T.PerformAll(rows, ops[..n]);
    i < |now| && now[i] == if n <= e then row else T.TimedOut(row, ops[e].at)
  }

  /**
    In any run of merges and punctual evictions, an open row whose queue gets no further entry
    is unchanged until one eviction and closed as timed out from then on, whatever is merged
    for other queues.  The timeout has then been exceeded, not merely reached, by at most one
    interval.
   */
  lemma RowEvictedInTime(rows: seq<T.Row>, ops: seq<T.TableOp>, idleTimeout: int, start: int, i: nat, j: nat, late: nat)
    returns (e: nat)
    requires idleTimeout > 0 && PunctualEvictions(ops, start, TickInterval(idleTimeout), idleTimeout)
    requires j <= late < |ops| && i < |T.PerformAll(rows, ops[..j])|
    requires var row := T.PerformAll(rows, ops[..j])[i];
      && !row.terminal && UntouchedRow(ops, row.queueId, j) && start <= row.updatedAt
      && (forall k :: 0 <= k < j && ops[k].Evicting? ==> ops[k].cutoff + idleTimeout <= row.updatedAt)
      && Past(ops[late], row.updatedAt)
    ensures j <= e <= late && ops[e].Evicting?
    ensures forall n :: j <= n <= |ops| ==> ClosedAt(rows, ops, i, T.PerformAll(rows, ops[..j])[i], n, e)
    ensures var idle := ops[e].cutoff + idleTimeout - T.PerformAll(rows, ops[..j])[i].updatedAt;
      idleTimeout < idle <= idleTimeout + TickInterval(idleTimeout)
  {
    var row := T.PerformAll(rows, ops[..j])[i];
    e := FirstPast(ops, j, late, row.updatedAt);
    forall n | j <= n <= |ops| ensures ClosedAt(rows, ops, i, row, n, e) {
      RowUntilPast(rows, ops, i, j, n, e);
    }
    var p := OneCutoffEarlier(ops, start, TickInterval(idleTimeout), idleTimeout, e);
    if p < |ops| && p >= j {
      assert !Past(ops[p], row.updatedAt);
    }
  }

  lemma RowUntilPast(rows: seq<T.Row>, ops: seq<T.TableOp>, i: nat, j: nat, n: nat, e: nat)
    requires j <= n <= |ops| && j <= e < |ops| && i < |T.PerformAll(rows, ops[..j])|
    requires var row := T.PerformAll(rows, ops[..j])[i];
      && !row.terminal && UntouchedRow(ops, row.queueId, j)
      && Past(ops[e], row.updatedAt) && NonePast(ops, j, e, row.updatedAt)
    ensures ClosedAt(rows, ops, i, T.PerformAll(rows, ops[..j])[i], n, e)
  {
    if n <= e {
      RowKept(rows, ops, i, j, n);
    } else {
      RowKept(rows, ops, i, j, e);
      PerformPrefix(rows, ops, e + 1);
      RowStep(T.PerformAll(rows, ops[..e]), ops[e], i);
      RowClosed(rows, ops, i, e + 1, n, T.TimedOut(T.PerformAll(rows, ops[..j])[i], ops[e].at));
    }
  }
}
