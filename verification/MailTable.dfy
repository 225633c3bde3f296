/**
  The mail_transactions, maillog_entries and ingest_state tables.  Rows are never
  deleted, so a row's position in `rows` follows its serial id.
 */
module MailTable {
  import opened MailLog

  datatype Row = Row(
    arrival: int,
    last: int,
    queueId: string,
    host: string,
    process: string,
    mailFrom: string,
    mailTo: string,
    status: string,
    relay: string,
    delay: Option<real>,
    delays: string,
    dsn: string,
    messageId: string,
    sizeBytes: Option<int>,
    queuedAs: string,
    mailId: string,
    subject: string,
    hits: Option<real>,
    helo: string,
    amavisOrigin: string,
    isJunk: bool,
    spamScore: Option<real>,
    raw: string,
    terminal: bool,
    timedOut: bool,
    updatedAt: int)

  datatype Checkpoint = Checkpoint(offset: int, inode: int)

  datatype Database = Database(entries: seq<LogEntry>, rows: seq<Row>, checkpoint: Option<Checkpoint>)

  const EMPTY: Database := Database([], [], None)

  // ---- mail_transactions ----

  predicate OpenFor(row: Row, queueId: string) {
    row.queueId == queueId && !row.terminal
  }

  /** One past the newest open row of the queue, or 0 when it has none. */
  function NewestOpen(rows: seq<Row>, queueId: string): (n: nat)
    ensures n <= |rows|
    ensures n > 0 ==> OpenFor(rows[n - 1], queueId)
    ensures forall i :: n <= i < |rows| ==> !OpenFor(rows[i], queueId)
  {
    if rows == [] then 0
    else if OpenFor(rows[|rows| - 1], queueId) then |rows|
    else NewestOpen(rows[..|rows| - 1], queueId)
  }

  function Coalesce<T>(supplied: Option<T>, kept: Option<T>): Option<T> {
    if supplied == None then kept else supplied
  }

  function CaseText(supplied: string, kept: string): string {
    if supplied != "" then supplied else kept
  }

  /** The UPDATE branch of the merge, for one row. */
  function Updated(row: Row, e: LogEntry, now: int): Row {
    row.(
      last := e.ts,
      host := CaseText(e.host, row.host),
      process := CaseText(e.process, row.process),
      mailFrom := CaseText(e.mailFrom, row.mailFrom),
      mailTo := CaseText(e.mailTo, row.mailTo),
      status := CaseText(e.status, row.status),
      relay := CaseText(e.relay, row.relay),
      delay := Coalesce(e.delay, row.delay),
      delays := CaseText(e.delays, row.delays),
      dsn := CaseText(e.dsn, row.dsn),
      messageId := CaseText(e.messageId, row.messageId),
      sizeBytes := Coalesce(e.sizeBytes, row.sizeBytes),
      queuedAs := CaseText(e.queuedAs, row.queuedAs),
      mailId := CaseText(e.mailId, row.mailId),
      subject := CaseText(e.subject, row.subject),
      hits := Coalesce(e.hits, row.hits),
      helo := CaseText(e.helo, row.helo),
      amavisOrigin := CaseText(e.amavisOrigin, row.amavisOrigin),
      isJunk := row.isJunk || e.isJunk,
      spamScore := Coalesce(e.spamScore, row.spamScore),
      raw := if row.raw == "" then e.raw else row.raw + "\n" + e.raw,
      terminal := row.terminal || IsTerminalStatus(e.status),
      updatedAt := now)
  }

  /** The INSERT branch of the merge. */
  function Inserted(e: LogEntry, now: int): Row {
    Row(e.ts, e.ts, e.queueId, e.host, e.process, e.mailFrom, e.mailTo, e.status, e.relay,
        e.delay, e.delays, e.dsn, e.messageId, e.sizeBytes, e.queuedAs, e.mailId, e.subject,
        e.hits, e.helo, e.amavisOrigin, e.isJunk, e.spamScore, e.raw,
        IsTerminalStatus(e.status), false, now)
  }

  function Merge(rows: seq<Row>, e: LogEntry, now: int): seq<Row> {
    var n := NewestOpen(rows, e.queueId);
    if n > 0 then rows[n - 1 := Updated(rows[n - 1], e, now)] else rows + [Inserted(e, now)]
  }

  predicate Idle(row: Row, cutoff: int) {
    !row.terminal && row.updatedAt < cutoff
  }

  function TimedOut(row: Row, now: int): Row {
    row.(terminal := true, timedOut := true,
         status := if row.status == "" then "timed_out" else row.status,
         updatedAt := now)
  }

  function EvictRow(row: Row, cutoff: int, now: int): Row {
    if Idle(row, cutoff) then TimedOut(row, now) else row
  }

  function Evict(rows: seq<Row>, cutoff: int, now: int): seq<Row> {
    seq(|rows|, i requires 0 <= i < |rows| => EvictRow(rows[i], cutoff, now))
  }

  // ---- maillog_entries and the record transaction ----

  function InsertEntry(entries: seq<LogEntry>, e: LogEntry): seq<LogEntry> {
    if exists i :: 0 <= i < |entries| && entries[i].rawHash == e.rawHash then entries else entries + [e]
  }

  /** The whole transaction that commits one log line together with its checkpoint. */
  function Persist(db: Database, entry: Option<LogEntry>, offset: int, inode: int, now: int): Database {
    Database(
      if entry.Some? then InsertEntry(db.entries, entry.value) else db.entries,
      if entry.Some? && entry.value.queueId != "" then Merge(db.rows, entry.value, now) else db.rows,
      Some(Checkpoint(offset, inode)))
  }

  // ---- invariant over every run of merges and evictions ----

  predicate RowInv(row: Row) {
    if row.terminal then IsTerminalStatus(row.status) != row.timedOut
    else !IsTerminalStatus(row.status) && !row.timedOut
  }

  /**
    A queue's only possibly open row is its newest; open rows have neither a terminal
    status nor a timeout, and closed rows have exactly one of the two.
   */
  predicate TableInv(rows: seq<Row>) {
    && (forall i :: 0 <= i < |rows| ==> RowInv(rows[i]))
    && (forall i, j :: 0 <= i < j < |rows| && rows[i].queueId == rows[j].queueId ==> rows[i].terminal)
  }

  /** Closed rows are still there, unchanged, and no row has disappeared. */
  predicate Preserves(before: seq<Row>, after: seq<Row>) {
    && |before| <= |after|
    && (forall i :: 0 <= i < |before| ==> after[i].queueId == before[i].queueId)
    && (forall i :: 0 <= i < |before| && before[i].terminal ==> after[i] == before[i])
  }

  datatype TableOp = Merging(entry: LogEntry, at: int) | Evicting(cutoff: int, at: int)

  function Perform(rows: seq<Row>, op: TableOp): seq<Row> {
    match op
    case Merging(e, at) => Merge(rows, e, at)
    case Evicting(cutoff, at) => Evict(rows, cutoff, at)
  }

  function PerformAll(rows: seq<Row>, ops: seq<TableOp>): seq<Row>
    decreases |ops|
  {
    if ops == [] then rows else Perform(PerformAll(rows, ops[..|ops| - 1]), ops[|ops| - 1])
  }

  lemma MergeKeepsInvariant(rows: seq<Row>, e: LogEntry, now: int)
    requires TableInv(rows)
    ensures TableInv(Merge(rows, e, now))
    ensures Preserves(rows, Merge(rows, e, now))
  {
    var n := NewestOpen(rows, e.queueId);
    if n > 0 {
      StatusAfterMerge(rows[n - 1].status, e.status);
    }
  }

  lemma EvictKeepsInvariant(rows: seq<Row>, cutoff: int, now: int)
    requires TableInv(rows)
    ensures TableInv(Evict(rows, cutoff, now))
    ensures Preserves(rows, Evict(rows, cutoff, now))
  {
    forall i | 0 <= i < |rows| ensures RowInv(Evict(rows, cutoff, now)[i]) {
      assert RowInv(rows[i]);
      if Idle(rows[i], cutoff) && IsTerminalStatus(TimedOut(rows[i], now).status) {
        TerminalStatusLength(TimedOut(rows[i], now).status);
      }
    }
  }

  /**
    Over any run of merges and evictions the invariant holds, and whatever was closed
    at any intermediate point is unchanged at the end.
   */
  lemma {:induction false} TableRunInvariant(rows: seq<Row>, ops: seq<TableOp>, k: nat)
    requires TableInv(rows) && k <= |ops|
    ensures TableInv(PerformAll(rows, ops))
    ensures Preserves(PerformAll(rows, ops[..k]), PerformAll(rows, ops))
    decreases |ops|
  {
    if k == |ops| {
      assert ops[..k] == ops;
      if ops != [] {
        TableRunInvariant(rows, ops[..k - 1], k - 1);
        PerformKeepsInvariant(PerformAll(rows, ops[..k - 1]), ops[k - 1]);
      }
    } else {
      var init := ops[..|ops| - 1];
      TableRunInvariant(rows, init, k);
      assert init[..k] == ops[..k];
      PerformKeepsInvariant(PerformAll(rows, init), ops[|ops| - 1]);
    }
  }

  lemma PerformKeepsInvariant(rows: seq<Row>, op: TableOp)
    requires TableInv(rows)
    ensures TableInv(Perform(rows, op)) && Preserves(rows, Perform(rows, op))
  {
    match op
    case Merging(e, at) => MergeKeepsInvariant(rows, e, at);
    case Evicting(cutoff, at) => EvictKeepsInvariant(rows, cutoff, at);
  }

  // ---- the tables as mutable state ----

  class MailStore {
    var entries: seq<LogEntry>
    var rows: seq<Row>
    var checkpoint: Option<Checkpoint>

    ghost predicate Valid()
      reads this
    {
      TableInv(rows)
    }

    function Value(): Database
      reads this
    {
      Database(entries, rows, checkpoint)
    }

    constructor ()
      ensures Valid() && Value() == EMPTY
    {
      entries, rows, checkpoint := [], [], None;
    }

    /** INSERT ... ON CONFLICT(raw_hash) DO NOTHING; reports whether a row was added. */
    method InsertRawEntry(e: LogEntry) returns (added: bool)
      modifies this`entries
      ensures entries == InsertEntry(old(entries), e)
      ensures added == (entries != old(entries))
    {
      var i := 0;
      while i < |entries|
        invariant i <= |entries|
        invariant forall j :: 0 <= j < i ==> entries[j].rawHash != e.rawHash
      {
        if entries[i].rawHash == e.rawHash {
          return false;
        }
        i := i + 1;
      }
      entries := entries + [e];
      return true;
    }

    /** SELECT the newest open row: ORDER BY id DESC LIMIT 1. */
    method FindOpen(queueId: string) returns (n: nat)
      ensures n == NewestOpen(rows, queueId)
    {
      n := |rows|;
      while n > 0 && !OpenFor(rows[n - 1], queueId)
        invariant n <= |rows|
        invariant forall i :: n <= i < |rows| ==> !OpenFor(rows[i], queueId)
      {
        n := n - 1;
      }
    }

    /** UPDATE the newest open row of the queue; INSERT when no row was affected. */
    method MergeMailTransaction(e: LogEntry, now: int)
      requires Valid()
      modifies this`rows
      ensures Valid() && rows == Merge(old(rows), e, now) && Preserves(old(rows), rows)
    {
      MergeKeepsInvariant(rows, e, now);
      var n := FindOpen(e.queueId);
      if n > 0 {
        rows := rows[n - 1 := Updated(rows[n - 1], e, now)];
      } else {
        rows := rows + [Inserted(e, now)];
      }
    }

    /** UPDATE every open row not touched since the cutoff. */
    method EvictExpiredTransactions(cutoff: int, now: int)
      requires Valid()
      modifies this`rows
      ensures Valid() && rows == Evict(old(rows), cutoff, now) && Preserves(old(rows), rows)
      ensures |rows| == |old(rows)| && forall i :: 0 <= i < |rows| ==>
        var row := old(rows)[i];
        rows[i] ==
          if !row.terminal && row.updatedAt < cutoff
          then row.(terminal := true, timedOut := true, updatedAt := now,
                    status := if row.status == "" then "timed_out" else row.status)
          else row
    {
      EvictKeepsInvariant(rows, cutoff, now);
      var i := 0;
      while i < |rows|
        invariant i <= |rows| == |old(rows)|
        invariant forall j :: 0 <= j < i ==> rows[j] == EvictRow(old(rows)[j], cutoff, now)
        invariant forall j :: i <= j < |rows| ==> rows[j] == old(rows)[j]
      {
        if !rows[i].terminal && rows[i].updatedAt < cutoff {
          rows := rows[i := TimedOut(rows[i], now)];
        }
        i := i + 1;
      }
      assert rows == Evict(old(rows), cutoff, now);
    }

    method SetIngestState(offset: int, inode: int)
      modifies this`checkpoint
      ensures checkpoint == Some(Checkpoint(offset, inode))
    {
      checkpoint := Some(Checkpoint(offset, inode));
    }

    /**
      One database transaction.  `succeeds` is whether the database accepts and commits
      it; when it does not, the rollback leaves every table as it was.
     */
    method PersistMailLogRecord(entry: Option<LogEntry>, offset: int, inode: int, now: int, succeeds: bool)
      returns (ok: bool)
      requires Valid()
      modifies this
      ensures Valid() && ok == succeeds
      ensures Value() == if succeeds then Persist(old(Value()), entry, offset, inode, now) else old(Value())
    {
      if !succeeds {
        return false;
      }
      if entry.Some? {
        var _ := InsertRawEntry(entry.value);
        if entry.value.queueId != "" {
          MergeMailTransaction(entry.value, now);
        }
      }
      SetIngestState(offset, inode);
      return true;
    }
  }
}
