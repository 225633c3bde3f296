/**
  The in-memory stitcher: one open transaction per queue ID, emitted when its status
  becomes terminal or when it has been idle for the timeout.
 */
module Stitcher {
  import opened MailLog

  datatype QueuedTransaction = QueuedTransaction(transaction: MailTransaction, lastSeen: int)

  type Queues = map<string, QueuedTransaction>

  /** Each open transaction is filed under its own queue ID, is non-terminal and not timed out. */
  predicate WellFiled(queues: Queues) {
    forall q :: q in queues ==>
      && q != ""
      && queues[q].transaction.queueId == q
      && !queues[q].transaction.timedOut
      && !IsTerminalStatus(queues[q].transaction.status)
  }

  function Text(supplied: string, kept: string): string {
    if supplied != "" then supplied else kept
  }

  function Optional<T>(supplied: Option<T>, kept: Option<T>): Option<T> {
    if supplied.Some? then supplied else kept
  }

  /** The transaction a queue starts from, before its first entry is absorbed. */
  function Opened(e: LogEntry): MailTransaction {
    MailTransaction(e.ts, 0, e.queueId, "", "", "", "", "", "", None, "", "", "", None, "", "", "",
                    None, "", "", false, 0.0, false, [])
  }

  function Absorb(tx: MailTransaction, e: LogEntry): MailTransaction {
    MailTransaction(
      tx.arrival, e.ts, tx.queueId,
      Text(e.host, tx.host), Text(e.process, tx.process),
      Text(e.mailFrom, tx.sender), Text(e.mailTo, tx.recipient),
      Text(e.status, tx.status), Text(e.relay, tx.relay),
      Optional(e.delay, tx.delay), Text(e.delays, tx.delays), Text(e.dsn, tx.dsn),
      Text(e.messageId, tx.messageId), Optional(e.sizeBytes, tx.sizeBytes),
      Text(e.queuedAs, tx.queuedAs), Text(e.mailId, tx.mailId), Text(e.subject, tx.subject),
      Optional(e.hits, tx.hits), Text(e.helo, tx.helo), Text(e.amavisOrigin, tx.amavisOrigin),
      tx.isJunk || e.isJunk,
      if e.spamScore.Some? then e.spamScore.value else tx.spamScore,
      tx.timedOut, tx.raw + [e.raw])
  }

  datatype Applied = Applied(queues: Queues, emitted: Option<MailTransaction>)

  /** What one entry does to the open queues, and what it emits. */
  function ApplyEntry(queues: Queues, e: LogEntry, now: int): Applied {
    if e.queueId == "" then Applied(queues, None)
    else
      var tx := Absorb(if e.queueId in queues then queues[e.queueId].transaction else Opened(e), e);
      if IsTerminalStatus(tx.status) then Applied(queues - {e.queueId}, Some(tx))
      else Applied(queues[e.queueId := QueuedTransaction(tx, now)], None)
  }

  /** Idle for at least the timeout. */
  predicate Expired(queue: QueuedTransaction, now: int, idleTimeout: int) {
    now - queue.lastSeen >= idleTimeout
  }

  function ExpiredIds(queues: Queues, now: int, idleTimeout: int): set<string> {
    set q | q in queues && Expired(queues[q], now, idleTimeout)
  }

  function Ids(txs: seq<MailTransaction>): seq<string> {
    seq(|txs|, i requires 0 <= i < |txs| => txs[i].queueId)
  }

  /**
    `expired` lists, in some order, each expired queue once, marked as timed out.  The
    source ranges over a Go map, so the order is unspecified.
   */
  predicate ListsExpired(queues: Queues, now: int, idleTimeout: int, expired: seq<MailTransaction>) {
    && (forall i :: 0 <= i < |expired| ==>
          && expired[i].queueId in ExpiredIds(queues, now, idleTimeout)
          && expired[i] == queues[expired[i].queueId].transaction.(timedOut := true))
    && (forall q :: q in ExpiredIds(queues, now, idleTimeout) ==> q in Ids(expired))
    && (forall i, j :: 0 <= i < j < |expired| ==> expired[i].queueId != expired[j].queueId)
  }

  lemma ApplyKeepsFiling(queues: Queues, e: LogEntry, now: int)
    requires WellFiled(queues)
    ensures WellFiled(ApplyEntry(queues, e, now).queues)
  {
  }

  class TransactionStitcher {
    var queues: Queues
    const idleTimeout: int

    ghost predicate Valid()
      reads this
    {
      WellFiled(queues)
    }

    constructor (idleTimeout: int)
      ensures Valid() && queues == map[] && this.idleTimeout == idleTimeout
    {
      queues := map[];
      this.idleTimeout := idleTimeout;
    }

    /** The field-by-field overwriting inside `Apply`. */
    static method Overwrite(before: MailTransaction, e: LogEntry) returns (tx: MailTransaction)
      ensures tx == Absorb(before, e)
    {
      var MailTransaction(arrival, _, queueId, host, process, sender, recipient, status, relay, delay,
                          delays, dsn, messageId, sizeBytes, queuedAs, mailId, subject, hits, helo,
                          amavisOrigin, isJunk, spamScore, timedOut, raw) := before;
      var last := e.ts;
      if e.host != "" { host := e.host; }
      if e.process != "" { process := e.process; }
      if e.mailFrom != "" { sender := e.mailFrom; }
      if e.mailTo != "" { recipient := e.mailTo; }
      if e.status != "" { status := e.status; }
      if e.relay != "" { relay := e.relay; }
      if e.delay.Some? { delay := e.delay; }
      if e.delays != "" { delays := e.delays; }
      if e.dsn != "" { dsn := e.dsn; }
      if e.messageId != "" { messageId := e.messageId; }
      if e.sizeBytes.Some? { sizeBytes := e.sizeBytes; }
      if e.queuedAs != "" { queuedAs := e.queuedAs; }
      if e.mailId != "" { mailId := e.mailId; }
      if e.subject != "" { subject := e.subject; }
      if e.hits.Some? { hits := e.hits; }
      if e.helo != "" { helo := e.helo; }
      if e.amavisOrigin != "" { amavisOrigin := e.amavisOrigin; }
      if e.isJunk { isJunk := true; }
      if e.spamScore.Some? { spamScore := e.spamScore.value; }
      raw := raw + [e.raw];
      tx := MailTransaction(arrival, last, queueId, host, process, sender, recipient, status, relay, delay,
                            delays, dsn, messageId, sizeBytes, queuedAs, mailId, subject, hits, helo,
                            amavisOrigin, isJunk, spamScore, timedOut, raw);
    }

    /** `now` is the clock reading taken while the entry is applied. */
    method Apply(entry: Option<LogEntry>, now: int) returns (emitted: Option<MailTransaction>)
      requires Valid()
      modifies this
      ensures Valid()
      ensures entry.None? ==> queues == old(queues) && emitted == None
      ensures entry.Some? ==> Applied(queues, emitted) == ApplyEntry(old(queues), entry.value, now)
    {
      if entry.None? || entry.value.queueId == "" {
        return None;
      }
      var e := entry.value;
      var tx := Opened(e);
      if e.queueId in queues {
        tx := queues[e.queueId].transaction;
      }
      tx := Overwrite(tx, e);

      if !IsTerminalStatus(tx.status) {
        queues := queues[e.queueId := QueuedTransaction(tx, now)];
        return None;
      }
      queues := queues - {e.queueId};
      return Some(tx);
    }

    method EvictExpired(now: int) returns (expired: seq<MailTransaction>)
      requires Valid()
      modifies this
      ensures Valid()
      ensures ListsExpired(old(queues), now, idleTimeout, expired)
      ensures queues == old(queues) - ExpiredIds(old(queues), now, idleTimeout)
    {
      expired := [];
      var unvisited := queues.Keys;
      while unvisited != {}
        invariant unvisited <= old(queues).Keys
        invariant queues == old(queues) - (ExpiredIds(old(queues), now, idleTimeout) - unvisited)
        invariant forall i :: 0 <= i < |expired| ==>
          && expired[i].queueId in ExpiredIds(old(queues), now, idleTimeout) - unvisited
          && expired[i] == old(queues)[expired[i].queueId].transaction.(timedOut := true)
        invariant forall q :: q in ExpiredIds(old(queues), now, idleTimeout) - unvisited ==> q in Ids(expired)
        invariant forall i, j :: 0 <= i < j < |expired| ==> expired[i].queueId != expired[j].queueId
        decreases unvisited
      {
        var queueId :| queueId in unvisited;
        unvisited := unvisited - {queueId};
        var queue := queues[queueId];
        if now - queue.lastSeen < idleTimeout {
          continue;
        }
        ghost var before := expired;
        expired := expired + [queue.transaction.(timedOut := true)];
        assert Ids(expired) == Ids(before) + [queueId];
        queues := queues - {queueId};
      }
    }
  }
}
