/**
  Whole runs of the in-memory stitcher: no raw line is lost, duplicated or moved between
  queues; and, without eviction, what each queue emits is a function of its own entries.
 */
module StitcherRuns {
  import opened MailLog
  import opened Stitcher

  datatype Op = Take(entry: LogEntry, now: int) | Sweep(now: int, expired: seq<MailTransaction>)

  datatype Book = Book(queues: Queues, out: seq<MailTransaction>)

  function Step(b: Book, op: Op, idleTimeout: int): Book {
    match op
    case Take(e, now) =>
      var applied := ApplyEntry(b.queues, e, now);
      Book(applied.queues, if applied.emitted.Some? then b.out + [applied.emitted.value] else b.out)
    case Sweep(now, expired) => Book(b.queues - ExpiredIds(b.queues, now, idleTimeout), b.out + expired)
  }

  /** From a new stitcher. */
  function Run(ops: seq<Op>, idleTimeout: int): Book {
    if ops == [] then Book(map[], []) else Step(Run(ops[..|ops| - 1], idleTimeout), ops[|ops| - 1], idleTimeout)
  }

  predicate Legal(ops: seq<Op>, idleTimeout: int) {
    forall k :: 0 <= k < |ops| && ops[k].Sweep? ==>
      ListsExpired(Run(ops[..k], idleTimeout).queues, ops[k].now, idleTimeout, ops[k].expired)
  }

  // ---- conservation ----

  /** The raw lines of the transactions emitted for a queue, in emission order. */
  function EmittedRaw(out: seq<MailTransaction>, q: string): seq<string> {
    if out == [] then [] else EmittedRaw(out[..|out| - 1], q) + RawIf(out[|out| - 1], q)
  }

  function RawIf(tx: MailTransaction, q: string): seq<string> {
    if tx.queueId == q then tx.raw else []
  }

  function OpenRaw(queues: Queues, q: string): seq<string> {
    if q in queues then queues[q].transaction.raw else []
  }

  /** The raw lines applied for a queue, in order. */
  function AppliedRaw(ops: seq<Op>, q: string): seq<string> {
    if ops == [] then []
    else AppliedRaw(ops[..|ops| - 1], q) + TakenRaw(ops[|ops| - 1], q)
  }

  function TakenRaw(op: Op, q: string): seq<string> {
    if op.Take? && op.entry.queueId == q && q != "" then [op.entry.raw] else []
  }

  lemma EmittedRawSnoc(out: seq<MailTransaction>, tx: MailTransaction, q: string)
    ensures EmittedRaw(out + [tx], q) == EmittedRaw(out, q) + RawIf(tx, q)
  {
    assert (out + [tx])[..|out|] == out;
  }

  lemma {:induction false} EmittedRawConcat(a: seq<MailTransaction>, b: seq<MailTransaction>, q: string)
    ensures EmittedRaw(a + b, q) == EmittedRaw(a, q) + EmittedRaw(b, q)
  {
    if b == [] {
      assert a + b == a;
    } else {
      var init, tx := b[..|b| - 1], b[|b| - 1];
      EmittedRawConcat(a, init, q);
      assert a + b == (a + init) + [tx];
      EmittedRawSnoc(a + init, tx, q);
      assert (EmittedRaw(a, q) + EmittedRaw(init, q)) + RawIf(tx, q)
          == EmittedRaw(a, q) + (EmittedRaw(init, q) + RawIf(tx, q));
    }
  }

  lemma {:induction false} EmittedRawAbsent(out: seq<MailTransaction>, q: string)
    requires forall i :: 0 <= i < |out| ==> out[i].queueId != q
    ensures EmittedRaw(out, q) == []
  {
    if out != [] {
      EmittedRawAbsent(out[..|out| - 1], q);
    }
  }

  lemma {:induction false} EmittedRawOnce(out: seq<MailTransaction>, k: nat)
    requires k < |out|
    requires forall i, j :: 0 <= i < j < |out| ==> out[i].queueId != out[j].queueId
    ensures EmittedRaw(out, out[k].queueId) == out[k].raw
  {
    var last := |out| - 1;
    if k == last {
      EmittedRawAbsent(out[..last], out[k].queueId);
    } else {
      EmittedRawOnce(out[..last], k);
    }
  }

  lemma SweepRaw(queues: Queues, now: int, idleTimeout: int, expired: seq<MailTransaction>, q: string)
    requires ListsExpired(queues, now, idleTimeout, expired)
    ensures EmittedRaw(expired, q) + OpenRaw(queues - ExpiredIds(queues, now, idleTimeout), q) == OpenRaw(queues, q)
  {
    if q in ExpiredIds(queues, now, idleTimeout) {
      assert q in Ids(expired);
      var k :| 0 <= k < |expired| && Ids(expired)[k] == q;
      EmittedRawOnce(expired, k);
    } else {
      EmittedRawAbsent(expired, q);
    }
  }

  lemma TakeRaw(b: Book, e: LogEntry, now: int, idleTimeout: int, q: string)
    requires WellFiled(b.queues)
    ensures var b' := Step(b, Take(e, now), idleTimeout);
      EmittedRaw(b'.out, q) + OpenRaw(b'.queues, q)
        == EmittedRaw(b.out, q) + OpenRaw(b.queues, q) + TakenRaw(Take(e, now), q)
  {
    if e.queueId != "" {
      var tx := Absorb(if e.queueId in b.queues then b.queues[e.queueId].transaction else Opened(e), e);
      AbsorbRaw(b.queues, e, tx);
      if IsTerminalStatus(tx.status) {
        CloseRaw(b, tx, e.raw, q);
      } else {
        KeepRaw(b.queues, b.queues[e.queueId := QueuedTransaction(tx, now)], tx, e.raw, q);
      }
    }
  }

  lemma CloseRaw(b: Book, tx: MailTransaction, raw: string, q: string)
    requires tx.raw == OpenRaw(b.queues, tx.queueId) + [raw]
    ensures EmittedRaw(b.out + [tx], q) + OpenRaw(b.queues - {tx.queueId}, q)
         == EmittedRaw(b.out, q) + OpenRaw(b.queues, q) + if tx.queueId == q then [raw] else []
  {
    EmittedRawSnoc(b.out, tx, q);
    Regroup(EmittedRaw(b.out, q), OpenRaw(b.queues, q), [raw]);
  }

  lemma KeepRaw(queues: Queues, queues': Queues, tx: MailTransaction, raw: string, q: string)
    requires tx.raw == OpenRaw(queues, tx.queueId) + [raw] && tx.queueId in queues'
    requires queues' == queues[tx.queueId := queues'[tx.queueId]] && queues'[tx.queueId].transaction == tx
    ensures OpenRaw(queues', q) == OpenRaw(queues, q) + if tx.queueId == q then [raw] else []
  {
  }

  lemma AbsorbRaw(queues: Queues, e: LogEntry, tx: MailTransaction)
    requires WellFiled(queues)
    requires tx == Absorb(if e.queueId in queues then queues[e.queueId].transaction else Opened(e), e)
    ensures tx.queueId == e.queueId && tx.raw == OpenRaw(queues, e.queueId) + [e.raw]
  {
  }

  /**
    For every queue, the raw lists of its emitted transactions followed by its open list are
    exactly the raw lines applied for it.
   */
  lemma {:induction false} Conservation(ops: seq<Op>, idleTimeout: int, q: string)
    requires Legal(ops, idleTimeout)
    ensures var b := Run(ops, idleTimeout);
      WellFiled(b.queues) && EmittedRaw(b.out, q) + OpenRaw(b.queues, q) == AppliedRaw(ops, q)
    decreases |ops|
  {
    if ops != [] {
      var init, op := ops[..|ops| - 1], ops[|ops| - 1];
      LegalInit(ops, idleTimeout);
      Conservation(init, idleTimeout, q);
      var b := Run(init, idleTimeout);
      match op
      case Take(e, now) =>
        ApplyKeepsFiling(b.queues, e, now);
        TakeRaw(b, e, now, idleTimeout, q);
      case Sweep(now, expired) => SweepConserves(b, now, expired, idleTimeout, q);
    }
  }

  lemma SweepConserves(b: Book, now: int, expired: seq<MailTransaction>, idleTimeout: int, q: string)
    requires ListsExpired(b.queues, now, idleTimeout, expired)
    ensures var queues' := b.queues - ExpiredIds(b.queues, now, idleTimeout);
      EmittedRaw(b.out + expired, q) + OpenRaw(queues', q) == EmittedRaw(b.out, q) + OpenRaw(b.queues, q)
  {
    EmittedRawConcat(b.out, expired, q);
    SweepRaw(b.queues, now, idleTimeout, expired, q);
    Regroup(EmittedRaw(b.out, q), EmittedRaw(expired, q),
            OpenRaw(b.queues - ExpiredIds(b.queues, now, idleTimeout), q));
  }

  lemma Regroup(a: seq<string>, b: seq<string>, c: seq<string>)
    ensures (a + b) + c == a + (b + c)
  {
  }

  lemma LegalInit(ops: seq<Op>, idleTimeout: int)
    requires Legal(ops, idleTimeout) && ops != []
    ensures Legal(ops[..|ops| - 1], idleTimeout)
    ensures ops[|ops| - 1].Sweep? ==>
      ListsExpired(Run(ops[..|ops| - 1], idleTimeout).queues, ops[|ops| - 1].now, idleTimeout, ops[|ops| - 1].expired)
  {
    var init := ops[..|ops| - 1];
    forall k | 0 <= k < |init| && init[k].Sweep?
      ensures ListsExpired(Run(init[..k], idleTimeout).queues, init[k].now, idleTimeout, init[k].expired)
    {
      assert init[..k] == ops[..k] && init[k] == ops[k];
    }
  }

  // ---- the meaning of a group of entries ----

  /** The last non-empty value supplied, or empty. */
  function LastText(group: seq<LogEntry>, field: LogEntry -> string): string {
    if group == [] then ""
    else Text(field(group[|group| - 1]), LastText(group[..|group| - 1], field))
  }

  function LastOptional<T>(group: seq<LogEntry>, field: LogEntry -> Option<T>): Option<T> {
    if group == [] then None
    else Optional(field(group[|group| - 1]), LastOptional(group[..|group| - 1], field))
  }

  predicate AnyJunk(group: seq<LogEntry>) {
    exists i :: 0 <= i < |group| && group[i].isJunk
  }

  function Raws(group: seq<LogEntry>): seq<string> {
    seq(|group|, i requires 0 <= i < |group| => group[i].raw)
  }

  /** The one transaction a non-empty group of entries of one queue stands for. */
  function Meaning(group: seq<LogEntry>): MailTransaction
    requires group != []
  {
    var score := LastOptional(group, (e: LogEntry) => e.spamScore);
    MailTransaction(
      group[0].ts, group[|group| - 1].ts, group[0].queueId,
      LastText(group, (e: LogEntry) => e.host), LastText(group, (e: LogEntry) => e.process),
      LastText(group, (e: LogEntry) => e.mailFrom), LastText(group, (e: LogEntry) => e.mailTo),
      LastText(group, (e: LogEntry) => e.status), LastText(group, (e: LogEntry) => e.relay),
      LastOptional(group, (e: LogEntry) => e.delay), LastText(group, (e: LogEntry) => e.delays),
      LastText(group, (e: LogEntry) => e.dsn), LastText(group, (e: LogEntry) => e.messageId),
      LastOptional(group, (e: LogEntry) => e.sizeBytes), LastText(group, (e: LogEntry) => e.queuedAs),
      LastText(group, (e: LogEntry) => e.mailId), LastText(group, (e: LogEntry) => e.subject),
      LastOptional(group, (e: LogEntry) => e.hits), LastText(group, (e: LogEntry) => e.helo),
      LastText(group, (e: LogEntry) => e.amavisOrigin), AnyJunk(group),
      if score.Some? then score.value else 0.0, false, Raws(group))
  }

  predicate NoneAfter(group: seq<LogEntry>, field: LogEntry -> string, i: nat) {
    forall j :: i < j < |group| ==> field(group[j]) == ""
  }

  /** The recursion says what its name says. */
  lemma {:induction false} LastTextIs(group: seq<LogEntry>, field: LogEntry -> string)
    ensures var v := LastText(group, field);
      || (v == "" && forall i :: 0 <= i < |group| ==> field(group[i]) == "")
      || (v != "" && exists i :: 0 <= i < |group| && field(group[i]) == v && NoneAfter(group, field, i))
  {
    if group != [] {
      var last := |group| - 1;
      var init := group[..last];
      LastTextIs(init, field);
      if field(group[last]) != "" {
        assert NoneAfter(group, field, last);
      } else if LastText(init, field) != "" {
        var i :| 0 <= i < |init| && field(init[i]) == LastText(init, field) && NoneAfter(init, field, i);
        assert field(group[i]) == LastText(group, field);
        assert forall j :: i < j < last ==> group[j] == init[j];
        assert NoneAfter(group, field, i);
      }
    }
  }

  predicate NoneSupplied<T(==)>(group: seq<LogEntry>, field: LogEntry -> Option<T>, i: nat) {
    forall j :: i < j < |group| ==> field(group[j]) == None
  }

  lemma {:induction false} LastOptionalIs<T>(group: seq<LogEntry>, field: LogEntry -> Option<T>)
    ensures var v := LastOptional(group, field);
      || (v == None && forall i :: 0 <= i < |group| ==> field(group[i]) == None)
      || (v != None && exists i :: 0 <= i < |group| && field(group[i]) == v && NoneSupplied(group, field, i))
  {
    if group != [] {
      var last := |group| - 1;
      var init := group[..last];
      LastOptionalIs(init, field);
      if field(group[last]) != None {
        assert NoneSupplied(group, field, last);
      } else if LastOptional(init, field) != None {
        var i :| 0 <= i < |init| && field(init[i]) == LastOptional(init, field) && NoneSupplied(init, field, i);
        assert field(group[i]) == LastOptional(group, field);
        assert forall j :: i < j < last ==> group[j] == init[j];
        assert NoneSupplied(group, field, i);
      }
    }
  }

  lemma LastTextOne(e: LogEntry)
    ensures forall field: LogEntry -> string :: LastText([e], field) == field(e)
  {
    forall field: LogEntry -> string ensures LastText([e], field) == field(e) {
      LastTextSnoc([], e, field);
      assert [] + [e] == [e];
    }
  }

  lemma LastOptionalOne<T(!new)>(e: LogEntry)
    ensures forall field: LogEntry -> Option<T> :: LastOptional([e], field) == field(e)
  {
    forall field: LogEntry -> Option<T> ensures LastOptional([e], field) == field(e) {
      LastOptionalSnoc([], e, field);
      assert [] + [e] == [e];
    }
  }

  /** A single entry, field by field. */
  function Alone(e: LogEntry): MailTransaction {
    MailTransaction(e.ts, e.ts, e.queueId, e.host, e.process, e.mailFrom, e.mailTo, e.status, e.relay,
                    e.delay, e.delays, e.dsn, e.messageId, e.sizeBytes, e.queuedAs, e.mailId, e.subject,
                    e.hits, e.helo, e.amavisOrigin, e.isJunk,
                    if e.spamScore.Some? then e.spamScore.value else 0.0, false, [e.raw])
  }

  lemma AbsorbAlone(e: LogEntry)
    ensures Absorb(Opened(e), e) == Alone(e)
  {
    assert [] + [e.raw] == [e.raw];
  }

  lemma MeaningAlone(e: LogEntry)
    ensures Meaning([e]) == Alone(e)
  {
    LastTextOne(e);
    LastOptionalOne<real>(e);
    LastOptionalOne<int>(e);
    RestAlone(e);
  }

  lemma RestAlone(e: LogEntry)
    ensures Raws([e]) == [e.raw] && AnyJunk([e]) == e.isJunk
  {
    assert [e][0] == e;
  }

  lemma MeaningOfOne(e: LogEntry)
    ensures Meaning([e]) == Absorb(Opened(e), e)
  {
    MeaningAlone(e);
    AbsorbAlone(e);
  }

  lemma LastTextSnoc(group: seq<LogEntry>, e: LogEntry, field: LogEntry -> string)
    ensures LastText(group + [e], field) == Text(field(e), LastText(group, field))
  {
    assert (group + [e])[..|group|] == group;
  }

  lemma LastOptionalSnoc<T>(group: seq<LogEntry>, e: LogEntry, field: LogEntry -> Option<T>)
    ensures LastOptional(group + [e], field) == Optional(field(e), LastOptional(group, field))
  {
    assert (group + [e])[..|group|] == group;
  }

  lemma MeaningSnoc(group: seq<LogEntry>, e: LogEntry)
    requires group != []
    ensures Meaning(group + [e]) == Absorb(Meaning(group), e)
  {
    var g := group + [e];
    assert Raws(g) == Raws(group) + [e.raw];
    assert AnyJunk(g) == (AnyJunk(group) || e.isJunk) by {
      if AnyJunk(group) {
        var i :| 0 <= i < |group| && group[i].isJunk;
        assert g[i].isJunk;
      }
      if e.isJunk { assert g[|group|].isJunk; }
    }
    assert g[..|group|] == group;
  }

  // ---- per-queue meaning ----

  datatype Cutting = Cutting(groups: seq<seq<LogEntry>>, rest: seq<LogEntry>)

  /** Cutting a queue's entries just after each terminal status. */
  function Cut(entries: seq<LogEntry>): Cutting {
    if entries == [] then Cutting([], [])
    else
      var e := entries[|entries| - 1];
      var c := Cut(entries[..|entries| - 1]);
      if IsTerminalStatus(e.status) then Cutting(c.groups + [c.rest + [e]], []) else c.(rest := c.rest + [e])
  }

  function Mine(entries: seq<LogEntry>, q: string): seq<LogEntry> {
    if entries == [] then []
    else
      var e := entries[|entries| - 1];
      Mine(entries[..|entries| - 1], q) + if e.queueId == q then [e] else []
  }

  function EmittedOf(out: seq<MailTransaction>, q: string): seq<MailTransaction> {
    if out == [] then []
    else
      var tx := out[|out| - 1];
      EmittedOf(out[..|out| - 1], q) + if tx.queueId == q then [tx] else []
  }

  function Meanings(groups: seq<seq<LogEntry>>): seq<MailTransaction>
    requires forall i :: 0 <= i < |groups| ==> groups[i] != []
  {
    seq(|groups|, i requires 0 <= i < |groups| => Meaning(groups[i]))
  }

  function Takes(entries: seq<LogEntry>, clock: nat -> int): seq<Op> {
    seq(|entries|, i requires 0 <= i < |entries| => Take(entries[i], clock(i)))
  }

  /** The stitcher after `entries`, as far as queue `q` is concerned. */
  predicate QueueMeans(b: Book, mine: seq<LogEntry>, q: string) {
    var c := Cut(mine);
    && (forall i :: 0 <= i < |c.groups| ==> c.groups[i] != [])
    && EmittedOf(b.out, q) == Meanings(c.groups)
    && (q in b.queues <==> c.rest != [])
    && (q in b.queues ==> b.queues[q].transaction == Meaning(c.rest))
  }

  lemma EmittedOfSnoc(out: seq<MailTransaction>, tx: MailTransaction, q: string)
    ensures EmittedOf(out + [tx], q) == EmittedOf(out, q) + if tx.queueId == q then [tx] else []
  {
    assert (out + [tx])[..|out|] == out;
  }

  lemma OtherQueue(b: Book, e: LogEntry, now: int, idleTimeout: int, mine: seq<LogEntry>, q: string)
    requires WellFiled(b.queues) && QueueMeans(b, mine, q) && e.queueId != q
    ensures QueueMeans(Step(b, Take(e, now), idleTimeout), mine, q)
  {
    var applied := ApplyEntry(b.queues, e, now);
    if applied.emitted.Some? {
      assert applied.emitted.value.queueId == e.queueId;
      EmittedOfSnoc(b.out, applied.emitted.value, q);
    }
  }

  /** The transaction memory holds after absorbing `e` is the meaning of the group so far. */
  lemma OwnMerged(b: Book, e: LogEntry, mine: seq<LogEntry>, tx: MailTransaction)
    requires WellFiled(b.queues) && QueueMeans(b, mine, e.queueId) && e.queueId != ""
    requires tx == Absorb(if e.queueId in b.queues then b.queues[e.queueId].transaction else Opened(e), e)
    ensures tx == Meaning(Cut(mine).rest + [e]) && tx.queueId == e.queueId
    ensures IsTerminalStatus(tx.status) <==> IsTerminalStatus(e.status)
  {
    var rest := Cut(mine).rest;
    if e.queueId in b.queues {
      MeaningSnoc(rest, e);
      StatusAfterMerge(b.queues[e.queueId].transaction.status, e.status);
    } else {
      assert rest + [e] == [e];
      MeaningOfOne(e);
      StatusAfterMerge("", e.status);
    }
  }

  lemma OwnQueue(b: Book, e: LogEntry, now: int, idleTimeout: int, mine: seq<LogEntry>, after: Book)
    requires WellFiled(b.queues) && QueueMeans(b, mine, e.queueId) && e.queueId != ""
    requires after == Step(b, Take(e, now), idleTimeout)
    ensures QueueMeans(after, mine + [e], e.queueId)
  {
    var tx := Merged(b, e, now, idleTimeout, after);
    OwnMerged(b, e, mine, tx);
    if IsTerminalStatus(e.status) {
      OwnClosed(b, e, mine, tx, after);
    } else {
      OwnKept(b, e, mine, QueuedTransaction(tx, now), after);
    }
  }

  /** Taking an entry of a queue closes or keeps the merged transaction. */
  lemma Merged(b: Book, e: LogEntry, now: int, idleTimeout: int, after: Book) returns (tx: MailTransaction)
    requires e.queueId != "" && after == Step(b, Take(e, now), idleTimeout)
    ensures tx == Absorb(if e.queueId in b.queues then b.queues[e.queueId].transaction else Opened(e), e)
    ensures after == if IsTerminalStatus(tx.status) then Book(b.queues - {e.queueId}, b.out + [tx])
                     else Book(b.queues[e.queueId := QueuedTransaction(tx, now)], b.out)
  {
    tx := Absorb(if e.queueId in b.queues then b.queues[e.queueId].transaction else Opened(e), e);
  }

  lemma OwnClosed(b: Book, e: LogEntry, mine: seq<LogEntry>, tx: MailTransaction, after: Book)
    requires QueueMeans(b, mine, e.queueId) && IsTerminalStatus(e.status)
    requires tx == Meaning(Cut(mine).rest + [e]) && tx.queueId == e.queueId
    requires after == Book(b.queues - {e.queueId}, b.out + [tx])
    ensures QueueMeans(after, mine + [e], e.queueId)
  {
    CutSnoc(mine, e);
    EmittedOfSnoc(b.out, tx, e.queueId);
    MeaningsSnoc(Cut(mine).groups, Cut(mine).rest + [e]);
  }

  lemma OwnKept(b: Book, e: LogEntry, mine: seq<LogEntry>, queue: QueuedTransaction, after: Book)
    requires QueueMeans(b, mine, e.queueId) && !IsTerminalStatus(e.status)
    requires queue.transaction == Meaning(Cut(mine).rest + [e])
    requires after == Book(b.queues[e.queueId := queue], b.out)
    ensures QueueMeans(after, mine + [e], e.queueId)
  {
    CutSnoc(mine, e);
  }

  lemma CutSnoc(entries: seq<LogEntry>, e: LogEntry)
    ensures var c := Cut(entries);
      Cut(entries + [e]) ==
        if IsTerminalStatus(e.status) then Cutting(c.groups + [c.rest + [e]], []) else c.(rest := c.rest + [e])
  {
    assert (entries + [e])[..|entries|] == entries;
  }

  lemma MeaningsSnoc(groups: seq<seq<LogEntry>>, group: seq<LogEntry>)
    requires group != [] && forall i :: 0 <= i < |groups| ==> groups[i] != []
    ensures Meanings(groups + [group]) == Meanings(groups) + [Meaning(group)]
  {
  }

  /**
    Without eviction, a queue's emitted transactions are the meanings of its own entries cut
    after each terminal status, and its open transaction that of what is left over.
   */
  lemma {:induction false} PerQueueMeaning(entries: seq<LogEntry>, clock: nat -> int, idleTimeout: int, q: string)
    requires q != ""
    ensures WellFiled(Run(Takes(entries, clock), idleTimeout).queues)
    ensures QueueMeans(Run(Takes(entries, clock), idleTimeout), Mine(entries, q), q)
    decreases |entries|
  {
    if entries == [] {
      assert Takes(entries, clock) == [];
      assert Meanings([]) == [];
    } else {
      var n := |entries| - 1;
      var init, e := entries[..n], entries[n];
      PerQueueMeaning(init, clock, idleTimeout, q);
      assert Takes(entries, clock)[..n] == Takes(init, clock);
      var b := Run(Takes(init, clock), idleTimeout);
      ApplyKeepsFiling(b.queues, e, clock(n));
      if e.queueId == q {
        OwnQueue(b, e, clock(n), idleTimeout, Mine(init, q), Run(Takes(entries, clock), idleTimeout));
        assert Mine(entries, q) == Mine(init, q) + [e];
      } else {
        OtherQueue(b, e, clock(n), idleTimeout, Mine(init, q), q);
        assert Mine(entries, q) == Mine(init, q);
      }
    }
  }

  /** Other queues' entries, and the clocks, have no influence on what a queue emits. */
  lemma NonInterference(a: seq<LogEntry>, b: seq<LogEntry>, clockA: nat -> int, clockB: nat -> int,
                        idleTimeout: int, q: string)
    requires q != "" && Mine(a, q) == Mine(b, q)
    ensures EmittedOf(Run(Takes(a, clockA), idleTimeout).out, q) == EmittedOf(Run(Takes(b, clockB), idleTimeout).out, q)
  {
    PerQueueMeaning(a, clockA, idleTimeout, q);
    PerQueueMeaning(b, clockB, idleTimeout, q);
  }
}
