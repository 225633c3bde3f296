/**
  The coordinator loop as imperative code over the stores it owns: the reorder buffer, the
  inner draining loop and the eviction tick; and its place in the state machine.
 */
module Coordinator {
  import opened MailLog
  import opened MailTable
  import opened Pipeline
  import S = Stitcher
  import A = Agreement

  /** The database clock and the process clock at one record. */
  datatype Clock = Clock(at: int, seen: int)

  /** What processing changes: the database, the open queues and the output. */
  datatype Books = Books(db: Database, queues: S.Queues, stdout: seq<MailTransaction>)

  function Enter(b: Books, p: ParsedRecord, c: Clock): Books {
    var db := Persist(b.db, p.entry, p.record.offset, p.record.inode, c.at);
    if p.entry.None? then b.(db := db)
    else
      var applied := S.ApplyEntry(b.queues, p.entry.value, c.seen);
      Books(db, applied.queues, b.stdout + A.Emitted(applied.emitted))
  }

  /** The buffered records `lo..hi` entered in ascending order. */
  function EnterRange(b: Books, pending: map<nat, ParsedRecord>, lo: nat, hi: nat, clock: nat -> Clock): Books
    requires forall k :: lo <= k < hi ==> k in pending
    decreases hi
  {
    if hi <= lo then b
    else Enter(EnterRange(b, pending, lo, hi - 1, clock), pending[hi - 1], clock(hi - 1))
  }

  /** Records `lo..hi` are all buffered, all commit, and take the books from `start` to `end`. */
  predicate EnteredTo(start: Books, buffered: map<nat, ParsedRecord>, commits: nat -> bool, lo: nat, hi: nat,
                      clock: nat -> Clock, end: Books)
  {
    && lo <= hi && (forall k :: lo <= k < hi ==> k in buffered && commits(k))
    && end == EnterRange(start, buffered, lo, hi, clock)
  }

  lemma EnteredNext(start: Books, buffered: map<nat, ParsedRecord>, commits: nat -> bool, lo: nat, hi: nat,
                    clock: nat -> Clock, end: Books)
    requires EnteredTo(start, buffered, commits, lo, hi, clock, end) && hi in buffered
    ensures commits(hi) ==>
      EnteredTo(start, buffered, commits, lo, hi + 1, clock, Enter(end, buffered[hi], clock(hi)))
  {
  }

  /** The buffer with the numbers `lo..hi` taken out. */
  function Without(buffered: map<nat, ParsedRecord>, lo: nat, hi: nat): map<nat, ParsedRecord> {
    map k | k in buffered && !(lo <= k < hi) :: buffered[k]
  }

  lemma WithoutNext(buffered: map<nat, ParsedRecord>, lo: nat, hi: nat)
    requires lo <= hi && hi in Without(buffered, lo, hi)
    ensures hi in buffered && Without(buffered, lo, hi)[hi] == buffered[hi]
    ensures Without(buffered, lo, hi) - {hi} == Without(buffered, lo, hi + 1)
    ensures Without(buffered, lo, hi + 1).Keys == Without(buffered, lo, hi).Keys - {hi}
  {
  }

  lemma WithoutNone(buffered: map<nat, ParsedRecord>, lo: nat)
    ensures Without(buffered, lo, lo) == buffered
  {
  }

  /**
    The loop stops at `hi`: the record of that number has not arrived, or it has and did not
    commit; what had its turn is out of the buffer.
   */
  predicate StoppedAt(buffered: map<nat, ParsedRecord>, commits: nat -> bool, lo: nat, hi: nat, ok: bool,
                      pending: map<nat, ParsedRecord>)
  {
    if ok then hi !in pending && pending == Without(buffered, lo, hi)
    else hi in buffered && !commits(hi) && pending == Without(buffered, lo, hi + 1)
  }

  /** One turn of the loop: what it leaves when the record commits, and when it does not. */
  lemma TurnNext(start: Books, buffered: map<nat, ParsedRecord>, commits: nat -> bool, lo: nat, hi: nat,
                 clock: nat -> Clock, books: Books, pending: map<nat, ParsedRecord>)
    requires EnteredTo(start, buffered, commits, lo, hi, clock, books)
    requires pending == Without(buffered, lo, hi) && hi in pending
    ensures commits(hi) ==> EnteredTo(start, buffered, commits, lo, hi + 1, clock, Enter(books, pending[hi], clock(hi)))
    ensures pending - {hi} == Without(buffered, lo, hi + 1) && (pending - {hi}).Keys < pending.Keys
    ensures !commits(hi) ==> StoppedAt(buffered, commits, lo, hi, false, pending - {hi})
  {
    WithoutNext(buffered, lo, hi);
    EnteredNext(start, buffered, commits, lo, hi, clock, books);
  }

  class Coordinator {
    const store: MailStore
    const stitcher: S.TransactionStitcher
    var pending: map<nat, ParsedRecord>
    var nextSequence: nat
    var stdout: seq<MailTransaction>

    ghost predicate Valid()
      reads this, store, stitcher
    {
      store.Valid() && stitcher.Valid()
    }

    ghost function Value(): Books
      reads this, store, stitcher
    {
      Books(store.Value(), stitcher.queues, stdout)
    }

    constructor (store: MailStore, idleTimeout: int)
      requires store.Valid()
      ensures Valid() && this.store == store && fresh(stitcher) && stitcher.idleTimeout == idleTimeout
      ensures pending == map[] && nextSequence == 0 && Value() == Books(store.Value(), map[], [])
    {
      this.store := store;
      stitcher := new S.TransactionStitcher(idleTimeout);
      pending, nextSequence, stdout := map[], 0, [];
    }

    /** Persist, then stitch; a transaction that does not commit changes nothing. */
    method ProcessParsedRecord(p: ParsedRecord, c: Clock, commits: bool) returns (ok: bool)
      requires Valid()
      modifies this`stdout, store, stitcher
      ensures Valid() && ok == commits
      ensures Value() == if commits then Enter(old(Value()), p, c) else old(Value())
    {
      ok := store.PersistMailLogRecord(p.entry, p.record.offset, p.record.inode, c.at, commits);
      if !ok {
        return;
      }
      if p.entry.Some? {
        var emitted := stitcher.Apply(p.entry, c.seen);
        if emitted.Some? {
          stdout := stdout + [emitted.value];
        }
      }
    }

    /** The body of the inner loop. */
    method ProcessInTurn(c: Clock, commits: bool) returns (ok: bool)
      requires Valid() && nextSequence in pending
      modifies this, store, stitcher
      ensures Valid() && ok == commits && pending == old(pending) - {old(nextSequence)}
      ensures nextSequence == old(nextSequence) + (if ok then 1 else 0)
      ensures Value() == if ok then Enter(old(Value()), old(pending)[old(nextSequence)], c) else old(Value())
    {
      var next := pending[nextSequence];
      pending := pending - {nextSequence};
      ok := ProcessParsedRecord(next, c, commits);
      if ok {
        nextSequence := nextSequence + 1;
      }
    }

    /**
      A parsed record arrives: it is buffered, and then every record that is next in turn is
      processed.  On success the run of consecutive numbers is processed in order and to its
      end; when record `k` does not commit, exactly the records before it are.
     */
    method Receive(parsed: ParsedRecord, clock: nat -> Clock, commits: nat -> bool) returns (ok: bool)
      requires Valid()
      modifies this, store, stitcher
      ensures Valid()
      ensures var buffered := old(pending)[parsed.record.sequence := parsed];
        && EnteredTo(old(Value()), buffered, commits, old(nextSequence), nextSequence, clock, Value())
        && StoppedAt(buffered, commits, old(nextSequence), nextSequence, ok, pending)
    {
      pending := pending[parsed.record.sequence := parsed];
      ok := Drain(clock, commits);
    }

    /** The inner loop, from a buffer to which a record may have been added. */
    method Drain(clock: nat -> Clock, commits: nat -> bool) returns (ok: bool)
      requires Valid()
      modifies this, store, stitcher
      ensures Valid() && EnteredTo(old(Value()), old(pending), commits, old(nextSequence), nextSequence, clock, Value())
      ensures StoppedAt(old(pending), commits, old(nextSequence), nextSequence, ok, pending)
    {
      ghost var buffered, first, books := pending, nextSequence, Value();
      WithoutNone(buffered, first);
      while nextSequence in pending
        invariant Valid() && pending == Without(buffered, first, nextSequence)
        invariant EnteredTo(books, buffered, commits, first, nextSequence, clock, Value())
        decreases pending.Keys
      {
        TurnNext(books, buffered, commits, first, nextSequence, clock, Value(), pending);
        var done := ProcessInTurn(clock(nextSequence), commits(nextSequence));
        if !done {
          return false;
        }
      }
      return true;
    }

    /** The eviction tick: memory first, then the table. */
    method Evict(now: int, at: int) returns (expired: seq<MailTransaction>)
      requires Valid()
      modifies this`stdout, store, stitcher
      ensures Valid() && S.ListsExpired(old(stitcher.queues), now, stitcher.idleTimeout, expired)
      ensures Value() == Books(
        old(store.Value()).(rows := MailTable.Evict(old(store.rows), now - stitcher.idleTimeout, at)),
        old(stitcher.queues) - S.ExpiredIds(old(stitcher.queues), now, stitcher.idleTimeout),
        old(stdout) + expired)
    {
      expired := stitcher.EvictExpired(now);
      stdout := stdout + expired;
      store.EvictExpiredTransactions(now - stitcher.idleTimeout, at);
    }
  }

  // ---- the same loop in the state machine ----

  function BooksOf(s: State): Books
    requires s.process.Up?
  {
    Books(s.db, s.process.session.queues, s.process.session.stdout)
  }

  /** The records of the buffer of `s` before the next one of `s'` have been entered, in order. */
  predicate DrainedBy(s: State, clock: nat -> Clock, s': State) {
    && s.process.Up? && s'.process.Up? && s'.process.session.draining
    && BufferTo(BooksOf(s), s.process.session.pending, s.process.session.nextSequence, clock,
                BooksOf(s'), s'.process.session.pending, s'.process.session.nextSequence)
  }

  /** From books, buffer and number to books, buffer and number. */
  predicate BufferTo(b: Books, pending: map<nat, ParsedRecord>, lo: nat, clock: nat -> Clock,
                     b': Books, pending': map<nat, ParsedRecord>, hi: nat)
  {
    && lo <= hi && (forall k :: lo <= k < hi ==> k in pending)
    && pending' == Without(pending, lo, hi)
    && b' == EnterRange(b, pending, lo, hi, clock)
  }

  predicate IsStep(cfg: Config, s: State, step: Step, s': State) {
    Enabled(cfg, s, step) && s' == Do(cfg, s, step)
  }

  /** One machine step, told by what it does to the books and the buffer. */
  predicate OneEntered(s: State, c: Clock, s': State) {
    && s.process.Up? && ProcessEnabled(s.process.session) && s'.process.Up? && s'.process.session.draining
    && s'.process.session.nextSequence == s.process.session.nextSequence + 1
    && s'.process.session.pending == s.process.session.pending - {s.process.session.nextSequence}
    && BooksOf(s') == Enter(BooksOf(s), s.process.session.pending[s.process.session.nextSequence], c)
  }

  lemma MachineProcess(cfg: Config, s: State, c: Clock, s': State)
    requires IsStep(cfg, s, ProcessNext(c.at, c.seen), s')
    ensures OneEntered(s, c, s')
  {
  }

  lemma BufferNext(b: Books, pending: map<nat, ParsedRecord>, lo: nat, clock: nat -> Clock,
                   b': Books, pending': map<nat, ParsedRecord>, hi: nat)
    requires BufferTo(b, pending, lo, clock, b', pending', hi) && hi in pending'
    ensures BufferTo(b, pending, lo, clock, Enter(b', pending'[hi], clock(hi)), pending' - {hi}, hi + 1)
  {
    WithoutNext(pending, lo, hi);
  }

  lemma DrainedNone(s: State, clock: nat -> Clock)
    requires s.process.Up? && s.process.session.draining
    ensures DrainedBy(s, clock, s)
  {
    WithoutNone(s.process.session.pending, s.process.session.nextSequence);
  }

  lemma DrainedNext(s: State, clock: nat -> Clock, mid: State, s': State)
    requires DrainedBy(s, clock, mid)
    requires OneEntered(mid, clock(mid.process.session.nextSequence), s')
    ensures DrainedBy(s, clock, s')
  {
    BufferNext(BooksOf(s), s.process.session.pending, s.process.session.nextSequence, clock,
               BooksOf(mid), mid.process.session.pending, mid.process.session.nextSequence);
  }

  predicate EntersOneByOne(trace: seq<State>, clock: nat -> Clock) {
    forall i :: 0 <= i < |trace| - 1 ==>
      trace[i].process.Up? && OneEntered(trace[i], clock(trace[i].process.session.nextSequence), trace[i + 1])
  }

  lemma {:induction false} EntersInOrder(trace: seq<State>, n: nat, clock: nat -> Clock)
    requires n < |trace| && EntersOneByOne(trace, clock)
    requires trace[0].process.Up? && trace[0].process.session.draining
    ensures DrainedBy(trace[0], clock, trace[n])
    ensures trace[n].process.session.nextSequence == trace[0].process.session.nextSequence + n
  {
    if n == 0 {
      DrainedNone(trace[0], clock);
    } else {
      EntersInOrder(trace, n - 1, clock);
      DrainedNext(trace[0], clock, trace[n - 1], trace[n]);
    }
  }

  /** Consecutive machine states, each processing the next record in turn. */
  predicate DrainTrace(cfg: Config, trace: seq<State>, clock: nat -> Clock) {
    forall i :: 0 <= i < |trace| - 1 ==>
      && trace[i].process.Up?
      && var c := clock(trace[i].process.session.nextSequence);
         IsStep(cfg, trace[i], ProcessNext(c.at, c.seen), trace[i + 1])
  }

  /**
    However many records the machine processes in a row, it enters the same records in the
    same order as the method: its database, queues and output are then the same.
   */
  lemma DrainRefines(cfg: Config, trace: seq<State>, clock: nat -> Clock)
    requires trace != [] && DrainTrace(cfg, trace, clock)
    requires trace[0].process.Up? && trace[0].process.session.draining
    ensures var last := trace[|trace| - 1];
      && DrainedBy(trace[0], clock, last)
      && last.process.session.nextSequence == trace[0].process.session.nextSequence + |trace| - 1
  {
    forall i | 0 <= i < |trace| - 1
      ensures trace[i].process.Up? && OneEntered(trace[i], clock(trace[i].process.session.nextSequence), trace[i + 1])
    {
      MachineProcess(cfg, trace[i], clock(trace[i].process.session.nextSequence), trace[i + 1]);
    }
    EntersInOrder(trace, |trace| - 1, clock);
  }
}
