/**
  The ingestion pipeline as a labelled state machine: the files and the path, the database,
  and one process made of a follower, a pool of parsing workers and a coordinator joined by
  bounded channels.  Goroutines interleave step by step; a database transaction is one step;
  a crash (any error return, cancellation or kill) may happen between any two steps.
 */
module Pipeline {
  import opened MailLog
  import opened Framing
  import opened LogFollower
  import opened MailTable
  import S = Stitcher
  import A = Agreement

  const CAPACITY: nat := 1024

  datatype ParsedRecord = ParsedRecord(record: LineRecord, entry: Option<LogEntry>)

  /** Parsing a line may depend on the clock, because legacy timestamps carry no year. */
  datatype Config = Config(
    parse: (string, int) -> Option<LogEntry>,
    workers: nat,
    idleTimeout: int,
    drainTimeout: int)

  /** What the configuration check demands, and what the parser guarantees of an entry's raw text. */
  ghost predicate ValidConfig(cfg: Config) {
    && cfg.workers > 0 && cfg.idleTimeout > 0 && cfg.drainTimeout > 0
    && forall text, now :: '\n' !in text && cfg.parse(text, now).Some? ==> cfg.parse(text, now).value.HasLineText()
  }

  ghost predicate ParsedFrom(cfg: Config, text: string, entry: Option<LogEntry>) {
    exists now :: cfg.parse(text, now) == entry
  }

  datatype Worker = Waiting | Holding(record: LineRecord) | Delivering(parsed: ParsedRecord)

  /**
    One run of the ingestor.  `sending` is the record the follower is blocked on; `draining`
    is set while the coordinator is in its inner loop.  `emitted`, `trail` and `startRows`
    are history: every record read, every operation on the stitcher, and the table at the start.
   */
  datatype Session = Session(
    follower: Follower,
    sending: Option<LineRecord>,
    records: seq<LineRecord>,
    workers: seq<Worker>,
    parsed: seq<ParsedRecord>,
    pending: map<nat, ParsedRecord>,
    nextSequence: nat,
    draining: bool,
    queues: S.Queues,
    stdout: seq<MailTransaction>,
    emitted: seq<LineRecord>,
    trail: seq<A.Op>,
    startRows: seq<Row>)

  datatype Process = Down | Up(session: Session)

  /** A line of a file. */
  datatype Source = Source(inode: int, line: Line)

  function SourceOf(r: LineRecord): Source { Source(r.inode, r.AsLine()) }

  datatype DbEvent =
    | Committed(source: Source, entry: Option<LogEntry>, at: int)
    | Swept(cutoff: int, at: int)

  /** `seen` are the inodes the path has ever named; `history` is what the database executed. */
  datatype State = State(
    files: map<int, string>,
    path: Option<int>,
    seen: set<int>,
    db: Database,
    history: seq<DbEvent>,
    process: Process)

  // ---- the sequential reference ----

  function Execute(db: Database, event: DbEvent): Database {
    match event
    case Committed(source, entry, at) => Persist(db, entry, source.line.end, source.inode, at)
    case Swept(cutoff, at) => db.(rows := Evict(db.rows, cutoff, at))
  }

  /** Running the events one after another on an empty database. */
  function Replay(events: seq<DbEvent>): Database {
    if events == [] then EMPTY else Execute(Replay(events[..|events| - 1]), events[|events| - 1])
  }

  /** The lines an event sequence commits, in order. */
  function SourcesOf(events: seq<DbEvent>): seq<Source> {
    if events == [] then []
    else
      var event := events[|events| - 1];
      SourcesOf(events[..|events| - 1]) + if event.Committed? then [event.source] else []
  }

  // ---- initial states ----

  predicate Init(s: State) {
    && s.db == EMPTY && s.history == [] && s.process == Down
    && (match s.path
        case None => s.seen == {}
        case Some(p) => s.seen == {p} && p in s.files)
  }

  function NewSession(cfg: Config, s: State): Session
    requires s.path.Some? && s.path.value in s.files
  {
    var inode := s.path.value;
    Session(Opened(inode, ResumeOffset(s.db.checkpoint, inode, |s.files[inode]|), 0),
            None, [], seq(cfg.workers, _ => Waiting), [], map[], 0, false, map[], [], [], [], s.db.rows)
  }

  // ---- steps inside a session ----

  datatype Local =
    | Send
    | Take(worker: nat)
    | Parse(worker: nat, now: int)
    | Deliver(worker: nat)
    | Receive
    | Drained

  predicate LocalEnabled(ss: Session, l: Local) {
    match l
    case Send => ss.sending.Some? && |ss.records| < CAPACITY
    case Take(w) => w < |ss.workers| && ss.workers[w].Waiting? && ss.records != []
    case Parse(w, _) => w < |ss.workers| && ss.workers[w].Holding?
    case Deliver(w) => w < |ss.workers| && ss.workers[w].Delivering? && |ss.parsed| < CAPACITY
    case Receive => !ss.draining && ss.parsed != []
    case Drained => ss.draining && ss.nextSequence !in ss.pending
  }

  function LocalStep(cfg: Config, ss: Session, l: Local): Session
    requires LocalEnabled(ss, l)
  {
    match l
    case Send => ss.(sending := None, records := ss.records + [ss.sending.value])
    case Take(w) => ss.(records := ss.records[1..], workers := ss.workers[w := Holding(ss.records[0])])
    case Parse(w, now) =>
      var r := ss.workers[w].record;
      ss.(workers := ss.workers[w := Delivering(ParsedRecord(r, cfg.parse(r.text, now)))])
    case Deliver(w) => ss.(parsed := ss.parsed + [ss.workers[w].parsed], workers := ss.workers[w := Waiting])
    case Receive =>
      var p := ss.parsed[0];
      ss.(parsed := ss.parsed[1..], pending := ss.pending[p.record.sequence := p], draining := true)
    case Drained => ss.(draining := false)
  }

  predicate ProcessEnabled(ss: Session) {
    ss.draining && ss.nextSequence in ss.pending
  }

  /** The coordinator's memory after processing the next record; the database commits in the same step. */
  function Processed(ss: Session, at: int, seen: int): Session
    requires ProcessEnabled(ss)
  {
    var p := ss.pending[ss.nextSequence];
    var ss' := ss.(pending := ss.pending - {ss.nextSequence}, nextSequence := ss.nextSequence + 1);
    if p.entry.None? then ss'
    else
      var applied := S.ApplyEntry(ss.queues, p.entry.value, seen);
      ss'.(queues := applied.queues, stdout := ss.stdout + A.Emitted(applied.emitted),
           trail := ss.trail + [A.Feed(p.entry.value, at, seen)])
  }

  function Ticked(cfg: Config, ss: Session, now: int, at: int, expired: seq<MailTransaction>): Session {
    ss.(queues := ss.queues - S.ExpiredIds(ss.queues, now, cfg.idleTimeout), stdout := ss.stdout + expired,
        trail := ss.trail + [A.Tick(now, at, expired)])
  }

  function AfterRead(ss: Session, content: string): Session
    requires LineAvailable(ss.follower, content)
  {
    var r := NextRecord(ss.follower, content);
    ss.(follower := AfterRecord(ss.follower, content), sending := Some(r), emitted := ss.emitted + [r])
  }

  // ---- steps of the whole system ----

  datatype Step =
    | AppendTo(inode: int, more: string)
    | Rotate(replacement: Option<int>, content: string)
    | Start
    | Crash
    | Internal(local: Local)
    | ProcessNext(at: int, seen: int)
    | EvictTick(now: int, at: int, expired: seq<MailTransaction>)
    | ReadLine
    | ReadEof
    | InspectPath(started: int, now: int)
    | Reopen

  /** The follower is at work on its file and not blocked on a send. */
  predicate CanRead(s: State) {
    && s.process.Up? && s.process.session.sending.None? && s.process.session.follower.phase == Reading
    && s.process.session.follower.inode in s.files
  }

  function Content(s: State): string
    requires s.process.Up? && s.process.session.follower.inode in s.files
  {
    s.files[s.process.session.follower.inode]
  }

  /**
    Files only grow, and the path never names an inode again once it has been replaced:
    these are the assumptions on the environment.
   */
  predicate Enabled(cfg: Config, s: State, step: Step) {
    match step
    case AppendTo(inode, _) => inode in s.files
    case Rotate(r, _) => r.Some? ==> r.value !in s.seen
    case Start => s.process.Down? && s.path.Some? && s.path.value in s.files
    case Crash => s.process.Up?
    case Internal(l) => s.process.Up? && LocalEnabled(s.process.session, l)
    case ProcessNext(_, _) => s.process.Up? && ProcessEnabled(s.process.session)
    case EvictTick(now, _, expired) =>
      && s.process.Up? && !s.process.session.draining
      && S.ListsExpired(s.process.session.queues, now, cfg.idleTimeout, expired)
    case ReadLine => CanRead(s) && LineAvailable(s.process.session.follower, Content(s))
    case ReadEof => CanRead(s) && !LineAvailable(s.process.session.follower, Content(s))
    case InspectPath(_, _) =>
      && s.process.Up? && s.process.session.follower.phase == AtEof
      && s.process.session.follower.inode in s.files
    case Reopen =>
      && s.process.Up? && s.process.session.follower.phase == Leaving
      && s.path.Some? && s.path.value in s.files
  }

  function Do(cfg: Config, s: State, step: Step): State
    requires Enabled(cfg, s, step)
  {
    match step
    case AppendTo(inode, more) => s.(files := s.files[inode := s.files[inode] + more])
    case Rotate(r, content) =>
      if r.None? then s.(path := None)
      else s.(path := r, seen := s.seen + {r.value}, files := s.files[r.value := content])
    case Start => s.(process := Up(NewSession(cfg, s)))
    case Crash => s.(process := Down)
    case Internal(l) => s.(process := Up(LocalStep(cfg, s.process.session, l)))
    case ProcessNext(at, seen) =>
      var ss := s.process.session;
      var p := ss.pending[ss.nextSequence];
      s.(db := Persist(s.db, p.entry, p.record.offset, p.record.inode, at),
         history := s.history + [Committed(SourceOf(p.record), p.entry, at)],
         process := Up(Processed(ss, at, seen)))
    case EvictTick(now, at, expired) =>
      s.(db := s.db.(rows := Evict(s.db.rows, now - cfg.idleTimeout, at)),
         history := s.history + [Swept(now - cfg.idleTimeout, at)],
         process := Up(Ticked(cfg, s.process.session, now, at, expired)))
    case ReadLine => s.(process := Up(AfterRead(s.process.session, Content(s))))
    case ReadEof =>
      var ss := s.process.session;
      s.(process := Up(ss.(follower := AfterEof(ss.follower, Content(s)))))
    case InspectPath(started, now) =>
      var ss := s.process.session;
      s.(process := Up(ss.(follower :=
        AfterPoll(ss.follower, s.path, |Content(s)|, started, now, cfg.drainTimeout))))
    case Reopen =>
      var ss := s.process.session;
      s.(process := Up(ss.(follower := Opened(s.path.value, 0, ss.follower.sequence))))
  }

  /** Every step taken was enabled. */
  predicate LegalRun(cfg: Config, s: State, steps: seq<Step>)
    decreases |steps|, 0
  {
    steps == [] ||
    (LegalRun(cfg, s, steps[..|steps| - 1]) &&
     Enabled(cfg, RunSteps(cfg, s, steps[..|steps| - 1]), steps[|steps| - 1]))
  }

  /** The state a legal run ends in. */
  function RunSteps(cfg: Config, s: State, steps: seq<Step>): State
    requires LegalRun(cfg, s, steps)
    decreases |steps|, 1
  {
    if steps == [] then s
    else Do(cfg, RunSteps(cfg, s, steps[..|steps| - 1]), steps[|steps| - 1])
  }

  lemma {:induction false} PrefixLegal(cfg: Config, s: State, steps: seq<Step>, k: nat)
    requires LegalRun(cfg, s, steps) && k <= |steps|
    ensures LegalRun(cfg, s, steps[..k])
    decreases |steps|
  {
    if k == |steps| {
      assert steps[..k] == steps;
    } else {
      var init := steps[..|steps| - 1];
      PrefixLegal(cfg, s, init, k);
      assert init[..k] == steps[..k];
    }
  }

  /** The state after the first `k` steps of a legal run. */
  function StateAt(cfg: Config, s: State, steps: seq<Step>, k: nat): State
    requires LegalRun(cfg, s, steps) && k <= |steps|
  {
    PrefixLegal(cfg, s, steps, k);
    RunSteps(cfg, s, steps[..k])
  }

  lemma StateAtShorter(cfg: Config, s: State, steps: seq<Step>, n: nat, k: nat)
    requires LegalRun(cfg, s, steps) && k <= n <= |steps| && LegalRun(cfg, s, steps[..n])
    ensures StateAt(cfg, s, steps[..n], k) == StateAt(cfg, s, steps, k)
  {
    assert steps[..n][..k] == steps[..k];
  }
}
