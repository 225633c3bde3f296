/**
  The pipeline cannot get stuck: while a record is on its way some pipeline step is enabled,
  every such step lowers a measure, and when none is left everything read has been committed.
 */
module Progress {
  import opened Framing
  import opened LogFollower
  import opened Pipeline
  import opened Placement
  import opened ExactlyOnce
  import opened IngestTheorems

  /** A step of the follower's send, a worker or the coordinator. */
  datatype Work = Move(local: Local) | ProcessOne(at: int, seen: int)

  predicate CanWork(ss: Session, w: Work) {
    match w
    case Move(l) => LocalEnabled(ss, l)
    case ProcessOne(_, _) => ProcessEnabled(ss)
  }

  function DoWork(cfg: Config, ss: Session, w: Work): Session
    requires CanWork(ss, w)
  {
    match w
    case Move(l) => LocalStep(cfg, ss, l)
    case ProcessOne(at, seen) => Processed(ss, at, seen)
  }

  function HeldWeight(w: Worker): nat {
    match w
    case Waiting => 0
    case Holding(_) => 5
    case Delivering(_) => 4
  }

  function WorkerWeight(ws: seq<Worker>): nat {
    if ws == [] then 0 else HeldWeight(ws[0]) + WorkerWeight(ws[1..])
  }

  /** Records in flight, each weighted by the stages it still has before it. */
  function Weight(ss: Session): nat {
    (if ss.sending.Some? then 7 else 0) + 6 * |ss.records| + WorkerWeight(ss.workers)
    + 3 * |ss.parsed| + |ss.pending| + (if ss.draining then 1 else 0)
  }

  lemma {:induction false} WorkerWeightUpdate(ws: seq<Worker>, i: nat, w: Worker)
    requires i < |ws|
    ensures WorkerWeight(ws[i := w]) + HeldWeight(ws[i]) == WorkerWeight(ws) + HeldWeight(w)
  {
    if i == 0 {
      assert ws[i := w][1..] == ws[1..];
    } else {
      WorkerWeightUpdate(ws[1..], i - 1, w);
      assert ws[i := w][1..] == ws[1..][i - 1 := w];
    }
  }

  lemma PendingAdd(pending: map<nat, ParsedRecord>, k: nat, p: ParsedRecord)
    ensures |pending[k := p]| <= |pending| + 1
  {
    assert pending[k := p].Keys == pending.Keys + {k};
  }

  lemma PendingRemove(pending: map<nat, ParsedRecord>, k: nat)
    requires k in pending
    ensures |pending - {k}| == |pending| - 1
  {
    assert (pending - {k}).Keys == pending.Keys - {k};
  }

  /** Every pipeline step lowers the weight. */
  lemma WorkLowersWeight(cfg: Config, ss: Session, w: Work)
    requires CanWork(ss, w)
    ensures Weight(DoWork(cfg, ss, w)) < Weight(ss)
  {
    match w
    case ProcessOne(at, seen) => PendingRemove(ss.pending, ss.nextSequence);
    case Move(l) =>
      match l
      case Send =>
      case Take(i) => WorkerWeightUpdate(ss.workers, i, Holding(ss.records[0]));
      case Parse(i, now) => WorkerWeightUpdate(ss.workers, i, LocalStep(cfg, ss, l).workers[i]);
      case Deliver(i) => WorkerWeightUpdate(ss.workers, i, Waiting);
      case Receive => PendingAdd(ss.pending, ss.parsed[0].record.sequence, ss.parsed[0]);
      case Drained =>
  }

  // ---- something can always be done ----

  lemma {:induction false} AllWaiting(ws: seq<Worker>)
    requires forall i :: 0 <= i < |ws| ==> ws[i].Waiting?
    ensures WorkerNums(ws) == multiset{} && WorkerWeight(ws) == 0
  {
    if ws != [] {
      AllWaiting(ws[1..]);
    }
  }

  /** With no step enabled, nothing is anywhere but in `pending`. */
  lemma QuietPlaces(cfg: Config, ss: Session)
    requires Sized(cfg, ss) && cfg.workers > 0
    requires forall w :: !CanWork(ss, w)
    ensures ss.sending.None? && ss.records == [] && ss.parsed == [] && !ss.draining
    ensures WorkerNums(ss.workers) == multiset{} && WorkerWeight(ss.workers) == 0
  {
    assert !CanWork(ss, Move(Drained)) && !CanWork(ss, ProcessOne(0, 0)) && !CanWork(ss, Move(Receive));
    assert !ss.draining;
    assert ss.parsed == [];
    forall i | 0 <= i < |ss.workers| ensures ss.workers[i].Waiting? {
      assert !CanWork(ss, Move(Parse(i, 0)));
      assert !CanWork(ss, Move(Deliver(i)));
    }
    AllWaiting(ss.workers);
    assert !CanWork(ss, Move(Take(0)));
    assert ss.records == [];
    assert !CanWork(ss, Move(Send));
  }

  /** If the waiting numbers are a range and its first is not among them, there are none. */
  lemma NoneAwaited(waiting: set<nat>, lo: nat, hi: nat)
    requires multiset(waiting) == multiset(Range(lo, hi)) && lo !in waiting
    ensures hi <= lo && waiting == {}
  {
    assert forall k :: k in multiset(waiting) <==> k in waiting;
    assert forall k :: k in multiset(Range(lo, hi)) <==> k in Range(lo, hi);
    assert lo !in Range(lo, hi);
    assert Range(lo, hi) == {};
  }

  /** A session in which no pipeline step is enabled has processed everything that was read. */
  lemma QuietMeansDone(cfg: Config, ss: Session)
    requires SessionInv(cfg, ss) && cfg.workers > 0
    requires forall w :: !CanWork(ss, w)
    ensures ss.nextSequence == |ss.emitted| && ss.pending == map[] && Weight(ss) == 0
  {
    QuietPlaces(cfg, ss);
    assert RecordNums([]) == [] && ParsedNums([]) == [];
    assert InFlight(ss) == multiset(ss.pending.Keys);
    NoneAwaited(ss.pending.Keys, ss.nextSequence, |ss.emitted|);
  }

  lemma WaitingEnables(cfg: Config, ss: Session)
    requires SessionInv(cfg, ss) && cfg.workers > 0 && ss.nextSequence < |ss.emitted|
    ensures exists w :: CanWork(ss, w)
  {
    if forall w :: !CanWork(ss, w) {
      QuietMeansDone(cfg, ss);
      assert false;
    }
  }

  /** Neither channel overflows, and a send or a delivery waits exactly while its channel is full. */
  predicate Bounded(ss: Session, w: nat) {
    && |ss.records| <= 1024 && |ss.parsed| <= 1024
    && (ss.sending.Some? ==> (CanWork(ss, Move(Send)) <==> |ss.records| < 1024))
    && (w < |ss.workers| && ss.workers[w].Delivering? ==> (CanWork(ss, Move(Deliver(w))) <==> |ss.parsed| < 1024))
  }

  lemma SizedIsBounded(cfg: Config, ss: Session, w: nat)
    requires Sized(cfg, ss)
    ensures Bounded(ss, w)
  {
  }

  /** In every state of every run the channels are bounded by 1024 records. */
  lemma Backpressure(cfg: Config, s0: State, steps: seq<Step>, w: nat)
    requires Init(s0) && LegalRun(cfg, s0, steps) && RunSteps(cfg, s0, steps).process.Up?
    ensures Bounded(RunSteps(cfg, s0, steps).process.session, w)
  {
    RunInv(cfg, s0, steps);
    SizedIsBounded(cfg, RunSteps(cfg, s0, steps).process.session, w);
  }

  /** In every state of every run: while a record is on its way, a pipeline step is enabled. */
  lemma AlwaysEnabled(cfg: Config, s0: State, steps: seq<Step>)
    requires Init(s0) && LegalRun(cfg, s0, steps) && cfg.workers > 0
    requires var s := RunSteps(cfg, s0, steps);
      s.process.Up? && s.process.session.nextSequence < |s.process.session.emitted|
    ensures exists w :: CanWork(RunSteps(cfg, s0, steps).process.session, w)
  {
    RunInv(cfg, s0, steps);
    WaitingEnables(cfg, RunSteps(cfg, s0, steps).process.session);
  }

  // ---- whole stretches of pipeline work ----

  predicate LegalWork(cfg: Config, ss: Session, ws: seq<Work>)
    decreases |ws|
  {
    ws == [] || (CanWork(ss, ws[0]) && LegalWork(cfg, DoWork(cfg, ss, ws[0]), ws[1..]))
  }

  function WorkAll(cfg: Config, ss: Session, ws: seq<Work>): Session
    requires LegalWork(cfg, ss, ws)
    decreases |ws|
  {
    if ws == [] then ss else WorkAll(cfg, DoWork(cfg, ss, ws[0]), ws[1..])
  }

  lemma WorkKeepsInv(cfg: Config, ss: Session, w: Work)
    requires SessionInv(cfg, ss) && CanWork(ss, w)
    ensures SessionInv(cfg, DoWork(cfg, ss, w)) && DoWork(cfg, ss, w).emitted == ss.emitted
  {
    match w
    case Move(l) => LocalSession(cfg, ss, l);
    case ProcessOne(at, seen) => ProcessSession(cfg, ss, at, seen);
  }

  /**
    Left to itself the pipeline works for at most `Weight` steps, in whatever order they are
    chosen; and if it stops because no step is left, all that was read is processed.
   */
  lemma {:induction false} WorkTerminates(cfg: Config, ss: Session, ws: seq<Work>)
    requires SessionInv(cfg, ss) && cfg.workers > 0 && LegalWork(cfg, ss, ws)
    ensures |ws| + Weight(WorkAll(cfg, ss, ws)) <= Weight(ss)
    ensures WorkAll(cfg, ss, ws).emitted == ss.emitted
    ensures (forall w :: !CanWork(WorkAll(cfg, ss, ws), w)) ==>
      WorkAll(cfg, ss, ws).nextSequence == |ss.emitted| && WorkAll(cfg, ss, ws).pending == map[]
    decreases |ws|
  {
    if ws == [] {
      if forall w :: !CanWork(ss, w) {
        QuietMeansDone(cfg, ss);
      }
    } else {
      WorkKeepsInv(cfg, ss, ws[0]);
      WorkLowersWeight(cfg, ss, ws[0]);
      WorkTerminates(cfg, DoWork(cfg, ss, ws[0]), ws[1..]);
    }
  }

  /**
    Caught up: once the follower has met the end of its file, in state `t`, and the pipeline
    has come to rest, every complete line the file held in `t` is committed.
   */
  lemma CaughtUp(cfg: Config, s0: State, steps: seq<Step>) returns (k: nat, t: State)
    requires Init(s0) && LegalRun(cfg, s0, steps) && cfg.workers > 0
    requires var s := RunSteps(cfg, s0, steps);
      s.process.Up? && s.process.session.follower.phase == AtEof && (forall w :: !CanWork(s.process.session, w))
    ensures k < |steps| && steps[k] == ReadEof && t == StateAt(cfg, s0, steps, k)
    ensures var s := RunSteps(cfg, s0, steps);
      && MetEnd(t, s)
      && LinesOf(SourcesOf(s.history), s.process.session.follower.inode) == Lines(Content(t), 0)
  {
    var s := RunSteps(cfg, s0, steps);
    RunInv(cfg, s0, steps);
    k, t := LastEndOfFile(cfg, s0, steps, s);
    ReadToEnd(cfg, t, s);
    QuietMeansDone(cfg, s.process.session);
    assert Stream(s) == SourcesOf(s.history);
  }
}
