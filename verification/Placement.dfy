/**
  Where the records of a session are.  Every record the follower has read sits in exactly
  one place until it is processed, and records are processed in the order they were read.
 */
module Placement {
  import opened MailLog
  import opened LogFollower
  import opened Pipeline

  function RecordNums(rs: seq<LineRecord>): seq<nat> {
    seq(|rs|, i requires 0 <= i < |rs| => rs[i].sequence)
  }

  function ParsedNums(ps: seq<ParsedRecord>): seq<nat> {
    seq(|ps|, i requires 0 <= i < |ps| => ps[i].record.sequence)
  }

  function HeldNum(w: Worker): multiset<nat> {
    match w
    case Waiting => multiset{}
    case Holding(r) => multiset{r.sequence}
    case Delivering(p) => multiset{p.record.sequence}
  }

  function WorkerNums(ws: seq<Worker>): multiset<nat> {
    if ws == [] then multiset{} else HeldNum(ws[0]) + WorkerNums(ws[1..])
  }

  function SendingNum(r: Option<LineRecord>): multiset<nat> {
    if r.None? then multiset{} else multiset{r.value.sequence}
  }

  /** The numbers of all records between the follower and the database, with multiplicity. */
  function InFlight(ss: Session): multiset<nat> {
    Together(SendingNum(ss.sending), multiset(RecordNums(ss.records)), WorkerNums(ss.workers),
             multiset(ParsedNums(ss.parsed)), multiset(ss.pending.Keys))
  }

  function Together(sending: multiset<nat>, records: multiset<nat>, workers: multiset<nat>,
                    parsed: multiset<nat>, pending: multiset<nat>): multiset<nat>
  {
    sending + records + workers + parsed + pending
  }

  /** The records read and not yet processed. */
  function Awaited(ss: Session): set<nat> {
    Range(ss.nextSequence, |ss.emitted|)
  }

  function Range(lo: nat, hi: nat): (r: set<nat>)
    ensures forall k :: k in r <==> lo <= k < hi
    decreases hi
  {
    if hi <= lo then {} else Range(lo, hi - 1) + {hi - 1}
  }

  /** Exactly one place for each awaited record, and nothing else anywhere. */
  predicate Placed(ss: Session) {
    InFlight(ss) == multiset(Awaited(ss))
  }

  predicate Numbered(ss: Session) {
    && ss.follower.sequence == |ss.emitted| && ss.nextSequence <= |ss.emitted|
    && forall k :: 0 <= k < |ss.emitted| ==> ss.emitted[k].sequence == k
  }

  predicate Genuine(emitted: seq<LineRecord>, r: LineRecord) {
    r.sequence < |emitted| && emitted[r.sequence] == r
  }

  ghost predicate GenuineParsed(cfg: Config, emitted: seq<LineRecord>, p: ParsedRecord) {
    Genuine(emitted, p.record) && ParsedFrom(cfg, p.record.text, p.entry)
  }

  ghost predicate GenuineWorker(cfg: Config, emitted: seq<LineRecord>, w: Worker) {
    match w
    case Waiting => true
    case Holding(r) => Genuine(emitted, r)
    case Delivering(p) => GenuineParsed(cfg, emitted, p)
  }

  /** Whatever is in flight is a record that was read, parsed from its own text. */
  ghost predicate AllGenuine(cfg: Config, ss: Session) {
    && (ss.sending.Some? ==> Genuine(ss.emitted, ss.sending.value))
    && (forall i :: 0 <= i < |ss.records| ==> Genuine(ss.emitted, ss.records[i]))
    && (forall i :: 0 <= i < |ss.workers| ==> GenuineWorker(cfg, ss.emitted, ss.workers[i]))
    && (forall i :: 0 <= i < |ss.parsed| ==> GenuineParsed(cfg, ss.emitted, ss.parsed[i]))
    && (forall k :: k in ss.pending ==>
          ss.pending[k].record.sequence == k && GenuineParsed(cfg, ss.emitted, ss.pending[k]))
  }

  predicate Sized(cfg: Config, ss: Session) {
    |ss.workers| == cfg.workers && |ss.records| <= CAPACITY && |ss.parsed| <= CAPACITY
  }

  /** Outside its inner loop the coordinator has nothing it could process. */
  predicate Settled(ss: Session) {
    ss.draining || ss.nextSequence !in ss.pending
  }

  ghost predicate SessionInv(cfg: Config, ss: Session) {
    && Numbered(ss) && Placed(ss) && AllGenuine(cfg, ss) && Sized(cfg, ss) && Settled(ss)
  }

  // ---- multiset bookkeeping ----

  lemma {:induction false} WorkerNumsUpdate(ws: seq<Worker>, i: nat, w: Worker)
    requires i < |ws|
    ensures WorkerNums(ws[i := w]) + HeldNum(ws[i]) == WorkerNums(ws) + HeldNum(w)
  {
    var first, rest := HeldNum(ws[0]), WorkerNums(ws[1..]);
    if i == 0 {
      assert ws[i := w][1..] == ws[1..];
      Exchange(multiset{}, HeldNum(w) + rest, first, first + rest, HeldNum(w));
    } else {
      WorkerNumsUpdate(ws[1..], i - 1, w);
      assert ws[i := w][1..] == ws[1..][i - 1 := w];
      Exchange(first, WorkerNums(ws[1..][i - 1 := w]), HeldNum(ws[i]), rest, HeldNum(w));
    }
  }

  lemma Exchange(first: multiset<nat>, a: multiset<nat>, x: multiset<nat>, b: multiset<nat>, y: multiset<nat>)
    requires a + x == b + y
    ensures (first + a) + x == (first + b) + y
  {
    assert (first + a) + x == first + (a + x);
    assert (first + b) + y == first + (b + y);
  }

  lemma {:induction false} WorkerNumsIdle(n: nat)
    ensures WorkerNums(seq(n, _ => Waiting)) == multiset{}
  {
    if n > 0 {
      WorkerNumsIdle(n - 1);
      assert seq(n, _ => Waiting)[1..] == seq(n - 1, _ => Waiting);
    }
  }

  lemma RecordNumsHead(rs: seq<LineRecord>)
    requires rs != []
    ensures multiset(RecordNums(rs)) == multiset{rs[0].sequence} + multiset(RecordNums(rs[1..]))
  {
    assert RecordNums(rs) == [rs[0].sequence] + RecordNums(rs[1..]);
  }

  lemma RecordNumsSnoc(rs: seq<LineRecord>, r: LineRecord)
    ensures multiset(RecordNums(rs + [r])) == multiset(RecordNums(rs)) + multiset{r.sequence}
  {
    assert RecordNums(rs + [r]) == RecordNums(rs) + [r.sequence];
  }

  lemma ParsedNumsHead(ps: seq<ParsedRecord>)
    requires ps != []
    ensures multiset(ParsedNums(ps)) == multiset{ps[0].record.sequence} + multiset(ParsedNums(ps[1..]))
  {
    assert ParsedNums(ps) == [ps[0].record.sequence] + ParsedNums(ps[1..]);
  }

  lemma ParsedNumsSnoc(ps: seq<ParsedRecord>, p: ParsedRecord)
    ensures multiset(ParsedNums(ps + [p])) == multiset(ParsedNums(ps)) + multiset{p.record.sequence}
  {
    assert ParsedNums(ps + [p]) == ParsedNums(ps) + [p.record.sequence];
  }

  /** The write to `pending` never overwrites a record that is already there. */
  lemma NeverOverwrites(ss: Session)
    requires Placed(ss) && ss.parsed != []
    ensures ss.parsed[0].record.sequence !in ss.pending
  {
    var k := ss.parsed[0].record.sequence;
    ParsedNumsHead(ss.parsed);
    assert multiset(ParsedNums(ss.parsed))[k] >= 1;
    assert InFlight(ss)[k] <= 1;
  }

  // Moving a number from one place to the next changes no count.

  lemma MoveSent(x: multiset<nat>, r: multiset<nat>, w: multiset<nat>, p: multiset<nat>, q: multiset<nat>)
    ensures Together(multiset{}, r + x, w, p, q) == Together(x, r, w, p, q)
  {
  }

  lemma MoveTaken(x: multiset<nat>, s: multiset<nat>, r: multiset<nat>, w: multiset<nat>, w': multiset<nat>,
                  p: multiset<nat>, q: multiset<nat>)
    requires w' + multiset{} == w + x
    ensures Together(s, r, w', p, q) == Together(s, x + r, w, p, q)
  {
    assert w' == w + x;
  }

  lemma MoveDelivered(x: multiset<nat>, s: multiset<nat>, r: multiset<nat>, w: multiset<nat>, w': multiset<nat>,
                      p: multiset<nat>, q: multiset<nat>)
    requires w' + x == w + multiset{}
    ensures Together(s, r, w', p + x, q) == Together(s, r, w, p, q)
  {
    assert w == w' + x;
  }

  lemma MoveReceived(x: multiset<nat>, s: multiset<nat>, r: multiset<nat>, w: multiset<nat>,
                     p: multiset<nat>, q: multiset<nat>)
    ensures Together(s, r, w, p, q + x) == Together(s, r, w, x + p, q)
  {
  }

  lemma WorkerMove(ss: Session, w: nat, held: Worker)
    requires w < |ss.workers|
    ensures WorkerNums(ss.workers[w := held]) + HeldNum(ss.workers[w]) == WorkerNums(ss.workers) + HeldNum(held)
    ensures HeldNum(ss.workers[w]) == HeldNum(held) ==> WorkerNums(ss.workers[w := held]) == WorkerNums(ss.workers)
  {
    WorkerNumsUpdate(ss.workers, w, held);
    var a, b, x := WorkerNums(ss.workers[w := held]), WorkerNums(ss.workers), HeldNum(held);
    if HeldNum(ss.workers[w]) == x {
      assert a == (a + x) - x;
      assert b == (b + x) - x;
    }
  }

  lemma SendPlaced(ss: Session)
    requires LocalEnabled(ss, Send)
    ensures InFlight(ss.(sending := None, records := ss.records + [ss.sending.value])) == InFlight(ss)
  {
    RecordNumsSnoc(ss.records, ss.sending.value);
    MoveSent(SendingNum(ss.sending), multiset(RecordNums(ss.records)), WorkerNums(ss.workers),
             multiset(ParsedNums(ss.parsed)), multiset(ss.pending.Keys));
  }

  lemma TakePlaced(ss: Session, w: nat)
    requires LocalEnabled(ss, Take(w))
    ensures InFlight(ss)
         == InFlight(ss.(records := ss.records[1..], workers := ss.workers[w := Holding(ss.records[0])]))
  {
    var held := Holding(ss.records[0]);
    RecordNumsHead(ss.records);
    WorkerMove(ss, w, held);
    MoveTaken(HeldNum(held), SendingNum(ss.sending), multiset(RecordNums(ss.records[1..])), WorkerNums(ss.workers),
              WorkerNums(ss.workers[w := held]), multiset(ParsedNums(ss.parsed)), multiset(ss.pending.Keys));
  }

  lemma DeliverPlaced(ss: Session, w: nat)
    requires LocalEnabled(ss, Deliver(w))
    ensures InFlight(ss)
         == InFlight(ss.(parsed := ss.parsed + [ss.workers[w].parsed], workers := ss.workers[w := Waiting]))
  {
    ParsedNumsSnoc(ss.parsed, ss.workers[w].parsed);
    WorkerMove(ss, w, Waiting);
    MoveDelivered(HeldNum(ss.workers[w]), SendingNum(ss.sending), multiset(RecordNums(ss.records)),
                  WorkerNums(ss.workers), WorkerNums(ss.workers[w := Waiting]),
                  multiset(ParsedNums(ss.parsed)), multiset(ss.pending.Keys));
  }

  lemma ReceivePlaced(cfg: Config, ss: Session)
    requires Placed(ss) && LocalEnabled(ss, Receive)
    ensures InFlight(LocalStep(cfg, ss, Receive)) == InFlight(ss)
  {
    var p := ss.parsed[0];
    var k := p.record.sequence;
    ParsedNumsHead(ss.parsed);
    NeverOverwrites(ss);
    assert ss.pending[k := p].Keys == ss.pending.Keys + {k};
    assert multiset(ss.pending.Keys + {k}) == multiset(ss.pending.Keys) + multiset{k};
    MoveReceived(multiset{k}, SendingNum(ss.sending), multiset(RecordNums(ss.records)), WorkerNums(ss.workers),
                 multiset(ParsedNums(ss.parsed[1..])), multiset(ss.pending.Keys));
  }

  lemma ParsePlaced(ss: Session, w: nat, held: Worker)
    requires w < |ss.workers| && HeldNum(held) == HeldNum(ss.workers[w])
    ensures InFlight(ss.(workers := ss.workers[w := held])) == InFlight(ss)
  {
    WorkerMove(ss, w, held);
  }

  lemma LocalPlaced(cfg: Config, ss: Session, l: Local)
    requires Placed(ss) && LocalEnabled(ss, l)
    ensures InFlight(LocalStep(cfg, ss, l)) == InFlight(ss)
  {
    match l
    case Send => SendPlaced(ss);
    case Take(w) => TakePlaced(ss, w);
    case Parse(w, now) => ParsePlaced(ss, w, LocalStep(cfg, ss, l).workers[w]);
    case Deliver(w) => DeliverPlaced(ss, w);
    case Receive => ReceivePlaced(cfg, ss);
    case Drained =>
  }

  lemma LocalGenuine(cfg: Config, ss: Session, l: Local)
    requires AllGenuine(cfg, ss) && LocalEnabled(ss, l)
    ensures AllGenuine(cfg, LocalStep(cfg, ss, l))
  {
    match l
    case Send =>
    case Take(w) => assert Genuine(ss.emitted, ss.records[0]);
    case Parse(w, now) =>
      assert GenuineWorker(cfg, ss.emitted, ss.workers[w]);
      var r := ss.workers[w].record;
      assert ParsedFrom(cfg, r.text, cfg.parse(r.text, now));
    case Deliver(w) => assert GenuineWorker(cfg, ss.emitted, ss.workers[w]);
    case Receive => assert GenuineParsed(cfg, ss.emitted, ss.parsed[0]);
    case Drained =>
  }

  /** Steps inside the pipeline leave the follower and the reading order alone. */
  lemma LocalFrame(cfg: Config, ss: Session, l: Local)
    requires LocalEnabled(ss, l)
    ensures var ss' := LocalStep(cfg, ss, l);
      ss'.follower == ss.follower && ss'.emitted == ss.emitted && ss'.nextSequence == ss.nextSequence
  {
  }

  lemma LocalSession(cfg: Config, ss: Session, l: Local)
    requires SessionInv(cfg, ss) && LocalEnabled(ss, l)
    ensures SessionInv(cfg, LocalStep(cfg, ss, l))
  {
    LocalPlaced(cfg, ss, l);
    LocalFrame(cfg, ss, l);
    LocalGenuine(cfg, ss, l);
  }

  lemma ProcessPlaced(ss: Session, at: int, seen: int)
    requires Placed(ss) && ProcessEnabled(ss)
    ensures Placed(Processed(ss, at, seen))
  {
    var ss', k := Processed(ss, at, seen), ss.nextSequence;
    assert ss'.pending == ss.pending - {k};
    var q' := multiset(ss'.pending.Keys);
    PendingWithout(ss.pending, k);
    MoveProcessed(k, SendingNum(ss.sending), multiset(RecordNums(ss.records)), WorkerNums(ss.workers),
                  multiset(ParsedNums(ss.parsed)), q');
    assert InFlight(ss) == InFlight(ss') + multiset{k};
    RangeStep(k, |ss.emitted|, InFlight(ss'));
  }

  lemma PendingWithout(pending: map<nat, ParsedRecord>, k: nat)
    requires k in pending
    ensures multiset(pending.Keys) == multiset((pending - {k}).Keys) + multiset{k}
  {
    assert (pending - {k}).Keys == pending.Keys - {k};
    assert pending.Keys == (pending - {k}).Keys + {k};
  }

  lemma MoveProcessed(k: nat, s: multiset<nat>, r: multiset<nat>, w: multiset<nat>, p: multiset<nat>, q: multiset<nat>)
    ensures Together(s, r, w, p, q + multiset{k}) == Together(s, r, w, p, q) + multiset{k}
  {
  }

  lemma RangeStep(lo: nat, hi: nat, m: multiset<nat>)
    requires m + multiset{lo} == multiset(Range(lo, hi))
    ensures m == multiset(Range(lo + 1, hi))
  {
    assert (m + multiset{lo})[lo] >= 1;
    assert lo in multiset(Range(lo, hi));
    assert Range(lo, hi) == Range(lo + 1, hi) + {lo};
    assert multiset(Range(lo, hi)) == multiset(Range(lo + 1, hi)) + multiset{lo};
    assert m == (m + multiset{lo}) - multiset{lo};
  }

  /** The record processed is the next one in reading order. */
  lemma ProcessSession(cfg: Config, ss: Session, at: int, seen: int)
    requires SessionInv(cfg, ss) && ProcessEnabled(ss)
    ensures SessionInv(cfg, Processed(ss, at, seen))
    ensures ss.nextSequence < |ss.emitted|
    ensures ss.pending[ss.nextSequence].record == ss.emitted[ss.nextSequence]
    ensures ParsedFrom(cfg, ss.emitted[ss.nextSequence].text, ss.pending[ss.nextSequence].entry)
  {
    ProcessPlaced(ss, at, seen);
    assert GenuineParsed(cfg, ss.emitted, ss.pending[ss.nextSequence]);
  }

  lemma ReadPlaced(ss: Session, content: string)
    requires Placed(ss) && Numbered(ss) && ss.sending.None? && LineAvailable(ss.follower, content)
    ensures Placed(AfterRead(ss, content))
  {
    var ss', newest := AfterRead(ss, content), |ss.emitted|;
    RangeGrow(ss.nextSequence, newest);
    MoveRead(newest, multiset(RecordNums(ss.records)), WorkerNums(ss.workers), multiset(ParsedNums(ss.parsed)),
             multiset(ss.pending.Keys));
  }

  lemma RangeGrow(lo: nat, hi: nat)
    requires lo <= hi
    ensures multiset(Range(lo, hi + 1)) == multiset(Range(lo, hi)) + multiset{hi}
  {
    assert hi !in Range(lo, hi);
    assert Range(lo, hi + 1) == Range(lo, hi) + {hi};
  }

  lemma MoveRead(k: nat, r: multiset<nat>, w: multiset<nat>, p: multiset<nat>, q: multiset<nat>)
    ensures Together(multiset{k}, r, w, p, q) == Together(multiset{}, r, w, p, q) + multiset{k}
  {
  }

  lemma GenuineGrow(cfg: Config, ss: Session, r: LineRecord)
    requires AllGenuine(cfg, ss) && r.sequence == |ss.emitted|
    ensures AllGenuine(cfg, ss.(emitted := ss.emitted + [r], sending := Some(r)))
  {
    var emitted := ss.emitted + [r];
    forall i | 0 <= i < |ss.workers| ensures GenuineWorker(cfg, emitted, ss.workers[i]) {
      assert GenuineWorker(cfg, ss.emitted, ss.workers[i]);
    }
    forall i | 0 <= i < |ss.parsed| ensures GenuineParsed(cfg, emitted, ss.parsed[i]) {
      assert GenuineParsed(cfg, ss.emitted, ss.parsed[i]);
    }
    forall k | k in ss.pending ensures GenuineParsed(cfg, emitted, ss.pending[k]) {
      assert GenuineParsed(cfg, ss.emitted, ss.pending[k]);
    }
  }

  lemma ReadSession(cfg: Config, ss: Session, content: string)
    requires SessionInv(cfg, ss) && ss.sending.None? && LineAvailable(ss.follower, content)
    ensures SessionInv(cfg, AfterRead(ss, content))
  {
    ReadPlaced(ss, content);
    GenuineGrow(cfg, ss, NextRecord(ss.follower, content));
  }

  lemma NewSessionInv(cfg: Config, s: State)
    requires s.path.Some? && s.path.value in s.files
    ensures SessionInv(cfg, NewSession(cfg, s))
  {
    WorkerNumsIdle(cfg.workers);
    var ss := NewSession(cfg, s);
    assert Awaited(ss) == {};
    assert ss.pending.Keys == {};
    assert RecordNums([]) == [] && ParsedNums([]) == [];
  }

  /** Steps that leave the channels, workers and coordinator alone. */
  lemma FollowerOnly(cfg: Config, ss: Session, f: Follower)
    requires SessionInv(cfg, ss) && f.sequence == ss.follower.sequence
    ensures SessionInv(cfg, ss.(follower := f))
  {
    assert InFlight(ss.(follower := f)) == InFlight(ss);
    assert Awaited(ss.(follower := f)) == Awaited(ss);
  }

  lemma TickSession(cfg: Config, ss: Session, now: int, at: int, expired: seq<MailTransaction>)
    requires SessionInv(cfg, ss)
    ensures SessionInv(cfg, Ticked(cfg, ss, now, at, expired))
  {
    var ss' := Ticked(cfg, ss, now, at, expired);
    assert InFlight(ss') == InFlight(ss);
    assert Awaited(ss') == Awaited(ss);
  }
}
