/**
  The log follower: reads a growing file line by line, remembers a partial last line,
  and moves to the file that replaced it once a rotation has been drained.

  A read sees the content the open file has at that moment.  The source's `pending`
  builder is called `partial` here, to keep it apart from the coordinator's map.
 */
module LogFollower {
  import opened MailLog
  import opened Framing
  import opened MailTable

  datatype LineRecord = LineRecord(sequence: nat, text: string, inode: int, offset: nat)
  {
    function AsLine(): Line { Line(text, offset) }
  }

  /** One end-of-file poll: the clock, and the inode found at the path (`None`: no such file). */
  datatype Poll = Poll(at: int, saw: Option<int>)

  /** What the loop does next: read, inspect the path after an end of file, or reopen the path. */
  datatype Phase = Reading | AtEof | Leaving

  /** `polls` records the end-of-file polls made since the current file was opened. */
  datatype Follower = Follower(
    inode: int,
    offset: nat,
    partial: string,
    rotatedAt: Option<int>,
    sequence: nat,
    phase: Phase,
    polls: seq<Poll>)

  function AsLines(records: seq<LineRecord>): seq<Line> {
    seq(|records|, i requires 0 <= i < |records| => records[i].AsLine())
  }

  /** Where reading resumes in a file of this inode and size; no stored state reads as (0, 0). */
  function ResumeOffset(stored: Option<Checkpoint>, inode: int, size: nat): (offset: nat)
    ensures offset <= size
  {
    var c := if stored.Some? then stored.value else Checkpoint(0, 0);
    if c.inode == inode && 0 <= c.offset <= size then c.offset else 0
  }

  function Opened(inode: int, offset: nat, sequence: nat): Follower {
    Follower(inode, offset, "", None, sequence, Reading, [])
  }

  predicate LineAvailable(f: Follower, content: string) {
    f.offset <= |content| && NextNewline(content, f.offset) < |content|
  }

  /** A read that finds the delimiter: the record it completes. */
  function NextRecord(f: Follower, content: string): LineRecord
    requires LineAvailable(f, content)
  {
    var k := NextNewline(content, f.offset);
    LineRecord(f.sequence, f.partial + content[f.offset..k], f.inode, k + 1)
  }

  function AfterRecord(f: Follower, content: string): Follower
    requires LineAvailable(f, content)
  {
    f.(offset := NextNewline(content, f.offset) + 1, partial := "", sequence := f.sequence + 1)
  }

  /** A read that ends at the end of the file. */
  function AfterEof(f: Follower, content: string): Follower {
    var chunk := if f.offset <= |content| then content[f.offset..] else "";
    f.(offset := f.offset + |chunk|, partial := f.partial + chunk, phase := AtEof)
  }

  /**
    The path inspection after an end of file.  `size` is the open file's size, `path` what
    the path names; the clock is read once to start the rotation timer and once to test it.
   */
  function AfterPoll(f: Follower, path: Option<int>, size: nat, started: int, now: int, drainTimeout: int): Follower {
    var polled := f.(polls := f.polls + [Poll(started, path)]);
    if path == Some(f.inode) && size < f.offset then polled.(phase := Leaving)
    else if path.Some? && path.value != f.inode then
      var since := if f.rotatedAt.None? then started else f.rotatedAt.value;
      polled.(rotatedAt := Some(since), phase := if now - since >= drainTimeout then Leaving else Reading)
    else polled.(rotatedAt := None, phase := Reading)
  }

  // ---- the rotation timer ----

  /** The poll found another file at the path. */
  predicate SawOther(poll: Poll, inode: int) {
    poll.saw.Some? && poll.saw.value != inode
  }

  /** The polls from `k` on, and not one more before them, found another file at the path. */
  predicate LastStretch(polls: seq<Poll>, inode: int, k: nat) {
    && k <= |polls| && (forall j :: k <= j < |polls| ==> SawOther(polls[j], inode))
    && (k > 0 ==> !SawOther(polls[k - 1], inode))
  }

  function StretchStart(polls: seq<Poll>, inode: int): (k: nat)
    ensures LastStretch(polls, inode, k)
  {
    if polls == [] || !SawOther(polls[|polls| - 1], inode) then |polls|
    else StretchStart(polls[..|polls| - 1], inode)
  }

  lemma TwoStretches(polls: seq<Poll>, inode: int, a: nat, b: nat)
    requires LastStretch(polls, inode, a) && LastStretch(polls, inode, b)
    ensures a <= b
  {
  }

  lemma StretchIsUnique(polls: seq<Poll>, inode: int, k: nat)
    requires LastStretch(polls, inode, k)
    ensures StretchStart(polls, inode) == k
  {
    TwoStretches(polls, inode, k, StretchStart(polls, inode));
    TwoStretches(polls, inode, StretchStart(polls, inode), k);
  }

  /** Every poll of the last stretch found another file, and the first of them is the timeout or more ago. */
  predicate Drained(polls: seq<Poll>, inode: int, now: int, drainTimeout: int) {
    var k := StretchStart(polls, inode);
    k < |polls| && now - polls[k].at >= drainTimeout
  }

  /** The instant the last stretch began. */
  function RotatedSince(polls: seq<Poll>, inode: int): Option<int> {
    var k := StretchStart(polls, inode);
    if k < |polls| then Some(polls[k].at) else None
  }

  /** The timer tells when the last stretch of polls that saw another file began. */
  predicate TimerMeans(f: Follower) {
    f.rotatedAt == RotatedSince(f.polls, f.inode)
  }

  lemma StretchGrows(polls: seq<Poll>, inode: int, poll: Poll)
    ensures RotatedSince(polls + [poll], inode) ==
      if !SawOther(poll, inode) then None
      else if RotatedSince(polls, inode).None? then Some(poll.at)
      else RotatedSince(polls, inode)
  {
    var k := if SawOther(poll, inode) then StretchStart(polls, inode) else |polls| + 1;
    assert LastStretch(polls + [poll], inode, k);
    StretchIsUnique(polls + [poll], inode, k);
  }

  lemma DrainedIff(polls: seq<Poll>, inode: int, now: int, drainTimeout: int)
    ensures Drained(polls, inode, now, drainTimeout) <==>
      RotatedSince(polls, inode).Some? && now - RotatedSince(polls, inode).value >= drainTimeout
  {
  }

  /**
    The inspection leaves the file exactly when the file is shorter than the offset reached
    and still at the path, or every poll of a stretch that began the timeout or more ago, this
    one included, found another file there.
   */
  lemma PollLeavesIff(f: Follower, path: Option<int>, size: nat, started: int, now: int, drainTimeout: int)
    requires TimerMeans(f)
    ensures var f' := AfterPoll(f, path, size, started, now, drainTimeout);
      var truncated := path == Some(f.inode) && size < f.offset;
      && f'.inode == f.inode && f'.offset == f.offset && f'.polls == f.polls + [Poll(started, path)]
      && (f'.phase == Leaving <==> truncated || Drained(f'.polls, f.inode, now, drainTimeout))
      && (f'.phase != Leaving ==> f'.phase == Reading)
      && (!truncated ==> TimerMeans(f'))
  {
    var polls := f.polls + [Poll(started, path)];
    StretchGrows(f.polls, f.inode, Poll(started, path));
    DrainedIff(polls, f.inode, now, drainTimeout);
  }

  // ---- framing ----

  /** `ls` has been emitted since `start`, and `partial` is the unfinished line after it. */
  predicate Aligned(f: Follower, ls: seq<Line>, content: string, start: nat) {
    && Frames(ls, content, start)
    && End(ls, start) + |f.partial| == f.offset <= |content|
    && content[End(ls, start)..f.offset] == f.partial
    && '\n' !in f.partial
  }

  lemma AlignedGrow(f: Follower, ls: seq<Line>, content: string, start: nat, more: string)
    requires Aligned(f, ls, content, start)
    ensures Aligned(f, ls, content + more, start)
  {
    FramesGrow(ls, content, start, more);
    assert (content + more)[End(ls, start)..f.offset] == content[End(ls, start)..f.offset];
  }

  lemma AlignedRecord(f: Follower, ls: seq<Line>, content: string, start: nat)
    requires Aligned(f, ls, content, start) && LineAvailable(f, content)
    ensures Aligned(AfterRecord(f, content), ls + [NextRecord(f, content).AsLine()], content, start)
  {
    var k := NextNewline(content, f.offset);
    var b := End(ls, start);
    var l := NextRecord(f, content).AsLine();
    assert content[b..k + 1] == content[b..f.offset] + content[f.offset..k] + [content[k]];
    assert LineAt(content, b, l);
    FramesSnoc(ls, content, start, l);
  }

  lemma AlignedEof(f: Follower, ls: seq<Line>, content: string, start: nat)
    requires Aligned(f, ls, content, start) && !LineAvailable(f, content)
    ensures Aligned(AfterEof(f, content), ls, content, start)
    ensures AfterEof(f, content).offset == |content|
    ensures ls == Lines(content, start)
  {
    var k := NextNewline(content, f.offset);
    var b := End(ls, start);
    assert k == |content|;
    var chunk := content[f.offset..];
    assert chunk == content[f.offset..k];
    assert content[b..|content|] == content[b..f.offset] + chunk;
    Resume(ls, content, start);
    assert content[b..] == f.partial + chunk;
    NoNewlineLeft(content, b);
  }

  /** One read of a file that has grown since the previous one. */
  lemma AlignedPass(f: Follower, ls: seq<Line>, before: string, content: string, start: nat)
    requires Aligned(f, ls, before, start) && before <= content
    ensures LineAvailable(f, content) ==>
      Aligned(AfterRecord(f, content), ls + [NextRecord(f, content).AsLine()], content, start)
    ensures !LineAvailable(f, content) ==>
      Aligned(AfterEof(f, content), ls, content, start) && ls == Lines(content, start)
  {
    assert content == before + content[|before|..];
    AlignedGrow(f, ls, before, start, content[|before|..]);
    if LineAvailable(f, content) {
      AlignedRecord(f, ls, content, start);
    } else {
      AlignedEof(f, ls, content, start);
    }
  }

  /**
    `records` are what reading on from `first` has produced, with `content` seen last: the
    consecutive lines after `first.offset`, numbered on from `first.sequence`; and all of
    them once the end of the file was reached.
   */
  predicate Followed(first: Follower, f: Follower, records: seq<LineRecord>, content: string) {
    && Aligned(f, AsLines(records), content, first.offset)
    && (f.phase == AtEof ==> AsLines(records) == Lines(content, first.offset))
    && f.phase != Leaving
    && f.inode == first.inode && f.sequence == first.sequence + |records|
    && forall i :: 0 <= i < |records| ==>
         records[i].sequence == first.sequence + i && records[i].inode == first.inode
  }

  lemma FollowedStart(f: Follower, content: string)
    requires f.phase == Reading && f.partial == "" && f.offset <= |content|
    ensures Followed(f, f, [], content)
  {
    assert AsLines([]) == [];
  }

  lemma FollowedPass(first: Follower, f: Follower, records: seq<LineRecord>, before: string, content: string)
    requires Followed(first, f, records, before) && before <= content
    ensures var g := f.(phase := Reading);
      if LineAvailable(g, content)
      then Followed(first, AfterRecord(g, content), records + [NextRecord(g, content)], content)
      else Followed(first, AfterEof(g, content), records, content)
  {
    var g := f.(phase := Reading);
    var ls := AsLines(records);
    assert Aligned(g, ls, before, first.offset);
    AlignedPass(g, ls, before, content, first.offset);
    if LineAvailable(g, content) {
      assert AsLines(records + [NextRecord(g, content)]) == ls + [NextRecord(g, content).AsLine()];
    }
  }

  /**
    One turn of the loop while the path still names the file: the read sees `content`, and
    the inspection, if it comes to one, a moment later finds the file `size` bytes long.
   */
  datatype Turn = Turn(content: string, size: nat, started: int, now: int)

  function AfterTurn(f: Follower, t: Turn, drainTimeout: int): Follower {
    if LineAvailable(f, t.content) then AfterRecord(f, t.content)
    else AfterPoll(AfterEof(f, t.content), Some(f.inode), t.size, t.started, t.now, drainTimeout)
  }

  function AfterTurns(f: Follower, turns: seq<Turn>, drainTimeout: int): Follower
    decreases |turns|
  {
    if turns == [] then f
    else AfterTurn(AfterTurns(f, turns[..|turns| - 1], drainTimeout), turns[|turns| - 1], drainTimeout)
  }

  /** From the first read on the file does not shrink. */
  predicate Growing(turns: seq<Turn>) {
    && (forall i :: 0 <= i < |turns| ==> |turns[i].content| <= turns[i].size)
    && (forall i, j :: 0 <= i < j < |turns| ==> turns[i].size <= |turns[j].content|)
  }

  /** Some turn sends the follower back to the start of the file. */
  predicate Noticed(f: Follower, turns: seq<Turn>, drainTimeout: int) {
    exists k :: 0 < k <= |turns| && AfterTurns(f, turns[..k], drainTimeout).phase == Leaving
  }

  /**
    A turn notices that the file was rewritten in place exactly when the inspection finds it
    shorter than the offset the read left; and if the file has not shrunk in between, that is
    the offset from before the read.
   */
  lemma RewriteNoticedIff(f: Follower, t: Turn, drainTimeout: int)
    requires f.phase == Reading
    ensures AfterTurn(f, t, drainTimeout).phase == Leaving
        <==> !LineAvailable(f, t.content) && t.size < AfterEof(f, t.content).offset
    ensures |t.content| <= t.size ==> (AfterTurn(f, t, drainTimeout).phase == Leaving <==> t.size < f.offset)
  {
    if f.offset <= |t.content| {
      assert f.offset + |t.content[f.offset..]| == |t.content|;
    }
  }

  /**
    A rewritten file that only grows from then on is noticed at the first inspection or
    never: exactly when that one finds it shorter than the offset reached before the rewrite.
   */
  lemma RewriteNoticedAtOnce(f: Follower, turns: seq<Turn>, drainTimeout: int)
    requires f.phase == Reading && turns != [] && Growing(turns)
    ensures Noticed(f, turns, drainTimeout) <==> turns[0].size < f.offset
  {
    var first := turns[..1];
    assert AfterTurns(f, first[..0], drainTimeout) == f;
    RewriteNoticedIff(f, turns[0], drainTimeout);
    assert AfterTurns(f, first, drainTimeout) == AfterTurn(f, turns[0], drainTimeout);
    if turns[0].size >= f.offset {
      forall k | 0 < k <= |turns| ensures AfterTurns(f, turns[..k], drainTimeout).phase != Leaving {
        StaysMissed(f, turns, drainTimeout, k);
      }
    }
  }

  /** Once missed, the rewrite stays missed: the follower goes on reading where it stood. */
  lemma {:induction false} StaysMissed(f: Follower, turns: seq<Turn>, drainTimeout: int, k: nat)
    requires f.phase == Reading && turns != [] && Growing(turns) && f.offset <= turns[0].size && 0 < k <= |turns|
    ensures var g := AfterTurns(f, turns[..k], drainTimeout);
      g.phase == Reading && g.inode == f.inode && f.offset <= g.offset <= turns[k - 1].size
  {
    var t := turns[k - 1];
    assert turns[..k][..k - 1] == turns[..k - 1];
    if k == 1 {
      assert AfterTurns(f, turns[..0], drainTimeout) == f;
      MissedTurn(f, t, drainTimeout);
    } else {
      StaysMissed(f, turns, drainTimeout, k - 1);
      assert turns[k - 2].size <= |t.content|;
      MissedTurn(AfterTurns(f, turns[..k - 1], drainTimeout), t, drainTimeout);
    }
  }

  lemma MissedTurn(f: Follower, t: Turn, drainTimeout: int)
    requires f.phase == Reading && |t.content| <= t.size && f.offset <= t.size
    ensures var g := AfterTurn(f, t, drainTimeout);
      g.phase == Reading && g.inode == f.inode && f.offset <= g.offset <= t.size
  {
    if f.offset <= |t.content| {
      assert f.offset + |t.content[f.offset..]| == |t.content|;
    }
  }

  /**
    Otherwise lines are lost: after reading "aa" from a file that is then rewritten as "b" and
    "c", the follower emits an empty line and neither of the two.
   */
  lemma RewriteCanBeMissed(inode: int)
    ensures var f, content := Opened(inode, 3, 1), "b\nc\n";
      && Aligned(f, [Line("aa", 3)], "aa\n", 0)
      && Lines(content, 0) == [Line("b", 2), Line("c", 4)]
      && LineAvailable(f, content) && NextRecord(f, content) == LineRecord(1, "", inode, 4)
      && Lines(content, NextRecord(f, content).offset) == []
  {
    var f, content := Opened(inode, 3, 1), "b\nc\n";
    assert FramedAt([Line("aa", 3)], "aa\n", 0, 0) by {
      assert "aa\n"[0..3] == "aa" + ['\n'];
    }
    NextNewlineIs(content, 0, 1);
    NextNewlineIs(content, 2, 3);
    NextNewlineIs(content, 3, 3);
    assert content[0..1] == "b" && content[2..3] == "c" && content[3..3] == "";
    assert Lines(content, 4) == [];
    assert Lines(content, 2) == [Line("c", 4)] + Lines(content, 4);
    assert Lines(content, 0) == [Line("b", 2)] + Lines(content, 2);
  }

  class FollowLoop {
    var follower: Follower

    constructor (stored: Option<Checkpoint>, inode: int, size: nat)
      ensures follower == Opened(inode, ResumeOffset(stored, inode, size), 0)
    {
      follower := Opened(inode, ResumeOffset(stored, inode, size), 0);
    }

    /** One read: a record when the line is complete, otherwise the end of the file. */
    method Read(content: string) returns (record: Option<LineRecord>)
      modifies this
      ensures LineAvailable(old(follower), content) ==>
        record == Some(NextRecord(old(follower), content)) && follower == AfterRecord(old(follower), content)
      ensures !LineAvailable(old(follower), content) ==>
        record == None && follower == AfterEof(old(follower), content)
    {
      var f := follower;
      var chunk, complete := ReadString(content, f.offset);
      var offset := f.offset + |chunk|;
      var partial := f.partial + chunk;
      if complete {
        assert f.partial + chunk[..|chunk| - 1] == partial[..|partial| - 1];
        record := Some(LineRecord(f.sequence, partial[..|partial| - 1], f.inode, offset));
        follower := f.(offset := offset, partial := "", sequence := f.sequence + 1);
      } else {
        record := None;
        follower := f.(offset := offset, partial := partial, phase := AtEof);
      }
    }

    /** The buffered reader: everything up to and including the next newline, or to the end. */
    static method ReadString(content: string, offset: nat) returns (chunk: string, complete: bool)
      ensures complete == (offset <= |content| && NextNewline(content, offset) < |content|)
      ensures complete ==> chunk == content[offset..NextNewline(content, offset) + 1]
      ensures complete ==> chunk[|chunk| - 1] == '\n'
      ensures complete ==> chunk[..|chunk| - 1] == content[offset..NextNewline(content, offset)]
      ensures !complete ==> chunk == if offset <= |content| then content[offset..] else ""
    {
      if offset > |content| {
        return "", false;
      }
      var k := offset;
      while k < |content| && content[k] != '\n'
        invariant offset <= k <= |content|
        invariant '\n' !in content[offset..k]
      {
        assert content[offset..k + 1] == content[offset..k] + [content[k]];
        k := k + 1;
      }
      if k == |content| {
        assert content[offset..] == content[offset..k];
        NoNewlineLeft(content, offset);
        return content[offset..], false;
      }
      NextNewlineIs(content, offset, k);
      return content[offset..k + 1], true;
    }

    /** The path inspection; reopens the path when the loop leaves the file. */
    method Inspect(path: Option<int>, size: nat, started: int, now: int, drainTimeout: int, reopened: Option<int>)
      returns (ok: bool)
      requires follower.phase == AtEof
      modifies this
      ensures var f := AfterPoll(old(follower), path, size, started, now, drainTimeout);
        if f.phase != Leaving then ok && follower == f
        else if reopened.None? then !ok && follower == f
        else ok && follower == Opened(reopened.value, 0, old(follower).sequence)
      ensures old(TimerMeans(follower)) ==>
        var was, polls := old(follower), old(follower).polls + [Poll(started, path)];
        var leaves := (path == Some(was.inode) && size < was.offset) || Drained(polls, was.inode, now, drainTimeout);
        && (!leaves ==> ok && follower == was.(polls := polls, phase := Reading,
                                               rotatedAt := RotatedSince(polls, was.inode)))
        && (leaves && reopened.None? ==> !ok)
        && (leaves && reopened.Some? ==> ok && follower == Opened(reopened.value, 0, was.sequence))
    {
      ghost var was := follower;
      if TimerMeans(was) {
        PollLeavesIff(was, path, size, started, now, drainTimeout);
      }
      follower := follower.(polls := follower.polls + [Poll(started, path)]);
      var leave := false;
      if path.Some? && path.value == follower.inode && size < follower.offset {
        leave := true;
      } else if path.Some? && path.value != follower.inode {
        if follower.rotatedAt.None? {
          follower := follower.(rotatedAt := Some(started));
        }
        leave := now - follower.rotatedAt.value >= drainTimeout;
      } else {
        follower := follower.(rotatedAt := None);
      }
      follower := follower.(phase := if leave then Leaving else Reading);
      if leave {
        if reopened.None? {
          return false;
        }
        follower := Opened(reopened.value, 0, follower.sequence);
      }
      return true;
    }

    /**
      The read loop over a file that only grows: pass `i` sees `contents[i]`.  However the
      growth is cut into passes, the records are consecutive lines of the final content;
      and if the last pass reached the end of the file they are all of them.
     */
    method Follow(contents: seq<string>) returns (records: seq<LineRecord>)
      requires contents != []
      requires follower.phase == Reading && follower.partial == "" && follower.offset <= |contents[0]|
      requires forall i, j :: 0 <= i <= j < |contents| ==> contents[i] <= contents[j]
      modifies this
      ensures Followed(old(follower), follower, records, contents[|contents| - 1])
    {
      records := [];
      var i := 0;
      ghost var last := contents[0];
      FollowedStart(follower, last);
      while i < |contents|
        invariant 0 <= i <= |contents|
        invariant last == if i == 0 then contents[0] else contents[i - 1]
        invariant Followed(old(follower), follower, records, last)
      {
        ghost var f := follower;
        FollowedPass(old(follower), f, records, last, contents[i]);
        follower := follower.(phase := Reading);
        var record := Read(contents[i]);
        if record.Some? {
          records := records + [record.value];
        }
        last := contents[i];
        i := i + 1;
      }
    }
  }
}
