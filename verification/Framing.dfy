/**
  Complete lines of a file: the reference against which everything the follower
  emits is measured.
 */
module Framing {

  /** A line's text without its newline, and the offset just past that newline. */
  datatype Line = Line(text: string, end: nat)

  /** Index of the first newline at or after `from`, or the length of the content. */
  function NextNewline(content: string, from: nat): (k: nat)
    requires from <= |content|
    ensures from <= k <= |content|
    ensures k < |content| ==> content[k] == '\n'
    ensures '\n' !in content[from..k]
    decreases |content| - from
  {
    if from == |content| || content[from] == '\n' then from
    else
      var k := NextNewline(content, from + 1);
      assert content[from..k] == [content[from]] + content[from + 1..k];
      k
  }

  /** Every complete line of `content` that begins at or after `start`, in order. */
  function Lines(content: string, start: nat): (ls: seq<Line>)
    requires start <= |content|
    decreases |content| - start
  {
    var k := NextNewline(content, start);
    if k == |content| then [] else [Line(content[start..k], k + 1)] + Lines(content, k + 1)
  }

  /** The offset reached after `ls` lines read from `start`. */
  function End(ls: seq<Line>, start: nat): nat {
    if ls == [] then start else ls[|ls| - 1].end
  }

  predicate LineAt(content: string, from: nat, l: Line) {
    && from + |l.text| + 1 == l.end <= |content|
    && content[from..l.end] == l.text + ['\n']
    && '\n' !in l.text
  }

  /** `ls` are consecutive lines of `content`, the first one beginning at `start`. */
  predicate Frames(ls: seq<Line>, content: string, start: nat) {
    && start <= |content|
    && forall i :: 0 <= i < |ls| ==> FramedAt(ls, content, start, i)
  }

  /** Line `i` begins where the one before it ends. */
  predicate FramedAt(ls: seq<Line>, content: string, start: nat, i: nat)
    requires i < |ls|
  {
    LineAt(content, if i == 0 then start else ls[i - 1].end, ls[i])
  }

  /** The text the lines cover: each followed by its newline. */
  function Unlines(ls: seq<Line>): string {
    if ls == [] then "" else Unlines(ls[..|ls| - 1]) + ls[|ls| - 1].text + ['\n']
  }

  lemma FramesPrefix(ls: seq<Line>, content: string, start: nat, n: nat)
    requires Frames(ls, content, start) && n <= |ls|
    ensures Frames(ls[..n], content, start)
  {
    forall i | 0 <= i < n ensures FramedAt(ls[..n], content, start, i) {
      assert FramedAt(ls, content, start, i);
    }
  }

  lemma FramesEnd(ls: seq<Line>, content: string, start: nat)
    requires Frames(ls, content, start)
    ensures start <= End(ls, start) <= |content|
    ensures ls != [] ==> start < End(ls, start) && content[End(ls, start) - 1] == '\n'
  {
    if ls != [] {
      var n := |ls| - 1;
      FramesPrefix(ls, content, start, n);
      FramesEnd(ls[..n], content, start);
      var from := End(ls[..n], start);
      assert FramedAt(ls, content, start, n);
      assert content[ls[n].end - 1] == content[from..ls[n].end][ls[n].end - 1 - from];
    }
  }

  /** Growing the file leaves the lines already framed as they are. */
  lemma FramesGrow(ls: seq<Line>, content: string, start: nat, more: string)
    requires Frames(ls, content, start)
    ensures Frames(ls, content + more, start)
  {
    forall i | 0 <= i < |ls| ensures FramedAt(ls, content + more, start, i) {
      var from := if i == 0 then start else ls[i - 1].end;
      assert FramedAt(ls, content, start, i);
      assert (content + more)[from..ls[i].end] == content[from..ls[i].end];
    }
  }

  lemma FramesSnoc(ls: seq<Line>, content: string, start: nat, l: Line)
    requires Frames(ls, content, start)
    requires LineAt(content, End(ls, start), l)
    ensures Frames(ls + [l], content, start)
    ensures End(ls + [l], start) == l.end
  {
    forall i | 0 <= i < |ls + [l]| ensures FramedAt(ls + [l], content, start, i) {
      if i < |ls| {
        assert FramedAt(ls, content, start, i);
      }
    }
  }

  lemma FramesLast(ls: seq<Line>, l: Line, content: string, start: nat)
    requires Frames(ls + [l], content, start)
    ensures LineAt(content, End(ls, start), l)
  {
    assert FramedAt(ls + [l], content, start, |ls|);
  }

  /** The texts, each followed by a newline, concatenate to exactly the stretch consumed. */
  lemma {:induction false} FramesUnlines(ls: seq<Line>, content: string, start: nat)
    requires Frames(ls, content, start)
    ensures start <= End(ls, start) <= |content|
    ensures Unlines(ls) == content[start..End(ls, start)]
  {
    FramesEnd(ls, content, start);
    if ls != [] {
      var n := |ls| - 1;
      FramesPrefix(ls, content, start, n);
      FramesUnlines(ls[..n], content, start);
      assert FramedAt(ls, content, start, n);
      var mid := End(ls[..n], start);
      assert content[start..ls[n].end] == content[start..mid] + content[mid..ls[n].end];
    }
  }

  lemma NextNewlineIs(content: string, from: nat, k: nat)
    requires from <= k < |content| && content[k] == '\n' && '\n' !in content[from..k]
    ensures NextNewline(content, from) == k
  {
    var j := NextNewline(content, from);
    assert !(j < k) by {
      if j < k { assert false; }
    }
    assert !(k < j) by {
      if k < j { assert false; }
    }
  }

  lemma NoNewlineLeft(content: string, from: nat)
    requires from <= |content| && '\n' !in content[from..]
    ensures NextNewline(content, from) == |content|
  {
    var j := NextNewline(content, from);
    assert !(j < |content|) by {
      if j < |content| { assert false; }
    }
  }

  lemma LineAtIsFirst(content: string, from: nat, l: Line)
    requires LineAt(content, from, l)
    ensures NextNewline(content, from) == l.end - 1
    ensures l.text == content[from..l.end - 1]
  {
    var piece := content[from..l.end];
    var k := l.end - 1;
    assert piece[..|l.text|] == l.text;
    assert content[from..k] == piece[..k - from];
    assert content[k] == piece[k - from] == '\n';
    NextNewlineIs(content, from, k);
  }

  lemma LinesStep(content: string, start: nat, l: Line)
    requires LineAt(content, start, l)
    ensures Lines(content, start) == [l] + Lines(content, l.end)
  {
    LineAtIsFirst(content, start, l);
  }

  lemma FramesDropFirst(ls: seq<Line>, content: string, start: nat)
    requires Frames(ls, content, start) && ls != []
    ensures ls[0].end <= |content|
    ensures Frames(ls[1..], content, ls[0].end)
    ensures End(ls[1..], ls[0].end) == End(ls, start)
  {
    assert FramedAt(ls, content, start, 0);
    forall i | 0 <= i < |ls| - 1 ensures FramedAt(ls[1..], content, ls[0].end, i) {
      assert FramedAt(ls, content, start, i + 1);
    }
  }

  /** The reference splitter frames its own output. */
  lemma {:induction false} LinesFrame(content: string, start: nat) returns (ls: seq<Line>)
    requires start <= |content|
    ensures ls == Lines(content, start) && Frames(ls, content, start)
    decreases |content| - start
  {
    var k := NextNewline(content, start);
    if k == |content| {
      ls := [];
    } else {
      var rest := LinesFrame(content, k + 1);
      var l := Line(content[start..k], k + 1);
      assert content[start..k + 1] == content[start..k] + ['\n'];
      FramesCons(l, rest, content, start);
      ls := [l] + rest;
    }
  }

  /** Nothing after the last complete line is a newline. */
  lemma {:induction false} LinesExhaust(content: string, start: nat)
    requires start <= |content|
    ensures End(Lines(content, start), start) <= |content|
    ensures '\n' !in content[End(Lines(content, start), start)..]
    decreases |content| - start
  {
    var k := NextNewline(content, start);
    if k < |content| {
      LinesExhaust(content, k + 1);
      var rest := Lines(content, k + 1);
      assert End([Line(content[start..k], k + 1)] + rest, start) == End(rest, k + 1);
    } else {
      assert content[start..] == content[start..k];
    }
  }

  lemma FramesCons(l: Line, rest: seq<Line>, content: string, start: nat)
    requires LineAt(content, start, l) && Frames(rest, content, l.end)
    ensures Frames([l] + rest, content, start)
  {
    var ls := [l] + rest;
    forall i | 0 <= i < |ls| ensures FramedAt(ls, content, start, i) {
      if i > 0 {
        assert FramedAt(rest, content, l.end, i - 1);
      }
    }
  }

  /**
    Resuming at any emitted offset yields exactly the remaining lines: the lines framed
    so far followed by those are all the lines of the file.
   */
  lemma {:induction false} Resume(ls: seq<Line>, content: string, start: nat)
    requires Frames(ls, content, start)
    ensures End(ls, start) <= |content|
    ensures Lines(content, start) == ls + Lines(content, End(ls, start))
    decreases |ls|
  {
    FramesEnd(ls, content, start);
    if ls == [] {
    } else {
      var rest, tail := ls[1..], Lines(content, End(ls, start));
      assert FramedAt(ls, content, start, 0);
      FramesDropFirst(ls, content, start);
      calc {
        Lines(content, start);
        { LinesStep(content, start, ls[0]); }
        [ls[0]] + Lines(content, ls[0].end);
        { Resume(rest, content, ls[0].end); }
        [ls[0]] + (rest + tail);
        ls + tail;
      }
    }
  }

  lemma FramesTrim(ls: seq<Line>, content: string, start: nat)
    requires Frames(ls, content, start)
    ensures End(ls, start) <= |content|
    ensures Frames(ls, content[..End(ls, start)], start)
  {
    FramesEnd(ls, content, start);
    var b := End(ls, start);
    forall i | 0 <= i < |ls| ensures FramedAt(ls, content[..b], start, i) {
      var from := if i == 0 then start else ls[i - 1].end;
      assert FramedAt(ls, content, start, i);
      FramesEndMonotone(ls, content, start, i + 1);
      assert End(ls[..i + 1], start) == ls[i].end;
      assert content[..b][from..ls[i].end] == content[from..ls[i].end];
    }
  }

  lemma {:induction false} FramesEndMonotone(ls: seq<Line>, content: string, start: nat, n: nat)
    requires Frames(ls, content, start) && n <= |ls|
    ensures End(ls[..n], start) <= End(ls, start)
    decreases |ls| - n
  {
    if n < |ls| {
      assert FramedAt(ls, content, start, n);
      assert End(ls[..n + 1], start) == ls[n].end;
      FramesEndMonotone(ls, content, start, n + 1);
    } else {
      assert ls[..n] == ls;
    }
  }

  /** Consecutive lines are exactly the complete lines of the stretch they cover. */
  lemma FramesAreLines(ls: seq<Line>, content: string, start: nat)
    requires Frames(ls, content, start)
    ensures start <= End(ls, start) <= |content|
    ensures ls == Lines(content[..End(ls, start)], start)
  {
    FramesEnd(ls, content, start);
    var b := End(ls, start);
    FramesTrim(ls, content, start);
    Resume(ls, content[..b], start);
    assert Lines(content[..b], b) == [];
  }

  /** Two readings of one file from one place agree as far as the shorter goes. */
  lemma {:induction false} FramesAgree(a: seq<Line>, b: seq<Line>, content: string, start: nat)
    requires Frames(a, content, start) && Frames(b, content, start) && |a| <= |b|
    ensures a == b[..|a|]
  {
    FramesPrefix(b, content, start, |a|);
    Resume(a, content, start);
    Resume(b[..|a|], content, start);
    var all := Lines(content, start);
    assert all[..|a|] == a;
    assert all[..|a|] == b[..|a|];
  }
}
