/** Splitting a text at a separator, as Go's strings.Split does, and joining it again. */
module TextList {

  function Split(s: string, sep: char): (parts: seq<string>)
    ensures parts != []
  {
    if s == "" then [""] else Extend(Split(s[..|s| - 1], sep), s[|s| - 1], sep)
  }

  /** One more character: a separator opens a new part, anything else lengthens the last. */
  function Extend(parts: seq<string>, c: char, sep: char): (r: seq<string>)
    requires parts != []
    ensures r != []
  {
    if c == sep then parts + [""] else parts[..|parts| - 1] + [parts[|parts| - 1] + [c]]
  }

  function Join(parts: seq<string>, sep: char): string {
    if parts == [] then ""
    else if |parts| == 1 then parts[0]
    else Join(parts[..|parts| - 1], sep) + [sep] + parts[|parts| - 1]
  }

  predicate Free(parts: seq<string>, sep: char) {
    forall i :: 0 <= i < |parts| ==> sep !in parts[i]
  }

  lemma SplitSnoc(s: string, c: char, sep: char)
    ensures Split(s + [c], sep) == Extend(Split(s, sep), c, sep)
  {
    assert (s + [c])[..|s|] == s;
  }

  lemma ExtendConcat(a: seq<string>, b: seq<string>, c: char, sep: char)
    requires b != []
    ensures Extend(a + b, c, sep) == a + Extend(b, c, sep)
  {
    assert (a + b)[..|a + b| - 1] == a + b[..|b| - 1];
  }

  lemma {:induction false} SplitFree(s: string, sep: char)
    requires sep !in s
    ensures Split(s, sep) == [s]
  {
    if s != "" {
      SplitFree(s[..|s| - 1], sep);
      assert s[|s| - 1] in s;
      assert s == s[..|s| - 1] + [s[|s| - 1]];
    }
  }

  lemma {:induction false} SplitConcat(a: string, b: string, sep: char)
    ensures Split(a + [sep] + b, sep) == Split(a, sep) + Split(b, sep)
  {
    var s := a + [sep] + b;
    if b == "" {
      assert s == a + [sep];
      assert s[..|s| - 1] == a;
    } else {
      var init, c := b[..|b| - 1], b[|b| - 1];
      var t := a + [sep] + init;
      assert s == t + [c];
      SplitSnoc(t, c, sep);
      SplitSnoc(init, c, sep);
      assert b == init + [c];
      SplitConcat(a, init, sep);
      ExtendConcat(Split(a, sep), Split(init, sep), c, sep);
    }
  }

  /** Joining is undone by splitting, as long as no part contains the separator. */
  lemma {:induction false} SplitJoin(parts: seq<string>, sep: char)
    requires parts != [] && Free(parts, sep)
    ensures Split(Join(parts, sep), sep) == parts
  {
    var last := parts[|parts| - 1];
    SplitFree(last, sep);
    if |parts| > 1 {
      var init := parts[..|parts| - 1];
      SplitJoin(init, sep);
      SplitConcat(Join(init, sep), last, sep);
      assert parts == init + [last];
    }
  }

  lemma JoinSnoc(parts: seq<string>, part: string, sep: char)
    ensures Join(parts + [part], sep) == if parts == [] then part else Join(parts, sep) + [sep] + part
  {
    assert (parts + [part])[..|parts|] == parts;
  }

  /** Splitting loses nothing: joining the parts gives the text back. */
  lemma {:induction false} JoinSplit(s: string, sep: char)
    ensures Join(Split(s, sep), sep) == s
  {
    if s != "" {
      var init, c := s[..|s| - 1], s[|s| - 1];
      JoinSplit(init, sep);
      JoinExtend(Split(init, sep), c, sep);
      assert s == init + [c];
    }
  }

  lemma JoinExtend(parts: seq<string>, c: char, sep: char)
    requires parts != []
    ensures Join(Extend(parts, c, sep), sep) == Join(parts, sep) + [c]
  {
    if c == sep {
      JoinSnoc(parts, "", sep);
      assert Join(parts, sep) + [sep] + "" == Join(parts, sep) + [c];
    } else {
      var front, last := parts[..|parts| - 1], parts[|parts| - 1];
      assert parts == front + [last];
      JoinSnoc(front, last, sep);
      JoinSnoc(front, last + [c], sep);
      if front != [] {
        var before := Join(front, sep) + [sep];
        assert before + (last + [c]) == (before + last) + [c];
      }
    }
  }
}
