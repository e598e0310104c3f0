// Source text as the indexer and the diff readers see it: a sequence of
// characters whose only line terminator is '\n'.

module Text {

  // The characters Python's str.strip() removes.
  predicate IsSpace(c: char) {
    var n := c as int;
    9 <= n <= 13 || 28 <= n <= 32 || n == 0x85 || n == 0xA0 || n == 0x1680 || 0x2000 <= n <= 0x200A
    || n == 0x2028 || n == 0x2029 || n == 0x202F || n == 0x205F || n == 0x3000
  }

  // `not text.strip()`
  predicate Blank(s: string) {
    forall i | 0 <= i < |s| :: IsSpace(s[i])
  }

  // What is left of a text once every white-space character is taken out.
  function Ink(s: string): string {
    if s == "" then ""
    else if IsSpace(s[0]) then Ink(s[1..])
    else [s[0]] + Ink(s[1..])
  }

  // text.count("\n")
  function Newlines(s: string): nat {
    if s == "" then 0 else (if s[0] == '\n' then 1 else 0) + Newlines(s[1..])
  }

  // Python's text[b:e] for non-negative bounds: out-of-range bounds are clipped.
  function Slice(s: string, b: nat, e: nat): string {
    var hi := if e <= |s| then e else |s|;
    if b < hi then s[b..hi] else ""
  }

  // The zero-based row of position b: the number of line terminators before it.
  function Row(s: string, b: nat): nat {
    Newlines(Slice(s, 0, b))
  }

  // text.split("\n")
  function Split(s: string): (ls: seq<string>)
    ensures |ls| > 0
  {
    if s == "" then [""]
    else
      var rest := Split(s[1..]);
      if s[0] == '\n' then [""] + rest else [[s[0]] + rest[0]] + rest[1..]
  }

  // text.splitlines(): a terminator at the very end opens no further line.
  function SplitLines(s: string): seq<string> {
    var ls := Split(s);
    if ls[|ls| - 1] == "" then ls[..|ls| - 1] else ls
  }

  // "\n".join(lines)
  function Join(ls: seq<string>): string {
    if |ls| == 0 then ""
    else if |ls| == 1 then ls[0]
    else ls[0] + "\n" + Join(ls[1..])
  }

  // "".join(texts)
  function Concat(ss: seq<string>): string {
    if ss == [] then "" else ss[0] + Concat(ss[1..])
  }

  predicate OneLine(s: string) {
    '\n' !in s
  }

  predicate AllOneLine(ls: seq<string>) {
    forall i | 0 <= i < |ls| :: OneLine(ls[i])
  }

  // ---- Blank and Ink ----

  lemma {:induction false} BlankConcat(a: string, b: string)
    ensures Blank(a + b) <==> Blank(a) && Blank(b)
  {
    if Blank(a + b) {
      forall i | 0 <= i < |a| ensures IsSpace(a[i]) { assert (a + b)[i] == a[i]; }
      forall i | 0 <= i < |b| ensures IsSpace(b[i]) { assert (a + b)[|a| + i] == b[i]; }
    }
  }

  lemma {:induction false} InkConcat(a: string, b: string)
    ensures Ink(a + b) == Ink(a) + Ink(b)
  {
    if a == "" {
      assert a + b == b;
    } else {
      var s := a + b;
      assert s[0] == a[0] && s[1..] == a[1..] + b;
      InkConcat(a[1..], b);
    }
  }

  lemma {:induction false} InkOfBlank(s: string)
    ensures Blank(s) <==> Ink(s) == ""
  {
    if s != "" {
      InkOfBlank(s[1..]);
      assert Blank(s) <==> IsSpace(s[0]) && Blank(s[1..]) by {
        BlankConcat([s[0]], s[1..]);
        assert [s[0]] + s[1..] == s;
        assert Blank([s[0]]) <==> IsSpace([s[0]][0]);
      }
    }
  }

  lemma {:induction false} BlankPrefixAt(s: string, k: nat, p: nat)
    requires p < k <= |s| && Blank(s[..k])
    ensures IsSpace(s[p])
  {
    assert s[..k][p] == s[p];
  }

  lemma {:induction false} BlankSuffixAt(s: string, k: nat, p: nat)
    requires k <= p < |s| && Blank(s[k..])
    ensures IsSpace(s[p])
  {
    assert s[k..][p - k] == s[p];
  }

  // White space at either end carries no ink.
  lemma {:induction false} InkTrim(s: string, a: nat, b: nat)
    requires a <= b <= |s| && Blank(s[..a]) && Blank(s[b..])
    ensures Ink(s[a..b]) == Ink(s)
  {
    InkConcat(s[..a], s[a..]);
    InkConcat(s[a..b], s[b..]);
    InkOfBlank(s[..a]);
    InkOfBlank(s[b..]);
    assert s == s[..a] + s[a..] && s[a..] == s[a..b] + s[b..];
  }

  // ---- Slices ----

  lemma {:induction false} SliceSplit(s: string, a: nat, b: nat, c: nat)
    requires a <= b <= c
    ensures Slice(s, a, c) == Slice(s, a, b) + Slice(s, b, c)
  {
  }

  // ---- Newlines and rows ----

  lemma {:induction false} NewlinesConcat(a: string, b: string)
    ensures Newlines(a + b) == Newlines(a) + Newlines(b)
  {
    if a == "" {
      assert a + b == b;
    } else {
      NewlinesConcat(a[1..], b);
      assert (a + b)[1..] == a[1..] + b;
    }
  }

  lemma {:induction false} RowAdvance(s: string, a: nat, b: nat)
    requires a <= b
    ensures Row(s, b) == Row(s, a) + Newlines(Slice(s, a, b))
  {
    SliceSplit(s, 0, a, b);
    NewlinesConcat(Slice(s, 0, a), Slice(s, a, b));
  }

  lemma {:induction false} RowMonotone(s: string, a: nat, b: nat)
    requires a <= b
    ensures Row(s, a) <= Row(s, b)
  {
    RowAdvance(s, a, b);
  }

  lemma {:induction false} NewlinesOfOneLine(s: string)
    ensures OneLine(s) <==> Newlines(s) == 0
  {
    if s != "" {
      NewlinesOfOneLine(s[1..]);
      assert s == [s[0]] + s[1..];
    }
  }

  // ---- Splitting and joining ----

  lemma {:induction false} SplitFacts(s: string)
    ensures |Split(s)| == Newlines(s) + 1
    ensures AllOneLine(Split(s))
  {
    if s != "" {
      SplitFacts(s[1..]);
      var rest := Split(s[1..]);
      if s[0] != '\n' {
        assert OneLine([s[0]] + rest[0]);
      }
    }
  }

  lemma {:induction false} JoinSplit(s: string)
    ensures Join(Split(s)) == s
  {
    if s != "" {
      JoinSplit(s[1..]);
      var rest := Split(s[1..]);
      if s[0] == '\n' {
        assert ([""] + rest)[1..] == rest;
        assert Join(Split(s)) == "" + "\n" + s[1..];
      } else {
        var ls := [[s[0]] + rest[0]] + rest[1..];
        assert ls[1..] == rest[1..];
        assert Join(ls) == [s[0]] + Join(rest);
      }
      assert s == [s[0]] + s[1..];
    }
  }

  lemma {:induction false} SplitOneLine(s: string)
    requires OneLine(s)
    ensures Split(s) == [s]
  {
    if s != "" {
      SplitOneLine(s[1..]);
      assert s == [s[0]] + s[1..];
    }
  }

  lemma {:induction false} SplitAfterLine(line: string, rest: string)
    requires OneLine(line)
    ensures Split(line + "\n" + rest) == [line] + Split(rest)
  {
    var s := line + "\n" + rest;
    if line == "" {
      assert s[1..] == rest;
    } else {
      SplitAfterLine(line[1..], rest);
      assert s[1..] == line[1..] + "\n" + rest;
      assert [line[0]] + line[1..] == line;
      assert ([line[1..]] + Split(rest))[1..] == Split(rest);
    }
  }

  lemma {:induction false} SplitJoin(ls: seq<string>)
    requires |ls| > 0 && AllOneLine(ls)
    ensures Split(Join(ls)) == ls
  {
    if |ls| == 1 {
      SplitOneLine(ls[0]);
    } else {
      SplitJoin(ls[1..]);
      SplitAfterLine(ls[0], Join(ls[1..]));
      assert ls == [ls[0]] + ls[1..];
    }
  }

  lemma {:induction false} JoinConcat(a: seq<string>, b: seq<string>)
    requires |a| > 0 && |b| > 0
    ensures Join(a + b) == Join(a) + "\n" + Join(b)
  {
    if |a| == 1 {
      assert (a + b)[1..] == b;
    } else {
      JoinConcat(a[1..], b);
      assert (a + b)[1..] == a[1..] + b;
    }
  }

  // Splitting joined lines again gives the lines back, except that one
  // trailing empty line is lost.
  lemma {:induction false} SplitLinesJoin(ls: seq<string>)
    requires AllOneLine(ls)
    ensures SplitLines(Join(ls)) == if |ls| > 0 && ls[|ls| - 1] == "" then ls[..|ls| - 1] else ls
  {
    if |ls| > 0 {
      SplitJoin(ls);
      var again := Split(Join(ls));
      assert again == ls && again[|again| - 1] == ls[|ls| - 1];
    } else {
      assert Split("") == [""];
    }
  }

  // A text is its lines joined, plus at most the final terminator.
  lemma {:induction false} JoinSplitLines(s: string)
    ensures AllOneLine(SplitLines(s))
    ensures s == Join(SplitLines(s)) || s == Join(SplitLines(s)) + "\n"
    ensures SplitLines(s) == [] <==> s == ""
    ensures s != "" && s[|s| - 1] != '\n' ==> s == Join(SplitLines(s))
  {
    JoinSplit(s);
    SplitFacts(s);
    var ls := Split(s);
    if ls[|ls| - 1] == "" && |ls| > 1 {
      JoinConcat(ls[..|ls| - 1], [""]);
      assert ls == ls[..|ls| - 1] + [""];
    }
  }

  lemma {:induction false} LastPiece(s: string)
    ensures Split(s)[|Split(s)| - 1] == "" <==> s == "" || s[|s| - 1] == '\n'
  {
    if s != "" {
      LastPiece(s[1..]);
      if |s| > 1 {
        assert s[1..][|s| - 2] == s[|s| - 1];
      }
    }
  }

  // A non-empty text has one line more than it has terminators before its last character.
  lemma {:induction false} LineCount(s: string)
    requires s != ""
    ensures |SplitLines(s)| == Newlines(s[..|s| - 1]) + 1
  {
    assert s == s[..|s| - 1] + [s[|s| - 1]];
    NewlinesConcat(s[..|s| - 1], [s[|s| - 1]]);
    SplitFacts(s);
    LastPiece(s);
  }

  // Joining with terminators adds no text but white space.
  lemma {:induction false} InkJoin(ls: seq<string>)
    ensures Ink(Join(ls)) == Ink(Concat(ls))
  {
    if |ls| == 1 {
      assert ls[1..] == [] && ls[0] + "" == ls[0];
    } else if |ls| > 1 {
      InkJoin(ls[1..]);
      InkConcat(ls[0] + "\n", Join(ls[1..]));
      InkConcat(ls[0], "\n");
      assert Ink("\n") == Ink("\n"[1..]);
      InkConcat(ls[0], Concat(ls[1..]));
    }
  }

  // ---- Where the lines of a text are ----

  // The position at which line i of the joined lines starts.
  function Offset(ls: seq<string>, i: nat): nat
    requires i <= |ls|
  {
    if i == 0 then 0 else |Join(ls[..i])| + 1
  }

  lemma {:induction false} JoinSplitAt(ls: seq<string>, i: nat)
    requires 0 < i < |ls|
    ensures Join(ls) == Join(ls[..i]) + "\n" + Join(ls[i..])
  {
    JoinConcat(ls[..i], ls[i..]);
    assert ls == ls[..i] + ls[i..];
  }

  lemma {:induction false} OffsetStep(ls: seq<string>, i: nat)
    requires i < |ls|
    ensures Offset(ls, i + 1) == Offset(ls, i) + |ls[i]| + 1
  {
    assert ls[..i + 1] == ls[..i] + [ls[i]];
    if i > 0 {
      JoinConcat(ls[..i], [ls[i]]);
    }
  }

  lemma {:induction false} OffsetMonotone(ls: seq<string>, i: nat, j: nat)
    requires i <= j <= |ls|
    ensures Offset(ls, i) <= Offset(ls, j)
    ensures i < j ==> Offset(ls, i) < Offset(ls, j)
    decreases j - i
  {
    if i < j {
      OffsetMonotone(ls, i, j - 1);
      OffsetStep(ls, j - 1);
    }
  }

  // Lines i..j joined are the text between their offsets.
  lemma {:induction false} JoinIsSlice(ls: seq<string>, i: nat, j: nat)
    requires i < j <= |ls|
    ensures Offset(ls, i) < Offset(ls, j) <= |Join(ls)| + 1
    ensures Join(ls[i..j]) == Join(ls)[Offset(ls, i)..Offset(ls, j) - 1]
    ensures j < |ls| ==> Offset(ls, j) <= |Join(ls)| && Join(ls)[Offset(ls, j) - 1] == '\n'
  {
    OffsetMonotone(ls, i, j);
    var head := ls[..j];
    if j < |ls| {
      JoinSplitAt(ls, j);
    } else {
      assert head == ls;
    }
    assert Join(ls)[..Offset(ls, j) - 1] == Join(head);
    if i > 0 {
      JoinSplitAt(head, i);
      assert head[..i] == ls[..i] && head[i..] == ls[i..j];
      assert Join(ls[i..j]) == Join(head)[Offset(ls, i)..];
    } else {
      assert ls[0..j] == head;
    }
  }

  // Line i starts on row i.
  lemma {:induction false} RowOfOffset(ls: seq<string>, i: nat)
    requires AllOneLine(ls) && i < |ls|
    ensures Offset(ls, i) <= |Join(ls)| && Row(Join(ls), Offset(ls, i)) == i
  {
    if i > 0 {
      JoinIsSlice(ls, 0, i);
      var head := Join(ls[..i]);
      assert ls[0..i] == ls[..i];
      assert Slice(Join(ls), 0, Offset(ls, i)) == head + "\n";
      NewlinesConcat(head, "\n");
      assert Newlines("\n") == 1 + Newlines("\n"[1..]);
      SplitJoin(ls[..i]);
      SplitFacts(head);
    }
  }

  // A position that is not a terminator lies inside the line its row names.
  lemma {:induction false} Locate(ls: seq<string>, p: nat)
    requires AllOneLine(ls) && ls != [] && p < |Join(ls)| && Join(ls)[p] != '\n'
    ensures Row(Join(ls), p) < |ls|
    ensures Offset(ls, Row(Join(ls), p)) <= p < Offset(ls, Row(Join(ls), p) + 1) - 1
  {
    var s := Join(ls);
    assert ls[..|ls|] == ls;
    var l := FindLine(ls, p, |ls|);
    RowOfOffset(ls, l);
    JoinIsSlice(ls, l, l + 1);
    RowAdvance(s, Offset(ls, l), p);
    var part := Slice(s, Offset(ls, l), p);
    assert OneLine(part) by {
      forall k | 0 <= k < |part| ensures part[k] != '\n' {
        assert ls[l..l + 1] == [ls[l]];
        assert part[k] == ls[l][k];
      }
    }
    NewlinesOfOneLine(part);
  }

  lemma {:induction false} FindLine(ls: seq<string>, p: nat, j: nat) returns (l: nat)
    requires AllOneLine(ls) && 0 < j <= |ls| && p < |Join(ls)| && Join(ls)[p] != '\n' && p < Offset(ls, j)
    ensures l < j && Offset(ls, l) <= p < Offset(ls, l + 1) - 1
  {
    if p < Offset(ls, j - 1) {
      l := FindLine(ls, p, j - 1);
    } else {
      l := j - 1;
      JoinIsSlice(ls, l, j);
      assert j == |ls| ==> ls[..j] == ls;
    }
  }
}
