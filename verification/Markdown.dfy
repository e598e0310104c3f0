// Markdown sections: split at level-one and level-two headings; a section of
// more than MARKDOWN_MAX_LINES lines is cut by the sliding window.

module Markdown {
  import opened Text
  import opened Chunks
  import opened LineChunkers

  // The heading pattern: one or two '#' at the start of the line (with its
  // terminator), then a white-space character.
  predicate IsHeading(line: string) {
    var s := line + "\n";
    && s[0] == '#'
    && (IsSpace(s[1]) || (s[1] == '#' && IsSpace(s[2])))
  }

  // One or two hash signs at the start of the line, then white space or its end.
  lemma {:induction false} HeadingExactly(line: string)
    ensures IsHeading(line) <==>
              || (line == "#" || line == "##")
              || (|line| > 1 && line[..1] == "#" && IsSpace(line[1]))
              || (|line| > 2 && line[..2] == "##" && IsSpace(line[2]))
  {
    if |line| > 1 {
      assert line[..2] == [line[0], line[1]];
    }
  }

  // Heading rows from i on, other than row 0.
  function Headings(lines: seq<string>, i: nat): seq<nat>
    decreases |lines| - i
  {
    if i >= |lines| then []
    else (if IsHeading(lines[i]) && i != 0 then [i] else []) + Headings(lines, i + 1)
  }

  function Boundaries(lines: seq<string>): seq<nat> {
    [0] + Headings(lines, 0) + [|lines|]
  }

  function Shift(c: ChunkSpec, start: nat): ChunkSpec {
    c.(startLine := start + c.startLine, endLine := start + c.endLine)
  }

  function ShiftAll(cs: seq<ChunkSpec>, start: nat): seq<ChunkSpec> {
    seq(|cs|, i requires 0 <= i < |cs| => Shift(cs[i], start))
  }

  function Section(path: string, lines: seq<string>, start: nat, end: nat): seq<ChunkSpec>
    requires start <= end <= |lines|
  {
    if AllBlank(lines[start..end]) then []
    else if end - start > MARKDOWN_MAX_LINES then
      ShiftAll(Sliding(Join(lines[start..end]), path, "markdown", SLIDING_WINDOW_LINES, SLIDING_OVERLAP_LINES), start)
    else [ChunkSpec(path, "markdown", start + 1, end, Join(lines[start..end]))]
  }

  // Boundary rows run from 0 to the last line without going back.
  ghost predicate Bounds(bs: seq<nat>, n: nat) {
    && |bs| >= 2 && bs[0] == 0 && bs[|bs| - 1] == n
    && (forall i | 0 <= i < |bs| :: bs[i] <= n)
    && (forall i | 0 <= i < |bs| - 1 :: bs[i] <= bs[i + 1])
    && (n > 0 ==> forall i | 0 <= i < |bs| - 1 :: bs[i] < bs[i + 1])
  }

  // The chunks of the sections before boundary k.
  function Sections(path: string, lines: seq<string>, bs: seq<nat>, k: nat): seq<ChunkSpec>
    requires k < |bs|
    requires forall i | 0 <= i < |bs| :: bs[i] <= |lines|
    requires forall i | 0 <= i < |bs| - 1 :: bs[i] <= bs[i + 1]
  {
    if k == 0 then [] else Sections(path, lines, bs, k - 1) + Section(path, lines, bs[k - 1], bs[k])
  }

  function MarkdownChunks(content: string, path: string): seq<ChunkSpec> {
    var lines := SplitLines(content);
    var bs := Boundaries(lines);
    BoundariesOk(lines);
    Sections(path, lines, bs, |bs| - 1)
  }

  method ChunkMarkdown(content: string, path: string) returns (chunks: seq<ChunkSpec>)
    ensures chunks == MarkdownChunks(content, path)
  {
    var lines := SplitLines(content);
    var boundaries := FindBoundaries(lines);
    BoundariesOk(lines);
    chunks := [];
    var i := 0;
    while i < |boundaries| - 1
      invariant 0 <= i < |boundaries|
      invariant chunks == Sections(path, lines, boundaries, i)
    {
      var start, end := boundaries[i], boundaries[i + 1];
      var sectionLines := lines[start..end];
      i := i + 1;
      if AllBlank(sectionLines) {
        continue;
      }
      assert Sections(path, lines, boundaries, i)
          == Sections(path, lines, boundaries, i - 1) + Section(path, lines, start, end);
      if end - start > MARKDOWN_MAX_LINES {
        var sectionText := Join(sectionLines);
        var sub := ChunkSliding(sectionText, path, "markdown");
        SlidingMarks(sectionText, path, "markdown", SLIDING_WINDOW_LINES, SLIDING_OVERLAP_LINES);
        chunks := AppendShifted(chunks, sub, path, start);
      } else {
        chunks := chunks + [ChunkSpec(path, "markdown", start + 1, end, Join(sectionLines))];
      }
    }
  }

  method FindBoundaries(lines: seq<string>) returns (boundaries: seq<nat>)
    ensures boundaries == Boundaries(lines)
  {
    boundaries := [0];
    var idx := 0;
    while idx < |lines|
      invariant 0 <= idx <= |lines|
      invariant boundaries + Headings(lines, idx) == [0] + Headings(lines, 0)
    {
      if IsHeading(lines[idx]) && idx != 0 {
        boundaries := boundaries + [idx];
      }
      idx := idx + 1;
    }
    boundaries := boundaries + [|lines|];
  }

  // Move sub-chunk line numbers into the file's frame.
  method AppendShifted(before: seq<ChunkSpec>, sub: seq<ChunkSpec>, path: string, start: nat)
    returns (chunks: seq<ChunkSpec>)
    requires forall k | 0 <= k < |sub| :: sub[k].filePath == path && sub[k].language == "markdown"
    ensures chunks == before + ShiftAll(sub, start)
  {
    chunks := before;
    var j := 0;
    while j < |sub|
      invariant 0 <= j <= |sub|
      invariant chunks == before + ShiftAll(sub, start)[..j]
    {
      var sc := sub[j];
      chunks := chunks + [ChunkSpec(path, "markdown", start + sc.startLine, start + sc.endLine, sc.content)];
      j := j + 1;
    }
  }

  lemma {:induction false} SlidesMarks(path: string, language: string, lines: seq<string>, window: nat, overlap: nat,
                                       i: nat, k: nat)
    requires k < |Slides(path, language, lines, window, overlap, i)|
    ensures Slides(path, language, lines, window, overlap, i)[k].filePath == path
    ensures Slides(path, language, lines, window, overlap, i)[k].language == language
    decreases |lines| - i
  {
    if k > 0 {
      SlidesMarks(path, language, lines, window, overlap, i + Step(window, overlap), k - 1);
    }
  }

  lemma {:induction false} SlidingMarks(content: string, path: string, language: string, window: nat, overlap: nat)
    ensures forall k | 0 <= k < |Sliding(content, path, language, window, overlap)| ::
              Sliding(content, path, language, window, overlap)[k].filePath == path
              && Sliding(content, path, language, window, overlap)[k].language == language
  {
    var cs := Sliding(content, path, language, window, overlap);
    forall k | 0 <= k < |cs| ensures cs[k].filePath == path && cs[k].language == language {
      SlidesMarks(path, language, SplitLines(content), window, overlap, 0, k);
    }
  }

  // ---- Boundaries ----

  lemma {:induction false} HeadingsAt(lines: seq<string>, i: nat)
    ensures forall k | 0 <= k < |Headings(lines, i)| ::
              i <= Headings(lines, i)[k] < |lines| && 0 < Headings(lines, i)[k]
                  && IsHeading(lines[Headings(lines, i)[k]])
    ensures forall k | 0 <= k < |Headings(lines, i)| - 1 :: Headings(lines, i)[k] < Headings(lines, i)[k + 1]
    ensures forall r: nat | i <= r < |lines| && 0 < r && IsHeading(lines[r]) :: r in Headings(lines, i)
    decreases |lines| - i
  {
    if i < |lines| {
      HeadingsAt(lines, i + 1);
    }
  }

  lemma {:induction false} BoundariesOk(lines: seq<string>)
    ensures Bounds(Boundaries(lines), |lines|)
  {
    HeadingsAt(lines, 0);
  }

  // A row strictly inside the file is a boundary exactly when it is a heading.
  lemma {:induction false} BoundaryIffHeading(lines: seq<string>, r: nat)
    requires 0 < r < |lines|
    ensures r in Boundaries(lines) <==> IsHeading(lines[r])
  {
    HeadingsAt(lines, 0);
  }

  // ---- What the sections deliver ----

  lemma {:induction false} BlankStretch(lines: seq<string>, start: nat, end: nat)
    requires start <= end <= |lines|
    ensures AllBlank(lines[start..end]) <==> forall l | start <= l < end :: Blank(lines[l])
  {
    if AllBlank(lines[start..end]) {
      forall l | start <= l < end ensures Blank(lines[l]) {
        assert lines[start..end][l - start] == lines[l];
      }
    }
  }

  // The lines the sliding window sees again after joining: the section's,
  // without one trailing empty line if there is one.
  lemma {:induction false} ResplitSection(lines: seq<string>, start: nat, end: nat) returns (m: nat)
    requires AllOneLine(lines) && start < end <= |lines|
    ensures m == (if lines[end - 1] == "" then end - 1 else end)
    ensures SplitLines(Join(lines[start..end])) == lines[start..m]
  {
    m := if lines[end - 1] == "" then end - 1 else end;
    SplitLinesJoin(lines[start..end]);
  }

  // The chunk holds the file's lines at its range, and the range lies in rows start..end.
  ghost predicate FaithfulInside(c: ChunkSpec, lines: seq<string>, start: nat, end: nat) {
    Faithful(c, lines) && start < c.startLine && c.endLine <= end
  }

  lemma {:induction false} StretchOfStretch(lines: seq<string>, start: nat, m: nat, a: nat, b: nat)
    requires start <= m <= |lines| && a <= b <= m - start
    ensures lines[start..m][a..b] == lines[start + a..start + b]
  {
    var x, y := lines[start..m][a..b], lines[start + a..start + b];
    forall i | 0 <= i < b - a ensures x[i] == y[i] {
      assert lines[start..m][a + i] == lines[start + a + i];
    }
    assert x == y;
  }

  lemma {:induction false} ShiftFaithful(c: ChunkSpec, lines: seq<string>, start: nat, m: nat)
    requires start <= m <= |lines| && Faithful(c, lines[start..m])
    ensures FaithfulInside(Shift(c, start), lines, start, m)
  {
    StretchOfStretch(lines, start, m, c.startLine - 1, c.endLine);
  }

  lemma {:induction false} BigSectionFaithful(path: string, lines: seq<string>, start: nat, end: nat, k: nat)
    requires AllOneLine(lines) && end <= |lines| && end - start > MARKDOWN_MAX_LINES
    requires k < |Section(path, lines, start, end)|
    ensures FaithfulInside(Section(path, lines, start, end)[k], lines, start, end)
  {
    var m := ResplitSection(lines, start, end);
    SlidesRow(path, "markdown", lines[start..m], SLIDING_WINDOW_LINES, SLIDING_OVERLAP_LINES, 0);
    var sub := Sliding(Join(lines[start..end]), path, "markdown", SLIDING_WINDOW_LINES, SLIDING_OVERLAP_LINES);
    ShiftFaithful(sub[k], lines, start, m);
  }

  // Every chunk of a section holds the file's lines at its range, which lies in the section.
  lemma {:induction false} SectionFaithful(path: string, lines: seq<string>, start: nat, end: nat, k: nat)
    requires AllOneLine(lines) && start <= end <= |lines| && k < |Section(path, lines, start, end)|
    ensures FaithfulInside(Section(path, lines, start, end)[k], lines, start, end)
  {
    if end - start > MARKDOWN_MAX_LINES {
      BigSectionFaithful(path, lines, start, end, k);
    } else {
      assert start < end by { BlankStretch(lines, start, end); }
    }
  }

  // Every line of a section that is not blank is in one of its chunks.
  lemma {:induction false} SectionCovers(path: string, lines: seq<string>, start: nat, end: nat, l: nat)
    requires AllOneLine(lines) && start <= l < end <= |lines| && !Blank(lines[l])
    ensures SomeChunkHasLine(Section(path, lines, start, end), l)
  {
    BlankStretch(lines, start, end);
    var cs := Section(path, lines, start, end);
    if end - start > MARKDOWN_MAX_LINES {
      var m := ResplitSection(lines, start, end);
      var again := lines[start..m];
      assert l < m by { assert Blank(""); }
      assert again[l - start] == lines[l];
      SlidesCover(path, "markdown", again, SLIDING_WINDOW_LINES, SLIDING_OVERLAP_LINES, 0, l - start);
      var sub := Slides(path, "markdown", again, SLIDING_WINDOW_LINES, SLIDING_OVERLAP_LINES, 0);
      var k :| 0 <= k < |sub| && sub[k].startLine <= l - start + 1 <= sub[k].endLine;
      assert cs[k] == Shift(sub[k], start);
      assert cs[k].startLine <= l + 1 <= cs[k].endLine;
    } else {
      assert cs[0].startLine <= l + 1 <= cs[0].endLine;
    }
  }

  lemma {:induction false} SectionsFaithful(path: string, lines: seq<string>, bs: seq<nat>, k: nat, i: nat)
    requires AllOneLine(lines) && Bounds(bs, |lines|) && k < |bs| && i < |Sections(path, lines, bs, k)|
    ensures Faithful(Sections(path, lines, bs, k)[i], lines)
    ensures Sections(path, lines, bs, k)[i].endLine <= bs[k]
  {
    var before := Sections(path, lines, bs, k - 1);
    if i < |before| {
      SectionsFaithful(path, lines, bs, k - 1, i);
    } else {
      SectionFaithful(path, lines, bs[k - 1], bs[k], i - |before|);
    }
  }

  lemma {:induction false} SectionsCover(path: string, lines: seq<string>, bs: seq<nat>, k: nat, l: nat)
    requires AllOneLine(lines) && Bounds(bs, |lines|) && k < |bs| && l < bs[k] && !Blank(lines[l])
    ensures SomeChunkHasLine(Sections(path, lines, bs, k), l)
  {
    var before, last := Sections(path, lines, bs, k - 1), Section(path, lines, bs[k - 1], bs[k]);
    var cs := Sections(path, lines, bs, k);
    if l < bs[k - 1] {
      SectionsCover(path, lines, bs, k - 1, l);
      var i :| 0 <= i < |before| && before[i].startLine <= l + 1 <= before[i].endLine;
      assert cs[i] == before[i];
    } else {
      SectionCovers(path, lines, bs[k - 1], bs[k], l);
      var i :| 0 <= i < |last| && last[i].startLine <= l + 1 <= last[i].endLine;
      assert cs[|before| + i] == last[i];
    }
  }

  lemma {:induction false} InSection(path: string, lines: seq<string>, start: nat, end: nat, c: ChunkSpec)
    requires AllOneLine(lines) && start <= end <= |lines| && c in Section(path, lines, start, end)
    ensures FaithfulInside(c, lines, start, end)
  {
    var i :| 0 <= i < |Section(path, lines, start, end)| && Section(path, lines, start, end)[i] == c;
    SectionFaithful(path, lines, start, end, i);
  }

  // Chunks of different sections never share a line.
  lemma {:induction false} SectionsApart(path: string, lines: seq<string>, bs: seq<nat>, j: nat, k: nat, c: ChunkSpec,
                                         d: ChunkSpec)
    requires AllOneLine(lines) && Bounds(bs, |lines|) && j < k < |bs| - 1
    requires c in Section(path, lines, bs[j], bs[j + 1]) && d in Section(path, lines, bs[k], bs[k + 1])
    ensures c.endLine < d.startLine
  {
    InSection(path, lines, bs[j], bs[j + 1], c);
    InSection(path, lines, bs[k], bs[k + 1], d);
    BoundsMonotone(bs, |lines|, j + 1, k);
  }

  lemma {:induction false} BoundsMonotone(bs: seq<nat>, n: nat, j: nat, k: nat)
    requires Bounds(bs, n) && j <= k < |bs|
    ensures bs[j] <= bs[k]
    decreases k - j
  {
    if j < k {
      BoundsMonotone(bs, n, j, k - 1);
    }
  }

  lemma {:induction false} MarkdownLinesTrue(content: string, path: string, i: nat)
    requires i < |MarkdownChunks(content, path)|
    ensures Faithful(MarkdownChunks(content, path)[i], SplitLines(content))
  {
    var lines := SplitLines(content);
    JoinSplitLines(content);
    BoundariesOk(lines);
    SectionsFaithful(path, lines, Boundaries(lines), |Boundaries(lines)| - 1, i);
  }

  lemma {:induction false} MarkdownCovers(content: string, path: string, l: nat)
    requires l < |SplitLines(content)| && !Blank(SplitLines(content)[l])
    ensures SomeChunkHasLine(MarkdownChunks(content, path), l)
  {
    var lines := SplitLines(content);
    JoinSplitLines(content);
    BoundariesOk(lines);
    SectionsCover(path, lines, Boundaries(lines), |Boundaries(lines)| - 1, l);
  }

  // The whole file: each chunk's content is the file's lines at its reported
  // range, and every line that is not blank is in some chunk.
  lemma {:induction false} MarkdownFaithful(content: string, path: string)
    ensures forall i | 0 <= i < |MarkdownChunks(content, path)| ::
              Faithful(MarkdownChunks(content, path)[i], SplitLines(content))
    ensures forall l: nat | l < |SplitLines(content)| && !Blank(SplitLines(content)[l]) ::
              SomeChunkHasLine(MarkdownChunks(content, path), l)
  {
    forall i | 0 <= i < |MarkdownChunks(content, path)|
        ensures Faithful(MarkdownChunks(content, path)[i], SplitLines(content)) {
      MarkdownLinesTrue(content, path, i);
    }
    forall l: nat | l < |SplitLines(content)| && !Blank(SplitLines(content)[l])
        ensures SomeChunkHasLine(MarkdownChunks(content, path), l) {
      MarkdownCovers(content, path, l);
    }
  }

  // ---- What becomes of each section ----

  // From the first row or a heading up to the next heading or the end.
  ghost predicate IsSection(lines: seq<string>, start: nat, end: nat) {
    && start < end <= |lines|
    && (start == 0 || IsHeading(lines[start])) && (end == |lines| || IsHeading(lines[end]))
    && forall r | start < r < end :: !IsHeading(lines[r])
  }

  // Nothing for a blank section, one chunk for up to 200 lines, and otherwise
  // the windows of its text, moved to where the section starts.
  ghost predicate ChunksSection(path: string, lines: seq<string>, start: nat, end: nat, own: seq<ChunkSpec>)
    requires start <= end <= |lines|
  {
    var text := Join(lines[start..end]);
    if forall l | start <= l < end :: Blank(lines[l]) then own == []
    else if end - start <= 200 then own == [ChunkSpec(path, "markdown", start + 1, end, text)]
    else
      var windows := Sliding(text, path, "markdown", 80, 10);
      && |own| == |windows|
      && forall k | 0 <= k < |own| ::
           && own[k].startLine == start + windows[k].startLine && own[k].endLine == start + windows[k].endLine
           && own[k].content == windows[k].content && own[k].filePath == path && own[k].language == "markdown"
  }

  lemma {:induction false} SectionAsIs(path: string, lines: seq<string>, start: nat, end: nat)
    requires start <= end <= |lines|
    ensures ChunksSection(path, lines, start, end, Section(path, lines, start, end))
  {
    BlankStretch(lines, start, end);
    var windows := Sliding(Join(lines[start..end]), path, "markdown", 80, 10);
    assert forall k | 0 <= k < |windows| :: windows[k].filePath == path && windows[k].language == "markdown" by {
      SlidingMarks(Join(lines[start..end]), path, "markdown", 80, 10);
    }
    ShiftedAll(windows, start);
  }

  lemma {:induction false} ShiftedAll(windows: seq<ChunkSpec>, start: nat)
    ensures
      var own := ShiftAll(windows, start);
      && |own| == |windows|
      && forall k | 0 <= k < |own| ::
           && own[k].startLine == start + windows[k].startLine && own[k].endLine == start + windows[k].endLine
           && own[k].content == windows[k].content
           && own[k].filePath == windows[k].filePath && own[k].language == windows[k].language
  {
  }

  lemma {:induction false} SectionAt(lines: seq<string>, start: nat, end: nat) returns (k: nat)
    requires IsSection(lines, start, end)
    ensures k + 1 < |Boundaries(lines)| && Boundaries(lines)[k] == start && Boundaries(lines)[k + 1] == end
  {
    var bs := Boundaries(lines);
    BoundariesOk(lines);
    assert start in bs && end in bs by {
      assert bs[0] == 0 && bs[|bs| - 1] == |lines|;
      if start > 0 { BoundaryIffHeading(lines, start); }
      if end < |lines| { BoundaryIffHeading(lines, end); }
    }
    k :| 0 <= k < |bs| && bs[k] == start;
    var m :| 0 <= m < |bs| && bs[m] == end;
    assert k < m by {
      if m <= k { BoundsMonotone(bs, |lines|, m, k); }
    }
    if k + 1 < m {
      BoundsMonotone(bs, |lines|, k + 1, m - 1);
      assert start < bs[k + 1] < end && bs[k + 1] in bs;
      BoundaryIffHeading(lines, bs[k + 1]);
    }
  }

  lemma {:induction false} LastSection(path: string, lines: seq<string>, bs: seq<nat>, n: nat)
    returns (last: seq<ChunkSpec>)
    requires Bounds(bs, |lines|) && 0 < n < |bs|
    ensures last == Section(path, lines, bs[n - 1], bs[n])
    ensures Sections(path, lines, bs, n) == Sections(path, lines, bs, n - 1) + last
  {
    last := Section(path, lines, bs[n - 1], bs[n]);
  }

  lemma {:induction false} Followed<T>(a: seq<T>, b: seq<T>, c: seq<T>) returns (bc: seq<T>)
    ensures a + bc == a + b + c
  {
    bc := b + c;
  }

  lemma {:induction false} SectionAmong(path: string, lines: seq<string>, bs: seq<nat>, k: nat, n: nat)
    returns (before: seq<ChunkSpec>, own: seq<ChunkSpec>, after: seq<ChunkSpec>)
    requires Bounds(bs, |lines|) && k + 1 <= n < |bs|
    ensures own == Section(path, lines, bs[k], bs[k + 1])
    ensures Sections(path, lines, bs, n) == before + own + after
    decreases n
  {
    var last := LastSection(path, lines, bs, n);
    if n == k + 1 {
      before, own, after := Sections(path, lines, bs, k), last, [];
    } else {
      before, own, after := SectionAmong(path, lines, bs, k, n - 1);
      after := Followed(before + own, after, last);
    }
  }

  // Every section of the file is chunked on its own, and in place.
  lemma {:induction false} EachSectionChunked(content: string, path: string, start: nat, end: nat)
    returns (before: seq<ChunkSpec>, own: seq<ChunkSpec>, after: seq<ChunkSpec>)
    requires IsSection(SplitLines(content), start, end)
    ensures MarkdownChunks(content, path) == before + own + after
    ensures ChunksSection(path, SplitLines(content), start, end, own)
  {
    var lines := SplitLines(content);
    var bs := Boundaries(lines);
    BoundariesOk(lines);
    var k := SectionAt(lines, start, end);
    before, own, after := SectionAmong(path, lines, bs, k, |bs| - 1);
    SectionAsIs(path, lines, start, end);
  }
}
