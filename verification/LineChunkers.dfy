// Line-based chunking: a sliding window with overlap, and Markdown sections.

module LineChunkers {
  import opened Text
  import opened Chunks

  const SLIDING_WINDOW_LINES := 80
  const SLIDING_OVERLAP_LINES := 10
  const MARKDOWN_MAX_LINES := 200

  // `not any(line.strip() for line in lines)`
  predicate AllBlank(lines: seq<string>) {
    forall i | 0 <= i < |lines| :: Blank(lines[i])
  }

  function Min(a: nat, b: nat): nat {
    if a <= b then a else b
  }

  function Step(window: nat, overlap: nat): nat {
    if window > overlap then window - overlap else 1
  }

  function LineChunk(path: string, language: string, lines: seq<string>, i: nat, end: nat): ChunkSpec
    requires i <= end <= |lines|
  {
    ChunkSpec(path, language, i + 1, end, Join(lines[i..end]))
  }

  // The chunks from line i on.
  function Slides(path: string, language: string, lines: seq<string>, window: nat, overlap: nat, i: nat): seq<ChunkSpec>
    decreases |lines| - i
  {
    if i >= |lines| then []
    else
      var end := Min(|lines|, i + window);
      [LineChunk(path, language, lines, i, end)]
      + if end == |lines| then [] else Slides(path, language, lines, window, overlap, i + Step(window, overlap))
  }

  function Sliding(content: string, path: string, language: string, window: nat, overlap: nat): seq<ChunkSpec> {
    var lines := SplitLines(content);
    if AllBlank(lines) then [] else Slides(path, language, lines, window, overlap, 0)
  }

  method ChunkSliding(content: string, path: string, language: string, window: nat := SLIDING_WINDOW_LINES,
                      overlap: nat := SLIDING_OVERLAP_LINES)
    returns (chunks: seq<ChunkSpec>)
    ensures chunks == Sliding(content, path, language, window, overlap)
  {
    var lines := SplitLines(content);
    if |lines| == 0 || AllBlank(lines) {
      return [];
    }
    chunks := SlideWindows(lines, path, language, window, overlap);
  }

  method SlideWindows(lines: seq<string>, path: string, language: string, window: nat, overlap: nat)
    returns (chunks: seq<ChunkSpec>)
    ensures chunks == Slides(path, language, lines, window, overlap, 0)
  {
    chunks := [];
    var step := Step(window, overlap);
    var i := 0;
    var n := |lines|;
    ghost var all := Slides(path, language, lines, window, overlap, 0);
    while i < n
      invariant chunks + Slides(path, language, lines, window, overlap, i) == all
      decreases n - i
    {
      var end := Min(n, i + window);
      var text := Join(lines[i..end]);
      ghost var done := chunks;
      chunks := chunks + [ChunkSpec(path, language, i + 1, end, text)];
      assert chunks == done + [LineChunk(path, language, lines, i, end)];
      SlidesStep(path, language, lines, window, overlap, i, done);
      if end == n {
        return;
      }
      i := i + step;
    }
  }

  lemma {:induction false} SlidesStep(path: string, language: string, lines: seq<string>, window: nat, overlap: nat,
                                      i: nat, done: seq<ChunkSpec>)
    requires i < |lines|
    ensures
      var end := Min(|lines|, i + window);
      var next := done + [LineChunk(path, language, lines, i, end)];
      done + Slides(path, language, lines, window, overlap, i)
      == if end == |lines| then next
         else next + Slides(path, language, lines, window, overlap, i + Step(window, overlap))
  {
  }

  // ---- What the window delivers ----

  // The chunk holds exactly the file's lines at its reported range.
  ghost predicate Faithful(c: ChunkSpec, lines: seq<string>) {
    1 <= c.startLine <= c.endLine <= |lines| && c.content == Join(lines[c.startLine - 1..c.endLine])
  }

  // Number of windows needed for n lines, and its closed form.
  function WindowCount(n: nat, window: nat, overlap: nat): nat
    requires overlap < window
  {
    if n <= window then 1 else 1 + WindowCount(n - (window - overlap), window, overlap)
  }

  lemma {:induction false} WindowCountFormula(n: nat, window: nat, overlap: nat)
    requires overlap < window
    ensures WindowCount(n, window, overlap) == if n <= window then 1 else 1 + CeilDiv(n - window, window - overlap)
  {
    if n > window {
      WindowCountFormula(n - (window - overlap), window, overlap);
      CeilDivStep(n - window, window - overlap);
    }
  }

  function CeilDiv(a: nat, b: nat): nat
    requires b > 0
  {
    (a + b - 1) / b
  }

  lemma {:induction false} CeilDivStep(a: nat, b: nat)
    requires b > 0 && a > 0
    ensures CeilDiv(a, b) == 1 + if a <= b then 0 else CeilDiv(a - b, b)
  {
    var q := (a - 1) / b;
    assert (a + b - 1) / b == q + 1 by {
      assert a - 1 == q * b + (a - 1) % b;
      assert a + b - 1 == (q + 1) * b + (a - 1) % b;
      DivUnique(a + b - 1, b, q + 1, (a - 1) % b);
    }
    if a <= b {
      DivUnique(a - 1, b, 0, a - 1);
    }
  }

  lemma {:induction false} MulGap(x: nat, y: nat, b: nat)
    requires x < y
    ensures x * b + b <= y * b
  {
    var d := y - x - 1;
    assert y * b == (x + 1 + d) * b == x * b + b + d * b;
    assert d * b >= 0;
  }

  lemma {:induction false} DivUnique(a: nat, b: nat, q: nat, r: nat)
    requires b > 0 && a == q * b + r && r < b
    ensures a / b == q
  {
    var p := a / b;
    assert a == p * b + a % b && a % b < b;
    if p < q {
      MulGap(p, q, b);
    } else if p > q {
      MulGap(q, p, b);
    }
  }

  // A file has no window exactly if all its lines are blank.
  lemma {:induction false} SlidingEmptyIff(content: string, path: string, language: string, window: nat, overlap: nat)
    ensures Sliding(content, path, language, window, overlap) == []
       <==> forall l | 0 <= l < |SplitLines(content)| :: Blank(SplitLines(content)[l])
  {
  }

  // How far the window moves: by window - overlap lines, but at least by one.
  ghost predicate MovesBy(step: int, window: nat, overlap: nat) {
    step >= 1 && step >= window - overlap && (step == 1 || step == window - overlap)
  }

  // Window k starts k steps after line i, holds up to `window` lines from there,
  // and only the last reaches the end; for any window and overlap.
  lemma {:induction false} WindowAt(path: string, language: string, lines: seq<string>, window: nat, overlap: nat,
                                    i: nat, k: nat)
    returns (step: nat, a: nat, e: nat)
    requires k < |Slides(path, language, lines, window, overlap, i)|
    ensures MovesBy(step, window, overlap) && a == i + k * step && a < |lines|
    ensures e == (if a + window <= |lines| then a + window else |lines|)
    ensures Slides(path, language, lines, window, overlap, i)[k]
         == ChunkSpec(path, language, a + 1, e, Join(lines[a..e]))
    ensures k < |Slides(path, language, lines, window, overlap, i)| - 1 ==> e < |lines|
    ensures k == |Slides(path, language, lines, window, overlap, i)| - 1 ==> e == |lines| || a + step >= |lines|
    decreases k
  {
    step := Step(window, overlap);
    if k == 0 {
      a, e := i, Min(|lines|, i + window);
    } else {
      step, a, e := WindowAt(path, language, lines, window, overlap, i + Step(window, overlap), k - 1);
      assert i + step + (k - 1) * step == i + k * step;
    }
  }

  // The windows from line i: as many as predicted, in steps of window - overlap,
  // each full except possibly the last, which ends with the file.
  lemma {:induction false} SlidesCount(path: string, language: string, lines: seq<string>, window: nat, overlap: nat,
                                       i: nat)
    requires overlap < window && i < |lines|
    ensures |Slides(path, language, lines, window, overlap, i)| == WindowCount(|lines| - i, window, overlap)
    decreases |lines| - i
  {
    var cs, n := Slides(path, language, lines, window, overlap, i), |lines| - i;
    if i + window < |lines| {
      var next := i + (window - overlap);
      assert |cs| == 1 + |Slides(path, language, lines, window, overlap, next)|;
      SlidesCount(path, language, lines, window, overlap, next);
      assert |lines| - next == n - (window - overlap);
    } else {
      assert cs == [LineChunk(path, language, lines, i, |lines|)];
    }
  }

  lemma {:induction false} SlidesRow(path: string, language: string, lines: seq<string>, window: nat, overlap: nat,
                                     i: nat)
    requires overlap < window && i < |lines|
    ensures WindowRow(Slides(path, language, lines, window, overlap, i), lines, window, overlap, i)
    decreases |lines| - i
  {
    if i + window < |lines| {
      var rest := Slides(path, language, lines, window, overlap, i + Step(window, overlap));
      SlidesRow(path, language, lines, window, overlap, i + Step(window, overlap));
      WindowRowCons(LineChunk(path, language, lines, i, i + window), rest, lines, window, overlap, i);
    } else {
      assert Slides(path, language, lines, window, overlap, i) == [LineChunk(path, language, lines, i, |lines|)];
    }
  }

  // A row of windows from line i on: each but the last is full, neighbours
  // share exactly `overlap` lines and neither contains the other, and the last
  // ends with the file.
  ghost predicate WindowRow(cs: seq<ChunkSpec>, lines: seq<string>, window: nat, overlap: nat, i: nat) {
    && cs != []
    && cs[0].startLine == i + 1
    && cs[|cs| - 1].endLine == |lines|
    && (forall k | 0 <= k < |cs| :: Faithful(cs[k], lines) && cs[k].endLine - cs[k].startLine + 1 <= window)
    && (forall k | 0 <= k < |cs| - 1 :: Follows(cs[k], cs[k + 1], window, overlap))
  }

  ghost predicate Follows(c: ChunkSpec, d: ChunkSpec, window: nat, overlap: nat) {
    && c.endLine - c.startLine + 1 == window
    && d.startLine == c.endLine - overlap + 1
    && c.startLine < d.startLine && c.endLine < d.endLine
  }

  lemma {:induction false} WindowRowCons(c: ChunkSpec, rest: seq<ChunkSpec>, lines: seq<string>, window: nat,
                                         overlap: nat, i: nat)
    requires overlap < window && i + window < |lines|
    requires Faithful(c, lines) && c.startLine == i + 1 && c.endLine == i + window
    requires WindowRow(rest, lines, window, overlap, i + window - overlap)
    ensures WindowRow([c] + rest, lines, window, overlap, i)
  {
    var cs := [c] + rest;
    assert rest[0].endLine > c.endLine by {
      if |rest| > 1 {
        assert Follows(rest[0], rest[1], window, overlap);
      }
    }
    forall k | 0 <= k < |cs| - 1 ensures Follows(cs[k], cs[k + 1], window, overlap) {
      if k > 0 {
        assert Follows(rest[k - 1], rest[k], window, overlap);
      }
    }
  }

  // A chunk's own lines.
  function ChunkLines(c: ChunkSpec): seq<string> {
    Split(c.content)
  }

  // Put the chunks back together: all of the first, and every later one
  // without its first `overlap` lines.
  function Stitch(cs: seq<ChunkSpec>, overlap: nat): seq<string> {
    if cs == [] then []
    else if |cs| == 1 then ChunkLines(cs[0])
    else
      var last := ChunkLines(cs[|cs| - 1]);
      Stitch(cs[..|cs| - 1], overlap) + if overlap <= |last| then last[overlap..] else []
  }

  lemma {:induction false} FaithfulLines(c: ChunkSpec, lines: seq<string>)
    requires Faithful(c, lines) && AllOneLine(lines)
    ensures ChunkLines(c) == lines[c.startLine - 1..c.endLine]
  {
    SplitJoin(lines[c.startLine - 1..c.endLine]);
  }

  lemma {:induction false} StitchPrefix(cs: seq<ChunkSpec>, overlap: nat, window: nat, lines: seq<string>, k: nat)
    requires AllOneLine(lines) && overlap < window && 1 <= k <= |cs| && WindowRow(cs, lines, window, overlap, 0)
    ensures Faithful(cs[k - 1], lines) && Stitch(cs[..k], overlap) == lines[..cs[k - 1].endLine]
  {
    var c := cs[k - 1];
    FaithfulLines(c, lines);
    if k > 1 {
      var a, e := c.startLine - 1, c.endLine;
      assert Follows(cs[k - 2], c, window, overlap);
      assert Stitch(cs[..k - 1], overlap) == lines[..a + overlap] by {
        StitchPrefix(cs, overlap, window, lines, k - 1);
      }
      assert cs[..k][..k - 1] == cs[..k - 1];
      assert lines[a..e][overlap..] == lines[a + overlap..e];
      assert lines[..a + overlap] + lines[a + overlap..e] == lines[..e];
    }
  }

  // The number of chunks of a file that is not blank.
  lemma {:induction false} SlidingCount(content: string, path: string, language: string, window: nat, overlap: nat)
    requires overlap < window && !AllBlank(SplitLines(content))
    ensures var n := |SplitLines(content)|;
            |Sliding(content, path, language, window, overlap)| == if n <= window then 1
                else 1 + CeilDiv(n - window, window - overlap)
  {
    var lines := SplitLines(content);
    assert |Slides(path, language, lines, window, overlap, 0)| == WindowCount(|lines|, window, overlap) by {
      SlidesCount(path, language, lines, window, overlap, 0);
    }
    WindowCountFormula(|lines|, window, overlap);
  }

  // Sliding windows lose no line: stitched together they are the file.
  lemma {:induction false} SlidingRestores(content: string, path: string, language: string, window: nat, overlap: nat)
    requires overlap < window && !AllBlank(SplitLines(content))
    ensures Stitch(Sliding(content, path, language, window, overlap), overlap) == SplitLines(content)
  {
    var lines, cs := SplitLines(content), Sliding(content, path, language, window, overlap);
    JoinSplitLines(content);
    SlidesRow(path, language, lines, window, overlap, 0);
    StitchPrefix(cs, overlap, window, lines, |cs|);
    assert cs[..|cs|] == cs && lines[..|lines|] == lines;
  }

  ghost predicate SomeChunkHasLine(cs: seq<ChunkSpec>, l: nat) {
    exists k :: 0 <= k < |cs| && cs[k].startLine <= l + 1 <= cs[k].endLine
  }

  // Every line is in some window, whatever the window and overlap (if the window is not empty).
  lemma {:induction false} SlidesCover(path: string, language: string, lines: seq<string>, window: nat, overlap: nat,
                                       i: nat, l: nat)
    requires window > 0 && i <= l < |lines|
    ensures SomeChunkHasLine(Slides(path, language, lines, window, overlap, i), l)
    decreases |lines| - i
  {
    var cs := Slides(path, language, lines, window, overlap, i);
    if l < i + window {
      assert cs[0].startLine <= l + 1 <= cs[0].endLine;
    } else {
      var rest := Slides(path, language, lines, window, overlap, i + Step(window, overlap));
      SlidesCover(path, language, lines, window, overlap, i + Step(window, overlap), l);
      var k :| 0 <= k < |rest| && rest[k].startLine <= l + 1 <= rest[k].endLine;
      assert cs[k + 1] == rest[k];
    }
  }
}
