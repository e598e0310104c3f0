// Line ranges of a diff's new side, per file, read from the diff text.

module DiffHunks {
  import opened Text
  import opened Chunks
  import opened UnifiedDiff
  import DiffWindows

  type FileHunks = map<string, seq<DiffWindows.Hunk>>

  function StripLeft(s: string): string {
    if s != "" && IsSpace(s[0]) then StripLeft(s[1..]) else s
  }

  function StripRight(s: string): string {
    if s != "" && IsSpace(s[|s| - 1]) then StripRight(s[..|s| - 1]) else s
  }

  // ^\+\+\+ b/(.+)$  -- the path, stripped
  function FileHeader(line: string): Option<string> {
    if "+++ b/" <= line && |line| > 6 then Some(StripRight(StripLeft(line[6..]))) else None
  }

  lemma {:induction false} LeftStripped(s: string) returns (a: string)
    ensures s == a + StripLeft(s) && Blank(a) && (StripLeft(s) == "" || !IsSpace(StripLeft(s)[0]))
  {
    a := "";
    if s != "" && IsSpace(s[0]) {
      var rest := LeftStripped(s[1..]);
      a := [s[0]] + rest;
      assert s == [s[0]] + s[1..];
      BlankConcat([s[0]], rest);
    }
  }

  lemma {:induction false} RightStripped(s: string) returns (b: string)
    ensures s == StripRight(s) + b && Blank(b)
    ensures StripRight(s) == "" || !IsSpace(StripRight(s)[|StripRight(s)| - 1])
  {
    b := "";
    if s != "" && IsSpace(s[|s| - 1]) {
      var n := |s| - 1;
      var rest := RightStripped(s[..n]);
      b := rest + [s[n]];
      assert s == s[..n] + [s[n]];
      BlankConcat(rest, [s[n]]);
    }
  }

  // A file header is "+++ b/" and at least one character; the path is what
  // follows without the white space at its ends.
  lemma {:induction false} FileHeaderExactly(line: string) returns (a: string, b: string)
    ensures FileHeader(line).Some? <==> |line| > 6 && line[..6] == "+++ b/"
    ensures FileHeader(line).Some? ==>
              var path := FileHeader(line).value;
              && line == "+++ b/" + (a + path + b) && Blank(a) && Blank(b)
              && (path == "" || (!IsSpace(path[0]) && !IsSpace(path[|path| - 1])))
  {
    a, b := "", "";
    if FileHeader(line).Some? {
      var s := line[6..];
      a := LeftStripped(s);
      b := RightStripped(StripLeft(s));
      assert line == line[..6] + s;
    }
  }

  datatype Scan = Scan(current: Option<string>, out: FileHunks)

  function Append(out: FileHunks, path: string, hunks: seq<DiffWindows.Hunk>): FileHunks {
    if hunks == [] then out
    else out[path := (if path in out then out[path] else []) + hunks]
  }

  // One line of the loop.
  function ScanLine(st: Scan, raw: string): Scan {
    if FileHeader(raw).Some? then st.(current := FileHeader(raw))
    else if st.current.None? then st
    else
      match ParseHeader(raw)
      case None => st
      case Some(h) => st.(out := Append(st.out, st.current.value, RangeOf(h.start, h.count)))
  }

  // One line: a file header changes the current file; a hunk header under a
  // current file adds its range there if it starts at 1 or later and is not
  // empty, a count left out meaning 1; nothing else does anything.
  lemma {:induction false} ScanLineExactly(st: Scan, raw: string)
    ensures
      var st', h := ScanLine(st, raw), ParseHeader(raw);
      if FileHeader(raw).Some? then st' == Scan(FileHeader(raw), st.out)
      else if st.current.None? || h.None? then st' == st
      else
        var path, length := st.current.value, if h.value.count.Some? then h.value.count.value else 1;
        if h.value.start == 0 || length == 0 then st' == st
        else
          && st'.current == st.current && st'.out.Keys == st.out.Keys + {path}
          && st'.out[path] == (if path in st.out then st.out[path] else []) + [(h.value.start, length)]
          && forall p | p in st.out && p != path :: st'.out[p] == st.out[p]
  {
  }

  // A header with an empty new side, or none at all, reports nothing.
  function RangeOf(start: nat, count: Option<nat>): seq<DiffWindows.Hunk> {
    if start <= 0 || Length(count) <= 0 then [] else [(start, Length(count))]
  }

  function ScanLines(st: Scan, lines: seq<string>): Scan
    decreases |lines|
  {
    if lines == [] then st else ScanLines(ScanLine(st, lines[0]), lines[1..])
  }

  function ReadHunks(lines: seq<string>): FileHunks {
    ScanLines(Scan(None, map[]), lines).out
  }

  function RhsHunks(diff: string): FileHunks {
    ReadHunks(SplitLines(diff))
  }

  method ExtractRhsHunks(diff: string) returns (out: FileHunks)
    ensures out == RhsHunks(diff)
  {
    var lines := SplitLines(diff);
    var currentFile: Option<string> := None;
    out := map[];
    var i := 0;
    assert lines[0..] == lines;
    while i < |lines|
      invariant 0 <= i <= |lines|
      invariant ScanLines(Scan(currentFile, out), lines[i..]).out == RhsHunks(diff)
    {
      var raw := lines[i];
      assert lines[i..][0] == raw && lines[i..][1..] == lines[i + 1..];
      i := i + 1;
      var mFile := FileHeader(raw);
      if mFile.Some? {
        currentFile := mFile;
        continue;
      }
      if currentFile.None? {
        continue;
      }
      var mHunk := ParseHeader(raw);
      if mHunk.None? {
        continue;
      }
      var start := mHunk.value.start;
      var length := if mHunk.value.count.Some? then mHunk.value.count.value else 1;
      if start <= 0 || length <= 0 {
        continue;
      }
      var path := currentFile.value;
      ghost var before := out;
      if path !in out {
        out := out[path := []];
      }
      out := out[path := out[path] + [(start, length)]];
      assert out == Append(before, path, [(start, length)]);
    }
  }

  // ---- Scanning a written diff ----

  // The ranges a file's hunk headers announce.
  function Announced(hs: seq<Hunk>): seq<DiffWindows.Hunk> {
    if hs == [] then [] else RangeOf(hs[0].newStart, hs[0].newCount) + Announced(hs[1..])
  }

  // The last line of `lines` that reads as a file header names the current file.
  function LastHeader(current: Option<string>, lines: seq<string>): Option<string>
    decreases |lines|
  {
    if lines == [] then current
    else LastHeader(if FileHeader(lines[0]).Some? then FileHeader(lines[0]) else current, lines[1..])
  }

  lemma {:induction false} ScanConcat(st: Scan, a: seq<string>, b: seq<string>)
    ensures ScanLines(st, a + b) == ScanLines(ScanLines(st, a), b)
    decreases |a|
  {
    if a == [] {
      assert a + b == b;
    } else {
      assert ScanLines(st, a + b) == ScanLines(ScanLine(st, a[0]), a[1..] + b) by {
        assert (a + b)[1..] == a[1..] + b;
      }
      ScanConcat(ScanLine(st, a[0]), a[1..], b);
    }
  }

  // A body adds no range; it may change the current file.
  lemma {:induction false} ScanBody(st: Scan, body: seq<BodyLine>)
    ensures ScanLines(st, BodyTexts(body)) == Scan(LastHeader(st.current, BodyTexts(body)), st.out)
    decreases |body|
  {
    if body != [] {
      var raw := BodyText(body[0]);
      BodyIsNoHeader(body[0]);
      assert BodyTexts(body)[1..] == BodyTexts(body[1..]);
      ScanBody(ScanLine(st, raw), body[1..]);
    }
  }

  lemma {:induction false} HeaderIsNoFile(h: Hunk)
    ensures FileHeader(HeaderLine(h)) == None
  {
    assert HeaderLine(h)[0] == '@';
  }

  lemma {:induction false} ScanHunk(st: Scan, h: Hunk)
    requires st.current.Some?
    ensures ScanLines(st, HunkLines(h))
         == Scan(LastHeader(st.current, BodyTexts(h.body)),
             Append(st.out, st.current.value, RangeOf(h.newStart, h.newCount)))
  {
    HeaderRoundTrip(h);
    HeaderIsNoFile(h);
    assert HunkLines(h)[1..] == BodyTexts(h.body);
    ScanBody(ScanLine(st, HeaderLine(h)), h.body);
  }

  // Every hunk that announces a range is read while `path` is the current file.
  ghost predicate Attributed(path: string, current: Option<string>, hs: seq<Hunk>)
    decreases |hs|
  {
    hs == []
    || ((RangeOf(hs[0].newStart, hs[0].newCount) != [] ==> current == Some(path))
        && Attributed(path, LastHeader(current, BodyTexts(hs[0].body)), hs[1..]))
  }

  lemma {:induction false} LastHeaderSome(current: Option<string>, lines: seq<string>)
    requires current.Some?
    ensures LastHeader(current, lines).Some?
    decreases |lines|
  {
    if lines != [] {
      LastHeaderSome(if FileHeader(lines[0]).Some? then FileHeader(lines[0]) else current, lines[1..]);
    }
  }

  lemma {:induction false} AppendTwice(out: FileHunks, path: string, a: seq<DiffWindows.Hunk>, b: seq<DiffWindows.Hunk>)
    ensures Append(Append(out, path, a), path, b) == Append(out, path, a + b)
  {
    if a == [] {
      assert a + b == b;
    } else if b == [] {
      assert a + b == a;
    } else {
      var had := if path in out then out[path] else [];
      assert had + a + b == had + (a + b);
    }
  }

  lemma {:induction false} ScanAttributed(st: Scan, path: string, hs: seq<Hunk>)
    requires st.current.Some? && Attributed(path, st.current, hs)
    ensures ScanLines(st, PatchLines(hs)).out == Append(st.out, path, Announced(hs))
    ensures ScanLines(st, PatchLines(hs)).current.Some?
    decreases |hs|
  {
    if hs != [] {
      var r := RangeOf(hs[0].newStart, hs[0].newCount);
      var st' := ScanLines(st, HunkLines(hs[0]));
      ScanHunk(st, hs[0]);
      LastHeaderSome(st.current, BodyTexts(hs[0].body));
      ScanConcat(st, HunkLines(hs[0]), PatchLines(hs[1..]));
      ScanAttributed(st', path, hs[1..]);
      AppendTwice(st.out, path, r, Announced(hs[1..]));
      assert st'.out == Append(st.out, path, r);
    }
  }

  // A range read under another name puts that name among the files.
  lemma {:induction false} ScanMisattributed(st: Scan, path: string, hs: seq<Hunk>) returns (other: string)
    requires st.current.Some? && !Attributed(path, st.current, hs)
    ensures other != path && other in ScanLines(st, PatchLines(hs)).out
    decreases |hs|
  {
    var st', rest := ScanLines(st, HunkLines(hs[0])), PatchLines(hs[1..]);
    ScanHunk(st, hs[0]);
    LastHeaderSome(st.current, BodyTexts(hs[0].body));
    ScanConcat(st, HunkLines(hs[0]), rest);
    if RangeOf(hs[0].newStart, hs[0].newCount) != [] && st.current != Some(path) {
      other := st.current.value;
      ScanKeepsKeys(st', rest, other);
    } else {
      other := ScanMisattributed(st', path, hs[1..]);
    }
  }

  lemma {:induction false} ScanKeepsKeys(st: Scan, lines: seq<string>, key: string)
    requires key in st.out
    ensures key in ScanLines(st, lines).out
    decreases |lines|
  {
    if lines != [] {
      ScanKeepsKeys(ScanLine(st, lines[0]), lines[1..], key);
    }
  }

  // ---- One file's diff ----

  function FileDiff(path: string, hs: seq<Hunk>): seq<string> {
    ["+++ b/" + path] + PatchLines(hs)
  }

  // A path as git prints it: not empty, no white space at either end.
  ghost predicate PlainPath(path: string) {
    path != "" && !IsSpace(path[0]) && !IsSpace(path[|path| - 1])
  }

  lemma {:induction false} PathBack(path: string)
    requires PlainPath(path)
    ensures FileHeader("+++ b/" + path) == Some(path)
  {
    assert ("+++ b/" + path)[..6] == "+++ b/" && ("+++ b/" + path)[6..] == path;
  }

  // A file's ranges are read exactly as its hunk headers announce them if and
  // only if no line of a hunk body reads as the header of another file ahead
  // of a later range.
  lemma {:induction false} ExtractionExactIff(path: string, hs: seq<Hunk>)
    requires PlainPath(path)
    ensures ReadHunks(FileDiff(path, hs)) == Append(map[], path, Announced(hs))
       <==> Attributed(path, Some(path), hs)
  {
    var st := Scan(Some(path), map[]);
    PathBack(path);
    assert FileDiff(path, hs)[1..] == PatchLines(hs);
    assert ScanLines(Scan(None, map[]), FileDiff(path, hs)) == ScanLines(st, PatchLines(hs));
    if Attributed(path, Some(path), hs) {
      ScanAttributed(st, path, hs);
    } else {
      var other := ScanMisattributed(st, path, hs);
    }
  }

  // An added line whose text is "++ b/" and more reads as a file header.
  ghost predicate Plain(hs: seq<Hunk>) {
    forall k, i | 0 <= k < |hs| && 0 <= i < |hs[k].body| :: FileHeader(BodyText(hs[k].body[i])) == None
  }

  lemma {:induction false} PlainKeepsCurrent(current: Option<string>, body: seq<BodyLine>)
    requires forall i | 0 <= i < |body| :: FileHeader(BodyText(body[i])) == None
    ensures LastHeader(current, BodyTexts(body)) == current
  {
    if body != [] {
      assert BodyTexts(body)[1..] == BodyTexts(body[1..]);
      PlainKeepsCurrent(current, body[1..]);
    }
  }

  lemma {:induction false} PlainIsAttributed(path: string, hs: seq<Hunk>)
    requires Plain(hs)
    ensures Attributed(path, Some(path), hs)
    decreases |hs|
  {
    if hs != [] {
      PlainKeepsCurrent(Some(path), hs[0].body);
      assert forall k, i | 0 <= k < |hs[1..]| && 0 <= i < |hs[1..][k].body| ::
          FileHeader(BodyText(hs[1..][k].body[i])) == None by {
        assert forall k | 0 <= k < |hs[1..]| :: hs[1..][k] == hs[k + 1];
      }
      PlainIsAttributed(path, hs[1..]);
    }
  }

  // The smallest diff that is misread: the second hunk goes to file "x".
  lemma {:induction false} SpoofedHeader()
    ensures var hs := [Hunk(0, Some(0), 1, None, "", [Added("++ b/x")]), Hunk(7, Some(0), 9, None, "", [Added("y")])];
            ReadHunks(FileDiff("f", hs)) != Append(map[], "f", Announced(hs))
  {
    var h1, h2 := Hunk(0, Some(0), 1, None, "", [Added("++ b/x")]), Hunk(7, Some(0), 9, None, "", [Added("y")]);
    var hs := [h1, h2];
    var spoof := BodyText(h1.body[0]);
    assert spoof == "+++ b/x";
    PathBack("x");
    var texts := BodyTexts(h1.body);
    assert texts == [spoof] && texts[1..] == [];
    assert LastHeader(Some("f"), texts) == LastHeader(Some("x"), texts[1..]) == Some("x");
    assert hs[1..][0] == h2;
    ExtractionExactIff("f", hs);
  }

  // ---- A diff of several files ----

  // `path` is None for a deleted file, whose new side is empty.
  datatype Section = Section(preamble: seq<string>, path: Option<string>, hunks: seq<Hunk>)

  function SectionLines(s: Section): seq<string> {
    s.preamble + (if s.path.Some? then FileDiff(s.path.value, s.hunks) else ["+++ /dev/null"] + PatchLines(s.hunks))
  }

  function DiffLines(ss: seq<Section>): seq<string> {
    if ss == [] then [] else SectionLines(ss[0]) + DiffLines(ss[1..])
  }

  // Lines before the file header ("diff --git", "index", "--- a/...") announce nothing.
  ghost predicate Inert(lines: seq<string>) {
    forall i | 0 <= i < |lines| :: FileHeader(lines[i]) == None && ParseHeader(lines[i]) == None
  }

  // A section as git writes it: what comes before it is inert, and a deleted
  // file announces nothing.
  ghost predicate ReadableSection(s: Section) {
    && Inert(s.preamble)
    && match s.path
       case Some(p) => PlainPath(p)
       case None => Announced(s.hunks) == []
  }

  // Every range the section announces is read while its own file is current.
  ghost predicate SectionAttributed(s: Section) {
    s.path.Some? ==> Attributed(s.path.value, s.path, s.hunks)
  }

  function Expected(out: FileHunks, ss: seq<Section>): FileHunks
    decreases |ss|
  {
    if ss == [] then out
    else Expected(if ss[0].path.Some? then Append(out, ss[0].path.value, Announced(ss[0].hunks)) else out, ss[1..])
  }

  lemma {:induction false} ScanInert(st: Scan, lines: seq<string>)
    requires Inert(lines)
    ensures ScanLines(st, lines) == st
    decreases |lines|
  {
    if lines != [] {
      ScanInert(ScanLine(st, lines[0]), lines[1..]);
    }
  }

  // Hunks that announce nothing add nothing, whatever the current file.
  lemma {:induction false} ScanSilent(st: Scan, hs: seq<Hunk>)
    requires Announced(hs) == []
    ensures ScanLines(st, PatchLines(hs)).out == st.out
    decreases |hs|
  {
    if hs != [] {
      assert RangeOf(hs[0].newStart, hs[0].newCount) == [] && Announced(hs[1..]) == [];
      HeaderRoundTrip(hs[0]);
      HeaderIsNoFile(hs[0]);
      assert ScanLine(st, HeaderLine(hs[0])) == st;
      assert HunkLines(hs[0])[1..] == BodyTexts(hs[0].body);
      ScanBody(st, hs[0].body);
      ScanConcat(st, HunkLines(hs[0]), PatchLines(hs[1..]));
      ScanSilent(ScanLines(st, HunkLines(hs[0])), hs[1..]);
    }
  }

  // Reading a section: its header makes its file the current one.
  lemma {:induction false} ScanSectionHunks(st: Scan, s: Section)
    requires ReadableSection(s)
    ensures s.path.Some? ==> ScanLines(st, SectionLines(s)) == ScanLines(Scan(s.path, st.out), PatchLines(s.hunks))
    ensures s.path.None? ==> ScanLines(st, SectionLines(s)).out == st.out
  {
    ScanInert(st, s.preamble);
    if s.path.Some? {
      var p := s.path.value;
      ScanConcat(st, s.preamble, FileDiff(p, s.hunks));
      PathBack(p);
      assert FileDiff(p, s.hunks)[1..] == PatchLines(s.hunks);
    } else {
      var lines := ["+++ /dev/null"] + PatchLines(s.hunks);
      ScanConcat(st, s.preamble, lines);
      assert lines[1..] == PatchLines(s.hunks);
      assert "+++ /dev/null"[4] != "+++ b/"[4];
      assert "+++ /dev/null"[0] != '@';
      assert ScanLine(st, "+++ /dev/null") == st;
      ScanSilent(st, s.hunks);
    }
  }

  lemma {:induction false} ScanSection(st: Scan, s: Section)
    requires ReadableSection(s) && SectionAttributed(s)
    ensures ScanLines(st, SectionLines(s)).out
         == if s.path.Some? then Append(st.out, s.path.value, Announced(s.hunks)) else st.out
  {
    ScanSectionHunks(st, s);
    if s.path.Some? {
      ScanAttributed(Scan(s.path, st.out), s.path.value, s.hunks);
    }
  }

  // Where no section is misread, every file gets exactly the ranges its hunk
  // headers announce.
  lemma {:induction false} ExtractionExact(st: Scan, ss: seq<Section>)
    requires forall k | 0 <= k < |ss| :: ReadableSection(ss[k]) && SectionAttributed(ss[k])
    ensures ScanLines(st, DiffLines(ss)).out == Expected(st.out, ss)
    decreases |ss|
  {
    if ss != [] {
      ScanSection(st, ss[0]);
      ScanConcat(st, SectionLines(ss[0]), DiffLines(ss[1..]));
      ExtractionExact(ScanLines(st, SectionLines(ss[0])), ss[1..]);
    }
  }

  // The same about the diff as one text.
  lemma {:induction false} ExtractionExactText(diff: string, ss: seq<Section>)
    requires SplitLines(diff) == DiffLines(ss)
    requires forall k | 0 <= k < |ss| :: ReadableSection(ss[k]) && SectionAttributed(ss[k])
    ensures RhsHunks(diff) == Expected(map[], ss)
  {
    ExtractionExact(Scan(None, map[]), ss);
  }

  // Without a body line that reads as a file header no section is misread.
  lemma {:induction false} PlainSectionsAttributed(ss: seq<Section>)
    requires forall k | 0 <= k < |ss| :: Plain(ss[k].hunks)
    ensures forall k | 0 <= k < |ss| :: SectionAttributed(ss[k])
  {
    forall k | 0 <= k < |ss| && ss[k].path.Some? ensures SectionAttributed(ss[k]) {
      PlainIsAttributed(ss[k].path.value, ss[k].hunks);
    }
  }

  // The ranges reported for a file.
  function RangesFor(out: FileHunks, path: string): seq<DiffWindows.Hunk> {
    if path in out then out[path] else []
  }

  lemma {:induction false} ExpectedElsewhere(out: FileHunks, ss: seq<Section>, path: string)
    requires forall k | 0 <= k < |ss| :: ss[k].path != Some(path)
    ensures RangesFor(Expected(out, ss), path) == RangesFor(out, path)
    decreases |ss|
  {
    if ss != [] {
      var s := ss[0];
      ExpectedElsewhere(if s.path.Some? then Append(out, s.path.value, Announced(s.hunks)) else out, ss[1..], path);
    }
  }

  // A file with one section gets the ranges of that section.
  lemma {:induction false} ExpectedFor(out: FileHunks, ss: seq<Section>, path: string, k: nat)
    requires k < |ss| && ss[k].path == Some(path)
    requires forall j | 0 <= j < |ss| && j != k :: ss[j].path != Some(path)
    ensures RangesFor(Expected(out, ss), path) == RangesFor(out, path) + Announced(ss[k].hunks)
    decreases |ss|
  {
    var s := ss[0];
    var out' := if s.path.Some? then Append(out, s.path.value, Announced(s.hunks)) else out;
    if k == 0 {
      ExpectedElsewhere(out', ss[1..], path);
    } else {
      ExpectedFor(out', ss[1..], path, k - 1);
    }
  }

  // ---- When a diff of several files is read exactly ----

  // The ranges of hs that are read under `path`.
  function Under(path: string, current: Option<string>, hs: seq<Hunk>): seq<DiffWindows.Hunk>
    decreases |hs|
  {
    if hs == [] then []
    else (if current == Some(path) then RangeOf(hs[0].newStart, hs[0].newCount) else [])
         + Under(path, LastHeader(current, BodyTexts(hs[0].body)), hs[1..])
  }

  lemma {:induction false} ScanUnder(st: Scan, path: string, hs: seq<Hunk>)
    requires st.current.Some?
    ensures RangesFor(ScanLines(st, PatchLines(hs)).out, path) == RangesFor(st.out, path) + Under(path, st.current, hs)
    decreases |hs|
  {
    if hs != [] {
      var st', own := ScanFirst(st, path, hs);
      var had, rest := RangesFor(st.out, path), Under(path, st'.current, hs[1..]);
      ScanUnder(st', path, hs[1..]);
      assert had + own + rest == had + (own + rest);
    }
  }

  // The state after the first hunk, and what that adds to `path`.
  lemma {:induction false} ScanFirst(st: Scan, path: string, hs: seq<Hunk>)
    returns (st': Scan, own: seq<DiffWindows.Hunk>)
    requires st.current.Some? && hs != []
    ensures st'.current.Some? && ScanLines(st, PatchLines(hs)) == ScanLines(st', PatchLines(hs[1..]))
    ensures RangesFor(st'.out, path) == RangesFor(st.out, path) + own
    ensures Under(path, st.current, hs) == own + Under(path, st'.current, hs[1..])
  {
    var r := RangeOf(hs[0].newStart, hs[0].newCount);
    own := if st.current == Some(path) then r else [];
    st' := Scan(LastHeader(st.current, BodyTexts(hs[0].body)), Append(st.out, st.current.value, r));
    ScanHunk(st, hs[0]);
    LastHeaderSome(st.current, BodyTexts(hs[0].body));
    ScanConcat(st, HunkLines(hs[0]), PatchLines(hs[1..]));
    RangesAppended(st.out, st.current.value, r, path);
  }

  lemma {:induction false} RangesAppended(out: FileHunks, key: string, rs: seq<DiffWindows.Hunk>, path: string)
    ensures RangesFor(Append(out, key, rs), path) == RangesFor(out, path) + if key == path then rs else []
  {
  }

  // A misread range is missing under the file's own name.
  lemma {:induction false} UnderFewer(path: string, current: Option<string>, hs: seq<Hunk>)
    ensures |Under(path, current, hs)| <= |Announced(hs)|
    ensures !Attributed(path, current, hs) ==> |Under(path, current, hs)| < |Announced(hs)|
    decreases |hs|
  {
    if hs != [] {
      UnderFewer(path, LastHeader(current, BodyTexts(hs[0].body)), hs[1..]);
    }
  }

  // What is attributed to one file is not read under another.
  lemma {:induction false} UnderOther(path: string, own: string, current: Option<string>, hs: seq<Hunk>)
    requires Attributed(own, current, hs) && path != own
    ensures Under(path, current, hs) == []
    decreases |hs|
  {
    if hs != [] {
      UnderOther(path, own, LastHeader(current, BodyTexts(hs[0].body)), hs[1..]);
    }
  }

  // A hunk that announces nothing adds no line.
  ghost predicate Counted(hs: seq<Hunk>) {
    forall k | 0 <= k < |hs| && RangeOf(hs[k].newStart, hs[k].newCount) == [] :: NewSide(hs[k].body) == []
  }

  lemma {:induction false} NothingNewKeepsCurrent(current: Option<string>, body: seq<BodyLine>)
    requires NewSide(body) == []
    ensures LastHeader(current, BodyTexts(body)) == current
    decreases |body|
  {
    if body != [] {
      assert body[0].Removed? || body[0].NoNewlineMark?;
      assert BodyText(body[0])[0] != '+';
      assert BodyTexts(body)[1..] == BodyTexts(body[1..]);
      NothingNewKeepsCurrent(current, body[1..]);
    }
  }

  // A file's first range is always read as its own.
  lemma {:induction false} UnderFirst(path: string, hs: seq<Hunk>)
    requires Counted(hs) && Announced(hs) != []
    ensures Under(path, Some(path), hs) != [] && Under(path, Some(path), hs)[0] == Announced(hs)[0]
    decreases |hs|
  {
    if RangeOf(hs[0].newStart, hs[0].newCount) == [] {
      NothingNewKeepsCurrent(Some(path), hs[0].body);
      assert forall k | 0 <= k < |hs[1..]| :: hs[1..][k] == hs[k + 1];
      UnderFirst(path, hs[1..]);
    }
  }

  // The ranges of one file come in rising order.
  ghost predicate Rising(rs: seq<DiffWindows.Hunk>) {
    forall i, j | 0 <= i < j < |rs| :: rs[i].0 < rs[j].0
  }

  // Each file has one section, with its hunks in order.
  ghost predicate WrittenDiff(ss: seq<Section>) {
    && (forall k | 0 <= k < |ss| :: ReadableSection(ss[k]) && Counted(ss[k].hunks) && Rising(Announced(ss[k].hunks)))
    && (forall j, k | 0 <= j < k < |ss| && ss[j].path.Some? :: ss[j].path != ss[k].path)
  }

  lemma {:induction false} AnnouncedAt(hs: seq<Hunk>, m: nat) returns (k: nat)
    requires m < |Announced(hs)|
    ensures k < |hs| && Length(hs[k].newCount) > 0 && Announced(hs)[m].0 == hs[k].newStart
    decreases |hs|
  {
    var first := |RangeOf(hs[0].newStart, hs[0].newCount)|;
    if m < first {
      k := 0;
    } else {
      var j := AnnouncedAt(hs[1..], m - first);
      k := j + 1;
    }
  }

  // Both hold of the hunks of a diff to some new file.
  lemma {:induction false} DiffIsOrdered(hs: seq<Hunk>, newFile: seq<string>)
    requires DiffTo(hs, newFile)
    ensures Counted(hs) && Rising(Announced(hs))
    decreases |hs|
  {
    if hs != [] {
      var rest, first := hs[1..], |RangeOf(hs[0].newStart, hs[0].newCount)|;
      assert forall k | 0 <= k < |rest| :: rest[k] == hs[k + 1];
      DiffIsOrdered(rest, newFile);
      if first > 0 {
        forall m | 0 <= m < |Announced(rest)| ensures hs[0].newStart < Announced(rest)[m].0 {
          var k := AnnouncedAt(rest, m);
          assert hs[k + 1] == rest[k];
        }
      }
      forall k | 0 <= k < |hs| && RangeOf(hs[k].newStart, hs[k].newCount) == [] ensures NewSide(hs[k].body) == [] {
        assert Matches(hs[k], newFile);
      }
    }
  }

  // Sections of other files that are not misread add nothing to `path`.
  lemma {:induction false} ScanOthers(st: Scan, ss: seq<Section>, path: string)
    requires forall k | 0 <= k < |ss| :: ReadableSection(ss[k]) && SectionAttributed(ss[k]) && ss[k].path != Some(path)
    ensures RangesFor(ScanLines(st, DiffLines(ss)).out, path) == RangesFor(st.out, path)
  {
    ExtractionExact(st, ss);
    ExpectedElsewhere(st.out, ss, path);
  }

  lemma {:induction false} DiffLinesCons(s: Section, ss: seq<Section>)
    ensures DiffLines([s] + ss) == SectionLines(s) + DiffLines(ss)
  {
    assert ([s] + ss)[1..] == ss;
  }

  lemma {:induction false} DiffLinesConcat(a: seq<Section>, b: seq<Section>)
    ensures DiffLines(a + b) == DiffLines(a) + DiffLines(b)
    decreases |a|
  {
    if a == [] {
      assert a + b == b;
    } else {
      var s, rest := a[0], a[1..];
      assert a == [s] + rest && a + b == [s] + (rest + b);
      DiffLinesCons(s, rest);
      DiffLinesCons(s, rest + b);
      DiffLinesConcat(rest, b);
      Regroup(SectionLines(s), DiffLines(rest), DiffLines(b));
    }
  }

  lemma {:induction false} Regroup<T>(a: seq<T>, b: seq<T>, c: seq<T>)
    ensures a + (b + c) == a + b + c
  {
  }

  lemma {:induction false} DiffLinesSplit(ss: seq<Section>, k: nat)
    requires k < |ss|
    ensures DiffLines(ss) == DiffLines(ss[..k]) + SectionLines(ss[k]) + DiffLines(ss[k + 1..])
  {
    var before, later := ss[..k], ss[k + 1..];
    assert ss == before + ([ss[k]] + later);
    DiffLinesConcat(before, [ss[k]] + later);
    DiffLinesCons(ss[k], later);
  }

  // With section k the last one that is misread, its file gets ranges of
  // earlier sections, if any, and then fewer than its own.
  lemma {:induction false} LastMisread(ss: seq<Section>, k: nat) returns (foreign: seq<DiffWindows.Hunk>)
    requires WrittenDiff(ss) && k < |ss| && !SectionAttributed(ss[k])
    requires forall j | k < j < |ss| :: SectionAttributed(ss[j])
    ensures RangesFor(ReadHunks(DiffLines(ss)), ss[k].path.value)
         == foreign + Under(ss[k].path.value, ss[k].path, ss[k].hunks)
  {
    var p, later := ss[k].path.value, ss[k + 1..];
    var st := ScanLines(Scan(None, map[]), DiffLines(ss[..k]));
    foreign := RangesFor(st.out, p);
    DiffLinesSplit(ss, k);
    ScanConcat(Scan(None, map[]), DiffLines(ss[..k]), SectionLines(ss[k]));
    ScanConcat(Scan(None, map[]), DiffLines(ss[..k]) + SectionLines(ss[k]), DiffLines(later));
    ScanSectionHunks(st, ss[k]);
    ScanUnder(Scan(ss[k].path, st.out), p, ss[k].hunks);
    forall j | 0 <= j < |later|
      ensures ReadableSection(later[j]) && SectionAttributed(later[j]) && later[j].path != Some(p)
    {
      assert later[j] == ss[k + 1 + j];
    }
    ScanOthers(ScanLines(st, SectionLines(ss[k])), later, p);
  }

  // Foreign ranges cannot make up for the missing ones: the file's first range
  // would come twice.
  lemma {:induction false} ForeignShows(foreign: seq<DiffWindows.Hunk>, path: string, hs: seq<Hunk>)
    requires Counted(hs) && Rising(Announced(hs)) && !Attributed(path, Some(path), hs)
    ensures foreign + Under(path, Some(path), hs) != Announced(hs)
  {
    UnderFewer(path, Some(path), hs);
    UnderFirst(path, hs);
    var own, all := Under(path, Some(path), hs), Announced(hs);
    assert (foreign + own)[|foreign|] == own[0];
    if 0 < |foreign| < |all| {
      assert all[0].0 < all[|foreign|].0;
    }
  }

  lemma {:induction false} LastUnattributed(ss: seq<Section>) returns (k: nat)
    requires exists j :: 0 <= j < |ss| && !SectionAttributed(ss[j])
    ensures k < |ss| && !SectionAttributed(ss[k]) && forall j | k < j < |ss| :: SectionAttributed(ss[j])
  {
    var j :| 0 <= j < |ss| && !SectionAttributed(ss[j]);
    k := |ss| - 1;
    while SectionAttributed(ss[k])
      invariant j <= k < |ss| && forall i | k < i < |ss| :: SectionAttributed(ss[i])
      decreases k
    {
      k := k - 1;
    }
  }

  // A diff of any number of files is read exactly as its hunk headers announce
  // if and only if in no file a body line reads as the header of another one
  // ahead of a later range.
  lemma {:induction false} DiffExactIff(diff: string, ss: seq<Section>)
    requires SplitLines(diff) == DiffLines(ss) && WrittenDiff(ss)
    ensures RhsHunks(diff) == Expected(map[], ss) <==> forall k | 0 <= k < |ss| :: SectionAttributed(ss[k])
  {
    if forall k | 0 <= k < |ss| :: SectionAttributed(ss[k]) {
      ExtractionExactText(diff, ss);
    } else {
      var k := LastUnattributed(ss);
      var p := ss[k].path.value;
      var foreign := LastMisread(ss, k);
      ForeignShows(foreign, p, ss[k].hunks);
      ExpectedFor(map[], ss, p, k);
      assert [] + Announced(ss[k].hunks) == Announced(ss[k].hunks);
    }
  }

  // Every reported range starts at line 1 or later and is not empty.
  ghost predicate Positive(out: FileHunks) {
    forall p, k | p in out && 0 <= k < |out[p]| :: out[p][k].0 >= 1 && out[p][k].1 >= 1
  }

  lemma {:induction false} ScanPositive(st: Scan, lines: seq<string>)
    requires Positive(st.out)
    ensures Positive(ScanLines(st, lines).out)
    decreases |lines|
  {
    if lines != [] {
      ScanPositive(ScanLine(st, lines[0]), lines[1..]);
    }
  }

  lemma {:induction false} RhsHunksPositive(diff: string)
    ensures Positive(RhsHunks(diff))
  {
    ScanPositive(Scan(None, map[]), SplitLines(diff));
  }
}
