// The lines of one file's patch around a target line of the new file.

module PatchContext {
  import opened Text
  import opened Chunks
  import opened UnifiedDiff
  import DiffHunks
  import DiffWindows

  datatype LineSide = ContextSide | AddSide | RemoveSide

  // `line` is None for a removed line, which has no number in the new file.
  datatype HunkLine = HunkLine(line: Option<nat>, text: string, side: LineSide)

  datatype SnippetLine = SnippetLine(line: Option<nat>, text: string, side: LineSide, isTarget: bool)

  // ---- The walk over the patch ----

  datatype Walk = Walk(cursor: nat, inHunk: bool, all: seq<HunkLine>)

  function WalkLine(w: Walk, raw: string): Walk {
    match ParseHeader(raw)
    case Some(h) => w.(cursor := h.start, inHunk := true)
    case None =>
      if !w.inHunk then w
      else if raw != "" && raw[0] == '+' then
        w.(all := w.all + [HunkLine(Some(w.cursor), raw[1..], AddSide)], cursor := w.cursor + 1)
      else if raw != "" && raw[0] == '-' then
        w.(all := w.all + [HunkLine(None, raw[1..], RemoveSide)])
      else if raw != "" && raw[0] == ' ' then
        w.(all := w.all + [HunkLine(Some(w.cursor), raw[1..], ContextSide)], cursor := w.cursor + 1)
      else if raw != "" && raw[0] == '\\' then w
      else w.(inHunk := false)
  }

  // One line, by its first character: a hunk header starts numbering; inside a
  // hunk "+" and " " lines are numbered and kept, "-" lines are kept without a
  // number, "\\" lines are passed over, and any other line ends the hunk.
  lemma {:induction false} WalkLineExactly(w: Walk, raw: string)
    ensures
      var w', none := WalkLine(w, raw), ParseHeader(raw).None?;
      && (ParseHeader(raw).Some? ==> w' == Walk(ParseHeader(raw).value.start, true, w.all))
      && (none && !w.inHunk ==> w' == w)
      && (none && w.inHunk && (raw == "" || raw[0] !in "+- \\") ==> w' == Walk(w.cursor, false, w.all))
      && (none && w.inHunk && raw != "" ==>
            && (raw[0] == '+' ==>
                  w' == Walk(w.cursor + 1, true, w.all + [HunkLine(Some(w.cursor), raw[1..], AddSide)]))
            && (raw[0] == ' ' ==>
                  w' == Walk(w.cursor + 1, true, w.all + [HunkLine(Some(w.cursor), raw[1..], ContextSide)]))
            && (raw[0] == '-' ==> w' == Walk(w.cursor, true, w.all + [HunkLine(None, raw[1..], RemoveSide)]))
            && (raw[0] == '\\' ==> w' == w))
  {
  }

  function WalkLines(w: Walk, lines: seq<string>): Walk
    decreases |lines|
  {
    if lines == [] then w else WalkLines(WalkLine(w, lines[0]), lines[1..])
  }

  function Entries(patch: string): seq<HunkLine> {
    WalkLines(Walk(0, false, []), Split(patch)).all
  }

  predicate HasLine(all: seq<HunkLine>, target: int) {
    exists i :: 0 <= i < |all| && IsAt(all[i], target)
  }

  predicate IsAt(l: HunkLine, target: int) {
    l.line.Some? && l.line.value == target
  }

  // all.findIndex(l => l.line === target)
  function FirstAt(all: seq<HunkLine>, target: int): (i: nat)
    requires HasLine(all, target)
    ensures i < |all| && IsAt(all[i], target) && forall j | 0 <= j < i :: !IsAt(all[j], target)
  {
    if IsAt(all[0], target) then 0
    else
      assert HasLine(all[1..], target) by {
        var i :| 0 <= i < |all| && IsAt(all[i], target);
        assert all[1..][i - 1] == all[i];
      }
      1 + FirstAt(all[1..], target)
  }

  // New-file entries (all but removed ones) among lo..hi.
  function Numbered(all: seq<HunkLine>, lo: nat, hi: nat): nat
    requires lo <= hi <= |all|
  {
    if lo == hi then 0 else Numbered(all, lo, hi - 1) + (if all[hi - 1].side == RemoveSide then 0 else 1)
  }

  function Mark(l: HunkLine, isTarget: bool): SnippetLine {
    SnippetLine(l.line, l.text, l.side, isTarget)
  }

  function MarkAll(ls: seq<HunkLine>): seq<SnippetLine> {
    seq(|ls|, i requires 0 <= i < |ls| => Mark(ls[i], false))
  }

  // Entries lo..hi as they are, with entry idx alone marked as the target.
  ghost predicate Shows(snippet: seq<SnippetLine>, all: seq<HunkLine>, lo: nat, hi: nat, idx: nat) {
    && lo <= idx < hi <= |all| && |snippet| == hi - lo
    && forall i | 0 <= i < |snippet| ::
         && snippet[i].line == all[lo + i].line && snippet[i].text == all[lo + i].text
         && snippet[i].side == all[lo + i].side && (snippet[i].isTarget <==> lo + i == idx)
  }

  lemma {:induction false} MarkedShows(all: seq<HunkLine>, lo: nat, hi: nat, idx: nat, before: seq<HunkLine>,
                                       after: seq<HunkLine>)
    requires lo <= idx < hi <= |all| && before == all[lo..idx] && after == all[idx + 1..hi]
    ensures Shows(MarkAll(before) + [Mark(all[idx], true)] + MarkAll(after), all, lo, hi, idx)
  {
  }

  // lo is where the walk up from entry idx stops: after `context` numbered
  // entries, with the last one it needed, or at the first entry of the patch.
  predicate CollectedBefore(all: seq<HunkLine>, idx: nat, context: int, lo: nat)
    requires idx < |all|
  {
    if context <= 0 then lo == idx
    else
      lo <= idx
      && if lo < idx && Numbered(all, lo, idx) == context then all[lo].side != RemoveSide
         else lo == 0 && Numbered(all, lo, idx) < context
  }

  predicate CollectedAfter(all: seq<HunkLine>, idx: nat, context: int, hi: nat)
    requires idx < |all|
  {
    if context <= 0 then hi == idx + 1
    else
      idx < hi <= |all|
      && if Numbered(all, idx + 1, hi) == context then all[hi - 1].side != RemoveSide && idx + 1 < hi
         else hi == |all| && Numbered(all, idx + 1, hi) < context
  }

  predicate Collected(all: seq<HunkLine>, idx: nat, context: int, lo: nat, hi: nat)
    requires idx < |all|
  {
    CollectedBefore(all, idx, context, lo) && CollectedAfter(all, idx, context, hi)
  }

  // The first half of usePatchContext: the numbered list of all the patch's
  // lines, and whether the target is among them.
  method WalkLinesOf(patch: string, target: int) returns (all: seq<HunkLine>, coversTarget: bool)
    ensures all == Entries(patch) && (coversTarget <==> HasLine(all, target))
  {
    var rawLines := Split(patch);
    var rhsCursor := 0;
    var inHunk := false;
    all := [];
    coversTarget := false;
    var n := 0;
    assert rawLines[0..] == rawLines;
    while n < |rawLines|
      invariant 0 <= n <= |rawLines|
      invariant WalkLines(Walk(rhsCursor, inHunk, all), rawLines[n..]).all == Entries(patch)
      invariant coversTarget <==> HasLine(all, target)
    {
      var raw := rawLines[n];
      assert rawLines[n..][0] == raw && rawLines[n..][1..] == rawLines[n + 1..];
      n := n + 1;
      var m := ParseHeader(raw);
      if m.Some? {
        rhsCursor := m.value.start;
        inHunk := true;
        continue;
      }
      if !inHunk {
        continue;
      }
      if raw != "" && raw[0] == '+' {
        var entry := HunkLine(Some(rhsCursor), raw[1..], AddSide);
        HasLineSnoc(all, entry, target);
        if rhsCursor == target { coversTarget := true; }
        all := all + [entry];
        rhsCursor := rhsCursor + 1;
      } else if raw != "" && raw[0] == '-' {
        HasLineSnoc(all, HunkLine(None, raw[1..], RemoveSide), target);
        all := all + [HunkLine(None, raw[1..], RemoveSide)];
      } else if raw != "" && raw[0] == ' ' {
        var entry := HunkLine(Some(rhsCursor), raw[1..], ContextSide);
        HasLineSnoc(all, entry, target);
        if rhsCursor == target { coversTarget := true; }
        all := all + [entry];
        rhsCursor := rhsCursor + 1;
      } else if raw != "" && raw[0] == '\\' {
        continue;
      } else {
        inHunk := false;
      }
    }
  }

  // None is the null result.
  method UsePatchContext(patch: string, target: int, context: int := 3)
    returns (snippet: Option<seq<SnippetLine>>, ghost lo: nat, ghost hi: nat)
    ensures snippet.Some? <==> target > 0 && HasLine(Entries(patch), target)
    ensures
      var all := Entries(patch);
      snippet.Some? ==>
        var idx := FirstAt(all, target);
        Collected(all, idx, context, lo, hi) && Shows(snippet.value, all, lo, hi, idx)
  {
    if patch == "" || target <= 0 {
      assert patch == "" ==> Split(patch) == [""] && [""][1..] == [] && ParseHeader("") == None;
      return None, 0, 0;
    }
    var all, coversTarget := WalkLinesOf(patch, target);
    if !coversTarget {
      return None, 0, 0;
    }
    var targetIdx := FirstAt(all, target);
    var before := CollectBefore(all, targetIdx, context);
    var after := CollectAfter(all, targetIdx, context);
    lo, hi := targetIdx - |before|, targetIdx + 1 + |after|;
    snippet := Some(MarkAll(before) + [Mark(all[targetIdx], true)] + MarkAll(after));
    MarkedShows(all, lo, hi, targetIdx, before, after);
  }

  // The numbered entries before idx, walking up.
  method CollectBefore(all: seq<HunkLine>, idx: nat, context: int) returns (before: seq<HunkLine>)
    requires idx < |all|
    ensures |before| <= idx && before == all[idx - |before|..idx] && CollectedBefore(all, idx, context, idx - |before|)
  {
    before := [];
    var beforeCount := 0;
    var i := idx - 1;
    while i >= 0 && beforeCount < context
      invariant -1 <= i < idx
      invariant before == all[i + 1..idx]
      invariant beforeCount == Numbered(all, i + 1, idx)
      invariant context > 0 ==> beforeCount <= context
      invariant context <= 0 ==> i == idx - 1
      invariant beforeCount == context && context > 0 ==> i + 1 < idx && all[i + 1].side != RemoveSide
    {
      NumberedFront(all, i, idx);
      before := [all[i]] + before;
      if all[i].side != RemoveSide { beforeCount := beforeCount + 1; }
      i := i - 1;
    }
    assert idx - |before| == i + 1;
  }

  // The numbered entries after idx, walking down.
  method CollectAfter(all: seq<HunkLine>, idx: nat, context: int) returns (after: seq<HunkLine>)
    requires idx < |all|
    ensures idx + 1 + |after| <= |all| && after == all[idx + 1..idx + 1 + |after|]
              && CollectedAfter(all, idx, context, idx + 1 + |after|)
  {
    after := [];
    var afterCount := 0;
    var j := idx + 1;
    while j < |all| && afterCount < context
      invariant idx + 1 <= j <= |all|
      invariant after == all[idx + 1..j]
      invariant afterCount == Numbered(all, idx + 1, j)
      invariant context > 0 ==> afterCount <= context
      invariant context <= 0 ==> j == idx + 1
      invariant afterCount == context && context > 0 ==> all[j - 1].side != RemoveSide && idx + 1 < j
    {
      after := after + [all[j]];
      if all[j].side != RemoveSide { afterCount := afterCount + 1; }
      j := j + 1;
    }
    assert idx + 1 + |after| == j;
  }

  lemma {:induction false} HasLineSnoc(all: seq<HunkLine>, l: HunkLine, target: int)
    ensures HasLine(all + [l], target) <==> HasLine(all, target) || IsAt(l, target)
  {
    var more := all + [l];
    if HasLine(all, target) {
      var i :| 0 <= i < |all| && IsAt(all[i], target);
      assert IsAt(more[i], target);
    }
    if IsAt(l, target) {
      assert IsAt(more[|all|], target);
    }
  }

  lemma {:induction false} NumberedFront(all: seq<HunkLine>, lo: nat, hi: nat)
    requires lo < hi <= |all|
    ensures Numbered(all, lo, hi) == (if all[lo].side == RemoveSide then 0 else 1) + Numbered(all, lo + 1, hi)
    decreases hi - lo
  {
    if lo + 1 < hi {
      NumberedFront(all, lo, hi - 1);
    }
  }

  lemma {:induction false} NumberedSplit(all: seq<HunkLine>, lo: nat, mid: nat, hi: nat)
    requires lo <= mid <= hi <= |all|
    ensures Numbered(all, lo, hi) == Numbered(all, lo, mid) + Numbered(all, mid, hi)
    decreases hi - mid
  {
    if mid < hi {
      NumberedSplit(all, lo, mid, hi - 1);
    }
  }

  // ---- Entries of a written patch ----

  function BodyEntries(body: seq<BodyLine>, cursor: nat): seq<HunkLine> {
    if body == [] then []
    else
      match body[0]
      case Context(t) => [HunkLine(Some(cursor), t, ContextSide)] + BodyEntries(body[1..], cursor + 1)
      case Added(t) => [HunkLine(Some(cursor), t, AddSide)] + BodyEntries(body[1..], cursor + 1)
      case Removed(t) => [HunkLine(None, t, RemoveSide)] + BodyEntries(body[1..], cursor)
      case NoNewlineMark => BodyEntries(body[1..], cursor)
  }

  function PatchEntries(hs: seq<Hunk>): seq<HunkLine> {
    if hs == [] then [] else BodyEntries(hs[0].body, hs[0].newStart) + PatchEntries(hs[1..])
  }

  lemma {:induction false} WalkConcat(w: Walk, a: seq<string>, b: seq<string>)
    ensures WalkLines(w, a + b) == WalkLines(WalkLines(w, a), b)
    decreases |a|
  {
    if a == [] {
      assert a + b == b;
    } else {
      WalkConcat(WalkLine(w, a[0]), a[1..], b);
      assert (a + b)[1..] == a[1..] + b;
    }
  }

  lemma {:induction false} WalkBodyLine(w: Walk, b: BodyLine)
    requires w.inHunk
    ensures WalkLine(w, BodyText(b)) == match b
            case Context(t) => w.(all := w.all + [HunkLine(Some(w.cursor), t, ContextSide)], cursor := w.cursor + 1)
            case Added(t) => w.(all := w.all + [HunkLine(Some(w.cursor), t, AddSide)], cursor := w.cursor + 1)
            case Removed(t) => w.(all := w.all + [HunkLine(None, t, RemoveSide)])
            case NoNewlineMark => w
  {
    BodyIsNoHeader(b);
    if !b.NoNewlineMark? {
      assert BodyText(b)[1..] == b.text;
    }
  }

  lemma {:induction false} WalkBody(w: Walk, body: seq<BodyLine>)
    requires w.inHunk
    ensures WalkLines(w, BodyTexts(body)).all == w.all + BodyEntries(body, w.cursor)
    decreases |body|
  {
    if body != [] {
      assert BodyTexts(body)[1..] == BodyTexts(body[1..]);
      var w1 := WalkLine(w, BodyText(body[0]));
      assert w1.inHunk && w1.all + BodyEntries(body[1..], w1.cursor) == w.all + BodyEntries(body, w.cursor) by {
        WalkBodyLine(w, body[0]);
      }
      WalkBody(w1, body[1..]);
    }
  }

  lemma {:induction false} WalkHunk(w: Walk, h: Hunk)
    ensures WalkLines(w, HunkLines(h)).all == w.all + BodyEntries(h.body, h.newStart)
  {
    var w1 := WalkLine(w, HeaderLine(h));
    assert w1 == w.(cursor := h.newStart, inHunk := true) by {
      HeaderRoundTrip(h);
    }
    assert HunkLines(h)[1..] == BodyTexts(h.body);
    WalkBody(w1, h.body);
  }

  lemma {:induction false} WalkPatch(w: Walk, hs: seq<Hunk>)
    ensures WalkLines(w, PatchLines(hs)).all == w.all + PatchEntries(hs)
    decreases |hs|
  {
    if hs != [] {
      var w1 := WalkLines(w, HunkLines(hs[0]));
      WalkConcat(w, HunkLines(hs[0]), PatchLines(hs[1..]));
      WalkPatch(w1, hs[1..]);
      assert w1.all == w.all + BodyEntries(hs[0].body, hs[0].newStart) by {
        WalkHunk(w, hs[0]);
      }
    }
  }

  // The patch as text: lines before the first hunk, which read as no hunk
  // header, then the hunks' lines, perhaps closed by a final terminator.
  ghost predicate PatchText(patch: string, preamble: seq<string>, hs: seq<Hunk>) {
    var lines := preamble + PatchLines(hs);
    && AllOneLine(lines) && lines != []
    && (forall i | 0 <= i < |preamble| :: ParseHeader(preamble[i]) == None)
    && (patch == Join(lines) || patch == Join(lines) + "\n")
  }

  lemma {:induction false} WalkPreamble(w: Walk, preamble: seq<string>)
    requires !w.inHunk && forall i | 0 <= i < |preamble| :: ParseHeader(preamble[i]) == None
    ensures WalkLines(w, preamble) == w
  {
    if preamble != [] {
      WalkPreamble(w, preamble[1..]);
    }
  }

  lemma {:induction false} WalkLastLine(w: Walk, lines: seq<string>)
    ensures WalkLines(w, lines + [""]).all == WalkLines(w, lines).all
  {
    WalkConcat(w, lines, [""]);
    var w1 := WalkLines(w, lines);
    assert [""][1..] == [] && ParseHeader("") == None;
    assert WalkLines(w1, [""]) == WalkLine(w1, "");
  }

  lemma {:induction false} EntriesOfPatch(patch: string, preamble: seq<string>, hs: seq<Hunk>)
    requires PatchText(patch, preamble, hs)
    ensures Entries(patch) == PatchEntries(hs)
  {
    var lines, w := preamble + PatchLines(hs), Walk(0, false, []);
    assert WalkLines(w, lines).all == PatchEntries(hs) by {
      WalkConcat(w, preamble, PatchLines(hs));
      WalkPreamble(w, preamble);
      WalkPatch(w, hs);
    }
    SplitJoin(lines);
    if patch == Join(lines) + "\n" {
      JoinConcat(lines, [""]);
      assert patch == Join(lines + [""]);
      SplitJoin(lines + [""]);
      WalkLastLine(w, lines);
    }
  }

  // ---- Every numbered entry is the new file's line ----

  // Entries carry the new file's text at their line numbers.
  ghost predicate TrueTo(all: seq<HunkLine>, newFile: seq<string>) {
    forall i | 0 <= i < |all| && all[i].line.Some? ::
      1 <= all[i].line.value <= |newFile| && newFile[all[i].line.value - 1] == all[i].text
  }

  // The new side of the body is the new file's text from line `cursor` on.
  ghost predicate BodyMatches(body: seq<BodyLine>, cursor: nat, newFile: seq<string>) {
    NewSide(body) != [] ==>
      1 <= cursor && cursor + |NewSide(body)| <= |newFile| + 1
      && NewSide(body) == newFile[cursor - 1..cursor - 1 + |NewSide(body)|]
  }

  lemma {:induction false} BodyMatchesNext(body: seq<BodyLine>, cursor: nat, newFile: seq<string>)
    requires body != [] && BodyMatches(body, cursor, newFile)
    ensures (body[0].Context? || body[0].Added?) ==>
              1 <= cursor <= |newFile| && newFile[cursor - 1] == body[0].text
                  && BodyMatches(body[1..], cursor + 1, newFile)
    ensures !(body[0].Context? || body[0].Added?) ==> BodyMatches(body[1..], cursor, newFile)
  {
    if body[0].Context? || body[0].Added? {
      var side, rest := NewSide(body), NewSide(body[1..]);
      assert side == [body[0].text] + rest;
      assert side[0] == newFile[cursor - 1];
      assert side[1..] == rest;
      assert newFile[cursor - 1..cursor - 1 + |side|][1..] == newFile[cursor..cursor + |rest|];
    }
  }

  lemma {:induction false} TrueCons(l: HunkLine, all: seq<HunkLine>, newFile: seq<string>)
    requires TrueTo(all, newFile)
    requires l.line.Some? ==> 1 <= l.line.value <= |newFile| && newFile[l.line.value - 1] == l.text
    ensures TrueTo([l] + all, newFile)
  {
  }

  lemma {:induction false} BodyTrue(body: seq<BodyLine>, cursor: nat, newFile: seq<string>)
    requires BodyMatches(body, cursor, newFile)
    ensures TrueTo(BodyEntries(body, cursor), newFile)
    decreases |body|
  {
    if body != [] {
      BodyMatchesNext(body, cursor, newFile);
      match body[0]
      case Context(t) =>
        BodyTrue(body[1..], cursor + 1, newFile);
        TrueCons(HunkLine(Some(cursor), t, ContextSide), BodyEntries(body[1..], cursor + 1), newFile);
      case Added(t) =>
        BodyTrue(body[1..], cursor + 1, newFile);
        TrueCons(HunkLine(Some(cursor), t, AddSide), BodyEntries(body[1..], cursor + 1), newFile);
      case Removed(t) =>
        BodyTrue(body[1..], cursor, newFile);
        TrueCons(HunkLine(None, t, RemoveSide), BodyEntries(body[1..], cursor), newFile);
      case NoNewlineMark =>
        BodyTrue(body[1..], cursor, newFile);
    }
  }

  lemma {:induction false} BodyHasLine(body: seq<BodyLine>, cursor: nat, l: int)
    ensures HasLine(BodyEntries(body, cursor), l) <==> cursor <= l < cursor + |NewSide(body)|
    decreases |body|
  {
    if body != [] {
      match body[0]
      case Context(t) =>
        BodyHasLine(body[1..], cursor + 1, l);
        HasLineCons(HunkLine(Some(cursor), t, ContextSide), BodyEntries(body[1..], cursor + 1), l);
      case Added(t) =>
        BodyHasLine(body[1..], cursor + 1, l);
        HasLineCons(HunkLine(Some(cursor), t, AddSide), BodyEntries(body[1..], cursor + 1), l);
      case Removed(t) =>
        BodyHasLine(body[1..], cursor, l);
        HasLineCons(HunkLine(None, t, RemoveSide), BodyEntries(body[1..], cursor), l);
      case NoNewlineMark =>
        BodyHasLine(body[1..], cursor, l);
    }
  }

  lemma {:induction false} HasLineCons(h: HunkLine, all: seq<HunkLine>, l: int)
    ensures HasLine([h] + all, l) <==> IsAt(h, l) || HasLine(all, l)
  {
    HasLineConcat([h], all, l);
    if IsAt(h, l) {
      assert IsAt([h][0], l);
    }
  }

  lemma {:induction false} HasLineConcat(a: seq<HunkLine>, b: seq<HunkLine>, l: int)
    ensures HasLine(a + b, l) <==> HasLine(a, l) || HasLine(b, l)
  {
    var ab := a + b;
    if HasLine(a, l) {
      var i :| 0 <= i < |a| && IsAt(a[i], l);
      assert IsAt(ab[i], l);
    }
    if HasLine(b, l) {
      var i :| 0 <= i < |b| && IsAt(b[i], l);
      assert IsAt(ab[|a| + i], l);
    }
    if HasLine(ab, l) {
      var i :| 0 <= i < |ab| && IsAt(ab[i], l);
      assert if i < |a| then IsAt(a[i], l) else IsAt(b[i - |a|], l);
    }
  }

  lemma {:induction false} HunkTrue(h: Hunk, newFile: seq<string>)
    requires Matches(h, newFile)
    ensures TrueTo(BodyEntries(h.body, h.newStart), newFile)
    ensures forall l: int :: HasLine(BodyEntries(h.body, h.newStart), l)
              <==> h.newStart <= l < h.newStart + Length(h.newCount)
  {
    BodyTrue(h.body, h.newStart, newFile);
    forall l: int ensures HasLine(BodyEntries(h.body, h.newStart), l)
        <==> h.newStart <= l < h.newStart + Length(h.newCount) {
      BodyHasLine(h.body, h.newStart, l);
    }
  }

  // Each numbered entry the walk builds carries the new file's text at that line.
  lemma {:induction false} EntriesTrue(hs: seq<Hunk>, newFile: seq<string>)
    requires forall k | 0 <= k < |hs| :: Matches(hs[k], newFile)
    ensures TrueTo(PatchEntries(hs), newFile)
    ensures forall l: int :: HasLine(PatchEntries(hs), l) <==> DiffWindows.Covered(DiffHunks.Announced(hs), l)
    decreases |hs|
  {
    if hs != [] {
      HunkTrue(hs[0], newFile);
      EntriesTrue(hs[1..], newFile);
      var r, rest := DiffHunks.RangeOf(hs[0].newStart, hs[0].newCount), DiffHunks.Announced(hs[1..]);
      forall l: int ensures HasLine(PatchEntries(hs), l) <==> DiffWindows.Covered(DiffHunks.Announced(hs), l) {
        HasLineConcat(BodyEntries(hs[0].body, hs[0].newStart), PatchEntries(hs[1..]), l);
        CoveredConcat(r, rest, l);
        CoveredRange(hs[0], l);
      }
    }
  }

  lemma {:induction false} CoveredConcat(a: seq<DiffWindows.Hunk>, b: seq<DiffWindows.Hunk>, x: int)
    ensures DiffWindows.Covered(a + b, x) <==> DiffWindows.Covered(a, x) || DiffWindows.Covered(b, x)
  {
    var ab := a + b;
    if DiffWindows.Covered(a, x) {
      var k :| 0 <= k < |a| && a[k].1 > 0 && a[k].0 <= x < a[k].0 + a[k].1;
      assert ab[k] == a[k];
    }
    if DiffWindows.Covered(b, x) {
      var k :| 0 <= k < |b| && b[k].1 > 0 && b[k].0 <= x < b[k].0 + b[k].1;
      assert ab[|a| + k] == b[k];
    }
    if DiffWindows.Covered(ab, x) {
      var k :| 0 <= k < |ab| && ab[k].1 > 0 && ab[k].0 <= x < ab[k].0 + ab[k].1;
      assert if k < |a| then a[k] == ab[k] else b[k - |a|] == ab[k];
    }
  }

  lemma {:induction false} CoveredRange(h: Hunk, x: int)
    requires Length(h.newCount) > 0 ==> 1 <= h.newStart
    ensures DiffWindows.Covered(DiffHunks.RangeOf(h.newStart, h.newCount), x)
       <==> h.newStart <= x < h.newStart + Length(h.newCount)
  {
    var r := DiffHunks.RangeOf(h.newStart, h.newCount);
    if r != [] && h.newStart <= x < h.newStart + Length(h.newCount) {
      assert r[0].1 > 0 && r[0].0 <= x < r[0].0 + r[0].1;
    }
  }

  // For the patch of a diff to newFile: a snippet is returned exactly for the
  // positive target lines inside the ranges the hunk headers announce, and
  // every numbered entry it is taken from shows newFile's text at its line.
  lemma {:induction false} SnippetIffInRange(patch: string, preamble: seq<string>, hs: seq<Hunk>, newFile: seq<string>,
                                             target: int)
    requires PatchText(patch, preamble, hs) && DiffTo(hs, newFile)
    ensures target > 0 && HasLine(Entries(patch), target) <==> DiffWindows.Covered(DiffHunks.Announced(hs), target)
    ensures TrueTo(Entries(patch), newFile)
    ensures HasLine(Entries(patch), target) ==>
              target <= |newFile| && Entries(patch)[FirstAt(Entries(patch), target)].text == newFile[target - 1]
  {
    var all := Entries(patch);
    assert all == PatchEntries(hs) by {
      EntriesOfPatch(patch, preamble, hs);
    }
    EntriesTrue(hs, newFile);
    if HasLine(all, target) {
      TrueAtTarget(all, newFile, target);
    }
  }

  lemma {:induction false} TrueAtTarget(all: seq<HunkLine>, newFile: seq<string>, target: int)
    requires TrueTo(all, newFile) && HasLine(all, target)
    ensures 1 <= target <= |newFile| && all[FirstAt(all, target)].text == newFile[target - 1]
  {
    var idx := FirstAt(all, target);
    assert IsAt(all[idx], target) && newFile[all[idx].line.value - 1] == all[idx].text;
  }

  // The stopping points are determined: there is one snippet for a target.
  lemma {:induction false} CollectedOnce(all: seq<HunkLine>, idx: nat, context: int, lo: nat, hi: nat, lo': nat,
                                         hi': nat)
    requires idx < |all| && Collected(all, idx, context, lo, hi) && Collected(all, idx, context, lo', hi')
    ensures lo == lo' && hi == hi'
  {
    BeforeOnce(all, idx, context, lo, lo');
    BeforeOnce(all, idx, context, lo', lo);
    AfterOnce(all, idx, context, hi, hi');
    AfterOnce(all, idx, context, hi', hi);
  }

  lemma {:induction false} BeforeOnce(all: seq<HunkLine>, idx: nat, context: int, lo: nat, lo': nat)
    requires idx < |all| && CollectedBefore(all, idx, context, lo) && CollectedBefore(all, idx, context, lo')
    ensures lo >= lo'
  {
    if lo < lo' {
      NumberedSplit(all, lo, lo', idx);
      NumberedFront(all, lo, lo');
    }
  }

  lemma {:induction false} AfterOnce(all: seq<HunkLine>, idx: nat, context: int, hi: nat, hi': nat)
    requires idx < |all| && CollectedAfter(all, idx, context, hi) && CollectedAfter(all, idx, context, hi')
    ensures hi <= hi'
  {
    if hi > hi' {
      NumberedSplit(all, idx + 1, hi', hi);
      NumberedSplit(all, hi', hi - 1, hi);
    }
  }
}
